/**
 * The match played on the kiosk (src/main.js): cards dropped on the field,
 * the formation they make, the score, the scoring rules read from the
 * configuration, the name typed on the virtual keyboard and the timer that
 * the help and cancel dialogs pause.
 */
module Match {
  import opened Wrappers
  import opened Text
  import opened Utils
  import Seqs

  /** At most this many cards on the field. */
  const MaxPlayers: nat := 6

  /** Number of cards in defense, midfield and attack. */
  datatype Formation = Formation(defense: nat, midfield: nat, attack: nat)

  function Total(f: Formation): nat {
    f.defense + f.midfield + f.attack
  }

  /** The ideal line-up of each portfolio profile. */
  function IdealFormation(p: Profile): (f: Formation)
    ensures Total(f) == MaxPlayers
    ensures f.defense >= 1 && f.midfield >= 2 && f.attack >= 1
  {
    match p
    case Conservador => Formation(2, 3, 1)
    case Moderado => Formation(2, 2, 2)
    case Arrojado => Formation(1, 3, 2)
  }

  /** The three ideal line-ups are distinct, so the formation identifies the profile. */
  lemma IdealFormationsDistinct(p: Profile, q: Profile)
    ensures IdealFormation(p) == IdealFormation(q) <==> p == q
  {
  }

  /** A card on the field: its asset, its top-left corner, the zone it fell in and whether that zone was right. */
  datatype Placement = Placement(id: int, x: real, y: real, zone: Zone, correct: bool)

  function InZone(z: Zone): Placement -> bool {
    (c: Placement) => c.zone == z
  }

  function IsCorrect(): Placement -> bool {
    (c: Placement) => c.correct
  }

  function HasId(id: int): Placement -> bool {
    (c: Placement) => c.id == id
  }

  function OtherId(id: int): Placement -> bool {
    (c: Placement) => c.id != id
  }

  /** `getFormationCounts()`: how many placed cards lie in each zone. */
  function FormationCounts(placed: seq<Placement>): (f: Formation)
    ensures Total(f) == |placed|
  {
    ZonesPartitionCards(placed);
    Formation(
      Seqs.CountIf(placed, InZone(Defense)),
      Seqs.CountIf(placed, InZone(Midfield)),
      Seqs.CountIf(placed, InZone(Attack)))
  }

  /** Every card lies in exactly one of the three zones. */
  lemma {:induction false} ZonesPartitionCards(placed: seq<Placement>)
    ensures Seqs.CountIf(placed, InZone(Defense)) + Seqs.CountIf(placed, InZone(Midfield))
      + Seqs.CountIf(placed, InZone(Attack)) == |placed|
  {
    if |placed| > 0 {
      ZonesPartitionCards(placed[1..]);
      assert InZone(Defense)(placed[0]) || InZone(Midfield)(placed[0]) || InZone(Attack)(placed[0]);
    }
  }

  /** Reordering the cards does not change the formation. */
  lemma FormationIgnoresOrder(a: seq<Placement>, b: seq<Placement>)
    requires multiset(a) == multiset(b)
    ensures FormationCounts(a) == FormationCounts(b)
  {
    Seqs.CountIfPermutation(a, b, InZone(Defense));
    Seqs.CountIfPermutation(a, b, InZone(Midfield));
    Seqs.CountIfPermutation(a, b, InZone(Attack));
  }

  /** `isIdealFormation()`: a profile is chosen, six cards are placed and they match its line-up. */
  predicate IsIdealFormation(p: Option<Profile>, placed: seq<Placement>) {
    p.Some? && |placed| == MaxPlayers && FormationCounts(placed) == IdealFormation(p.value)
  }

  /** Counts of the ideal line-up already force six cards. */
  lemma IdealFormationHasSixCards(p: Profile, placed: seq<Placement>)
    requires FormationCounts(placed) == IdealFormation(p)
    ensures IsIdealFormation(Some(p), placed)
  {
  }

  /** The rules a match is scored by. */
  datatype ScoringRules = ScoringRules(pointsPerCorrect: int, pointsPerWrong: int, bonusIdeal: int, maxScore: int)

  const DefaultRules: ScoringRules := ScoringRules(3, 0, 20, 38)

  /** What `applyScoringConfig` can leave behind: no negative points and a positive cap. */
  predicate RulesSane(r: ScoringRules) {
    r.pointsPerCorrect >= 0 && r.pointsPerWrong >= 0 && r.bonusIdeal >= 0 && r.maxScore >= 1
  }

  /** The number of placed cards marked right. */
  function CorrectCount(placed: seq<Placement>): (n: nat)
    ensures n <= |placed|
  {
    if |placed| == 0 then 0
    else (if placed[0].correct then 1 else 0) + CorrectCount(placed[1..])
  }

  lemma {:induction false} CorrectCountIsCount(placed: seq<Placement>)
    ensures CorrectCount(placed) == Seqs.CountIf(placed, IsCorrect())
  {
    if |placed| > 0 {
      CorrectCountIsCount(placed[1..]);
    }
  }

  /**
   * `recomputeScore()` and the score of `finalizeGame()`: points for right
   * cards, the bonus for the ideal line-up, the penalty for wrong cards,
   * clamped to [0, maxScore].
   */
  function ComputeScore(p: Option<Profile>, placed: seq<Placement>, rules: ScoringRules): (s: int)
    ensures 0 <= s
    ensures rules.maxScore >= 0 ==> s <= rules.maxScore
  {
    ScoreFormula(CorrectCount(placed), |placed|, IsIdealFormation(p, placed), rules)
  }

  /** The score of `cards` cards of which `correct` are right, with or without the ideal line-up. */
  function ScoreFormula(correct: nat, cards: nat, ideal: bool, rules: ScoringRules): (s: int)
    ensures 0 <= s
    ensures rules.maxScore >= 0 ==> s <= rules.maxScore
  {
    var wrong := cards - correct;
    var bonus := if ideal then rules.bonusIdeal else 0;
    Max(0, Min(rules.maxScore, correct * rules.pointsPerCorrect + bonus - wrong * rules.pointsPerWrong))
  }

  /** The score depends on which cards are placed, not on the order they were placed in. */
  lemma ScoreIgnoresOrder(p: Option<Profile>, a: seq<Placement>, b: seq<Placement>, rules: ScoringRules)
    requires multiset(a) == multiset(b)
    ensures ComputeScore(p, a, rules) == ComputeScore(p, b, rules)
  {
    assert |a| == |multiset(a)| == |b|;
    CorrectCountIsCount(a);
    CorrectCountIsCount(b);
    Seqs.CountIfPermutation(a, b, IsCorrect());
    assert CorrectCount(a) == CorrectCount(b);
    FormationIgnoresOrder(a, b);
    assert IsIdealFormation(p, a) == IsIdealFormation(p, b);
  }

  /** With the default rules, six right cards in the ideal line-up score the maximum of 38. */
  lemma PerfectMatchScoresMax(p: Profile, placed: seq<Placement>)
    requires IsIdealFormation(Some(p), placed)
    requires forall i :: 0 <= i < |placed| ==> placed[i].correct
    ensures ComputeScore(Some(p), placed, DefaultRules) == 38
  {
    AllCorrectCount(placed);
    FullScore(CorrectCount(placed), |placed|, IsIdealFormation(Some(p), placed));
  }

  lemma AllCorrectCount(placed: seq<Placement>)
    requires forall i :: 0 <= i < |placed| ==> placed[i].correct
    ensures CorrectCount(placed) == |placed|
  {
    CorrectCountIsCount(placed);
    assert forall i :: 0 <= i < |placed| ==> IsCorrect()(placed[i]);
    Seqs.CountIfExtremes(placed, IsCorrect());
  }

  lemma FullScore(correct: nat, cards: nat, ideal: bool)
    requires correct == cards == MaxPlayers && ideal
    ensures ScoreFormula(correct, cards, ideal, DefaultRules) == 38
  {
  }

  /** Under sane rules a wrong card never adds to the score. */
  lemma WrongCardNeverHelps(p: Option<Profile>, placed: seq<Placement>, c: Placement, rules: ScoringRules)
    requires RulesSane(rules)
    requires !c.correct
    requires !IsIdealFormation(p, placed + [c])
    ensures ComputeScore(p, placed + [c], rules) <= ComputeScore(p, placed, rules)
  {
    CorrectCountIsCount(placed);
    CorrectCountIsCount(placed + [c]);
    CorrectCountIsCount([c]);
    Seqs.CountIfAppend(placed, [c], IsCorrect());
    ExtraWrongCard(CorrectCount(placed), |placed|, IsIdealFormation(p, placed), rules);
  }

  lemma ExtraWrongCard(correct: nat, cards: nat, ideal: bool, rules: ScoringRules)
    requires RulesSane(rules) && correct <= cards
    ensures ScoreFormula(correct, cards + 1, false, rules) <= ScoreFormula(correct, cards, ideal, rules)
  {
    var w := cards - correct;
    assert (w + 1) * rules.pointsPerWrong == w * rules.pointsPerWrong + rules.pointsPerWrong;
  }

  /** The state of a match. */
  datatype MatchState = MatchState(profile: Option<Profile>, placed: seq<Placement>, score: int, rules: ScoringRules)

  predicate UniqueIds(placed: seq<Placement>) {
    forall i, j :: 0 <= i < j < |placed| ==> placed[i].id != placed[j].id
  }

  /** What every step of a match keeps: at most six cards, one per asset, and the score in step with them. */
  predicate Valid(st: MatchState) {
    && |st.placed| <= MaxPlayers
    && UniqueIds(st.placed)
    && st.score == ComputeScore(st.profile, st.placed, st.rules)
  }

  /** `initGame`: an empty field and a zero score. */
  function NewMatch(p: Option<Profile>, rules: ScoringRules): (st: MatchState)
    requires rules.maxScore >= 0
    ensures Valid(st)
    ensures st.placed == [] && st.score == 0
  {
    MatchState(p, [], 0, rules)
  }

  /** The field in client coordinates (`getBoundingClientRect`). */
  datatype Rect = Rect(left: real, top: real, width: real, height: real)

  /** The current card size. */
  datatype CardSize = CardSize(w: real, h: real)

  const CollisionMargin: real := 5.0

  function Abs(v: real): real { if v < 0.0 then -v else v }

  /** Two cards of the given size with these corners overlap by more than the margin. */
  predicate Overlap(x1: real, y1: real, x2: real, y2: real, card: CardSize) {
    Abs(x1 - x2) < card.w - CollisionMargin && Abs(y1 - y2) < card.h - CollisionMargin
  }

  /** `checkCollision(newX, newY, ignoreId)`: another card would overlap the new position. */
  function CheckCollision(placed: seq<Placement>, x: real, y: real, ignoreId: int, card: CardSize): (hit: bool)
    ensures hit <==> exists i :: 0 <= i < |placed| && placed[i].id != ignoreId && Overlap(x, y, placed[i].x, placed[i].y, card)
  {
    if |placed| == 0 then false
    else
      var c := placed[0];
      if c.id == ignoreId then
        var r := CheckCollision(placed[1..], x, y, ignoreId, card);
        assert forall i :: 1 <= i < |placed| ==> placed[i] == placed[1..][i - 1];
        r
      else if x < c.x + card.w - CollisionMargin && x + card.w - CollisionMargin > c.x
           && y < c.y + card.h - CollisionMargin && y + card.h - CollisionMargin > c.y then
        assert Overlap(x, y, c.x, c.y, card);
        true
      else
        var r := CheckCollision(placed[1..], x, y, ignoreId, card);
        assert forall i :: 1 <= i < |placed| ==> placed[i] == placed[1..][i - 1];
        assert !Overlap(x, y, c.x, c.y, card);
        r
  }

  /** Overlap is symmetric, so it does not matter which of two cards is dropped last. */
  lemma OverlapSymmetric(x1: real, y1: real, x2: real, y2: real, card: CardSize)
    ensures Overlap(x1, y1, x2, y2, card) <==> Overlap(x2, y2, x1, y1, card)
  {
  }

  /** Why a drop was refused, or where the card went. */
  datatype DropOutcome = UnknownAsset | OutsideField | TeamFull | NoRoom | Placed(card: Placement)

  /** Under unique ids, removing the entry found for `id` is the same as keeping every other entry. */
  lemma RemoveFoundIsFilter(s: seq<Placement>, id: int)
    requires UniqueIds(s)
    ensures var k := Seqs.FindIndex(s, HasId(id));
      Seqs.Filter(s, OtherId(id)) == if k.Some? then Seqs.RemoveAt(s, k.value) else s
  {
    var k := Seqs.FindIndex(s, HasId(id));
    if k.Some? {
      forall j | 0 <= j < |s| && j != k.value
        ensures OtherId(id)(s[j])
      {
        if j < k.value {
          assert s[j].id != s[k.value].id;
        } else {
          assert s[k.value].id != s[j].id;
        }
      }
      Seqs.FilterAllButOne(s, k.value, OtherId(id));
    } else {
      Seqs.FilterAll(s, OtherId(id));
    }
  }

  /**
   * `processDrop(assetId, clientX, clientY, offsetX, offsetY)` followed by
   * `placeCardOnField` and `recomputeScore`: a refused drop changes nothing;
   * an accepted one moves or adds the card, keeping every other card as it
   * was, and re-scores the field.
   */
  function ProcessDrop(st: MatchState, assets: seq<Asset>, assetId: int, clientX: real, clientY: real,
                       offsetX: real, offsetY: real, field: Rect, card: CardSize): (r: (MatchState, DropOutcome))
    ensures !r.1.Placed? ==> r.0 == st
    ensures r.1 == UnknownAsset <==> forall i :: 0 <= i < |assets| ==> assets[i].id != assetId
    ensures r.1 == OutsideField ==>
      clientX < field.left || clientX > field.left + field.width || clientY < field.top || clientY > field.top + field.height
    ensures r.1 != UnknownAsset && r.1 != OutsideField ==>
      field.left <= clientX <= field.left + field.width && field.top <= clientY <= field.top + field.height
    ensures r.1 == TeamFull ==>
      |st.placed| >= MaxPlayers && forall i :: 0 <= i < |st.placed| ==> st.placed[i].id != assetId
    ensures r.1 == NoRoom ==>
      CheckCollision(st.placed, Clamp(clientX - field.left - offsetX, 0.0, field.width - card.w),
                     Clamp(clientY - field.top - offsetY, 0.0, field.height - card.h), assetId, card)
    ensures r.1.Placed? ==> var c := r.1.card;
      && c.id == assetId
      && c.x == Clamp(clientX - field.left - offsetX, 0.0, field.width - card.w)
      && c.y == Clamp(clientY - field.top - offsetY, 0.0, field.height - card.h)
      && c.zone == ZoneFromPoint(c.y + card.h / 2.0, field.height)
      && !CheckCollision(st.placed, c.x, c.y, assetId, card)
      && (field.width >= card.w ==> 0.0 <= c.x <= field.width - card.w)
      && (field.height >= card.h ==> 0.0 <= c.y <= field.height - card.h)
      && (exists i :: 0 <= i < |assets| && assets[i].id == assetId
            && c.correct == IsExpectedZone(c.zone, GetExpectedZoneForAsset(assets[i], st.profile)))
    ensures r.1.Placed? ==> r.0.profile == st.profile && r.0.rules == st.rules
    ensures r.1.Placed? && UniqueIds(st.placed) ==> r.0.placed == Seqs.Filter(st.placed, OtherId(assetId)) + [r.1.card]
    ensures Valid(st) ==> Valid(r.0)
  {
    match Seqs.FindIndex(assets, (a: Asset) => a.id == assetId)
    case None => (st, UnknownAsset)
    case Some(ai) =>
      var asset := assets[ai];
      if clientX < field.left || clientX > field.left + field.width || clientY < field.top || clientY > field.top + field.height then
        (st, OutsideField)
      else
        var x := Clamp(clientX - field.left - offsetX, 0.0, field.width - card.w);
        var y := Clamp(clientY - field.top - offsetY, 0.0, field.height - card.h);
        var existing := Seqs.FindIndex(st.placed, HasId(asset.id));
        if existing.None? && |st.placed| >= MaxPlayers then
          (st, TeamFull)
        else if CheckCollision(st.placed, x, y, asset.id, card) then
          (st, NoRoom)
        else
          var zone := ZoneFromPoint(y + card.h / 2.0, field.height);
          var correct := IsExpectedZone(zone, GetExpectedZoneForAsset(asset, st.profile));
          var c := Placement(asset.id, x, y, zone, correct);
          var placed := MoveOrAdd(st.placed, c);
          (st.(placed := placed, score := ComputeScore(st.profile, placed, st.rules)), Placed(c))
  }

  /** The card list after a drop: the old entry of the card, if any, is spliced out and the new one pushed. */
  function MoveOrAdd(placed: seq<Placement>, c: Placement): (r: seq<Placement>)
    ensures UniqueIds(placed) ==> r == Seqs.Filter(placed, OtherId(c.id)) + [c]
    ensures UniqueIds(placed) ==> UniqueIds(r)
    ensures UniqueIds(placed) ==>
      |r| == if Seqs.FindIndex(placed, HasId(c.id)).Some? then |placed| else |placed| + 1
  {
    var existing := Seqs.FindIndex(placed, HasId(c.id));
    var kept := if existing.Some? then Seqs.RemoveAt(placed, existing.value) else placed;
    var r := kept + [c];
    assert UniqueIds(placed) ==> UniqueIds(r) && r == Seqs.Filter(placed, OtherId(c.id)) + [c] by {
      if UniqueIds(placed) {
        RemoveFoundIsFilter(placed, c.id);
        KeptHasNoId(placed, c.id);
        AppendFreshId(kept, c);
      }
    }
    r
  }

  /** After removing the entry found for `id`, no entry for `id` remains. */
  lemma KeptHasNoId(s: seq<Placement>, id: int)
    requires UniqueIds(s)
    ensures var k := Seqs.FindIndex(s, HasId(id));
      var kept := if k.Some? then Seqs.RemoveAt(s, k.value) else s;
      && |kept| == (if k.Some? then |s| - 1 else |s|)
      && UniqueIds(kept)
      && forall i :: 0 <= i < |kept| ==> kept[i].id != id
  {
    var k := Seqs.FindIndex(s, HasId(id));
    if k.Some? {
      var kept := Seqs.RemoveAt(s, k.value);
      forall i | 0 <= i < |kept|
        ensures kept[i].id != id
      {
        if i < k.value {
          assert kept[i] == s[i];
        } else {
          assert kept[i] == s[i + 1];
        }
      }
      forall i, j | 0 <= i < j < |kept|
        ensures kept[i].id != kept[j].id
      {
        var i' := if i < k.value then i else i + 1;
        var j' := if j < k.value then j else j + 1;
        assert kept[i] == s[i'] && kept[j] == s[j'];
      }
    }
  }

  lemma AppendFreshId(s: seq<Placement>, c: Placement)
    requires UniqueIds(s)
    requires forall i :: 0 <= i < |s| ==> s[i].id != c.id
    ensures UniqueIds(s + [c])
  {
    var t := s + [c];
    forall i, j | 0 <= i < j < |t|
      ensures t[i].id != t[j].id
    {
      assert t[i] == s[i];
      if j < |s| {
        assert t[j] == s[j];
      }
    }
  }

  /** The close button of a card on the field: the card leaves and the field is re-scored. */
  function RemoveCard(st: MatchState, id: int): (r: MatchState)
    ensures r.profile == st.profile && r.rules == st.rules
    ensures UniqueIds(st.placed) ==> r.placed == Seqs.Filter(st.placed, OtherId(id))
    ensures UniqueIds(st.placed) ==>
      && (forall i :: 0 <= i < |r.placed| ==> r.placed[i].id != id)
      && (forall i :: 0 <= i < |st.placed| && st.placed[i].id != id ==> st.placed[i] in r.placed)
    ensures Valid(st) ==> Valid(r)
  {
    var placed := WithoutCard(st.placed, id);
    Seqs.FilterContents(st.placed, OtherId(id));
    st.(placed := placed, score := ComputeScore(st.profile, placed, st.rules))
  }

  /** `placedCards.splice(findIndex(id), 1)` when the card is there. */
  function WithoutCard(placed: seq<Placement>, id: int): (r: seq<Placement>)
    ensures |r| <= |placed|
    ensures UniqueIds(placed) ==> r == Seqs.Filter(placed, OtherId(id)) && UniqueIds(r)
  {
    match Seqs.FindIndex(placed, HasId(id))
    case Some(k) =>
      assert UniqueIds(placed) ==> UniqueIds(Seqs.RemoveAt(placed, k)) && Seqs.RemoveAt(placed, k) == Seqs.Filter(placed, OtherId(id)) by {
        if UniqueIds(placed) {
          RemoveFoundIsFilter(placed, id);
          KeptHasNoId(placed, id);
        }
      }
      Seqs.RemoveAt(placed, k)
    case None =>
      assert UniqueIds(placed) ==> placed == Seqs.Filter(placed, OtherId(id)) by {
        if UniqueIds(placed) {
          RemoveFoundIsFilter(placed, id);
        }
      }
      placed
  }

  /** The timer as the help and cancel dialogs see it. */
  datatype Timer = Timer(paused: bool, byHelp: bool, byCancel: bool, remaining: int)

  /** A dialog flag is only set while the timer is paused. */
  predicate TimerConsistent(t: Timer) {
    (t.byHelp || t.byCancel) ==> t.paused
  }

  /** `openHelpModal()`: pauses a running time-limited match and remembers why. */
  function OpenHelp(t: Timer, inGame: bool, timeLimited: bool): (r: Timer)
    ensures TimerConsistent(t) ==> TimerConsistent(r)
    ensures inGame && timeLimited ==> r.paused && r.byHelp
    ensures !(inGame && timeLimited) ==> r == t
    ensures r.byCancel == t.byCancel && r.remaining == t.remaining
  {
    if inGame && timeLimited then t.(paused := true, byHelp := true) else t
  }

  /** `closeHelpModal()`: resumes only when the help dialog paused it and the cancel dialog is not open. */
  function CloseHelp(t: Timer): (r: Timer)
    ensures TimerConsistent(t) ==> TimerConsistent(r)
    ensures !r.byHelp && r.byCancel == t.byCancel && r.remaining == t.remaining
    ensures r.paused != t.paused ==> t.byHelp && !t.byCancel && !r.paused
  {
    if t.byHelp then
      var u := t.(byHelp := false);
      if !u.byCancel then u.(paused := false) else u
    else t
  }

  /** `openCancelMatchModal()` */
  function OpenCancel(t: Timer, inGame: bool, timeLimited: bool): (r: Timer)
    ensures TimerConsistent(t) ==> TimerConsistent(r)
    ensures inGame && timeLimited ==> r.paused && r.byCancel
    ensures !(inGame && timeLimited) ==> r == t
    ensures r.byHelp == t.byHelp && r.remaining == t.remaining
  {
    if inGame && timeLimited then t.(paused := true, byCancel := true) else t
  }

  /** `closeCancelMatchModal()` */
  function CloseCancel(t: Timer): (r: Timer)
    ensures TimerConsistent(t) ==> TimerConsistent(r)
    ensures !r.byCancel && r.byHelp == t.byHelp && r.remaining == t.remaining
    ensures r.paused != t.paused ==> t.byCancel && !t.byHelp && !r.paused
  {
    if t.byCancel then
      var u := t.(byCancel := false);
      if !u.byHelp then u.(paused := false) else u
    else t
  }

  /** One second of the match timer: nothing happens while paused; `expired` asks for `finalizeGame`. */
  function Tick(t: Timer): (r: (Timer, bool))
    ensures t.paused ==> r.0 == t && !r.1
    ensures !t.paused ==> r.0.remaining == t.remaining - 1 && (r.1 <==> r.0.remaining <= 0)
    ensures r.0.paused == t.paused && r.0.byHelp == t.byHelp && r.0.byCancel == t.byCancel
  {
    if t.paused then (t, false)
    else
      var u := t.(remaining := t.remaining - 1);
      (u, u.remaining <= 0)
  }

  /** Both dialogs open over a running match: closing the first keeps the clock stopped, closing the second restarts it. */
  lemma NestedDialogsKeepTimerPaused(t: Timer)
    requires !t.paused && !t.byHelp && !t.byCancel
    ensures var a := OpenCancel(OpenHelp(t, true, true), true, true);
      && CloseHelp(a).paused
      && Tick(CloseHelp(a)).0.remaining == t.remaining
      && !CloseCancel(CloseHelp(a)).paused
  {
  }

  /**
   * `finalizeGame()`: clears the dialog flags and scores the field with the
   * same formula as `recomputeScore`, so a valid state keeps its score.
   */
  function FinalizeGame(st: MatchState, t: Timer): (r: (MatchState, Timer))
    ensures !r.1.byHelp && !r.1.byCancel
    ensures r.0.placed == st.placed && r.0.profile == st.profile && r.0.rules == st.rules
    ensures 0 <= r.0.score && (st.rules.maxScore >= 0 ==> r.0.score <= st.rules.maxScore)
    ensures Valid(st) ==> r.0 == st
  {
    (st.(score := ComputeScore(st.profile, st.placed, st.rules)), t.(byHelp := false, byCancel := false))
  }

  /**
   * The scoring fields of the configuration, each as `Number(value)` gives
   * it: `None` when that is `NaN`.
   */
  datatype ScoringConfig = ScoringConfig(
    pointsPerCorrectCard: Option<int>,
    bonusIdealLineup: Option<int>,
    maxScore: Option<int>,
    pointsPerWrongCard: Option<int>)

  /** `Number(v) || def`: zero and `NaN` fall back to the default. */
  function OrDefault(v: Option<int>, def: int): (r: int)
    ensures v.Some? && v.value != 0 ==> r == v.value
    ensures v.None? || v == Some(0) ==> r == def
  {
    match v
    case Some(n) => if n != 0 then n else def
    case None => def
  }

  /** `applyScoringConfig(config)` */
  function ApplyScoringConfig(rules: ScoringRules, config: Option<ScoringConfig>): (r: ScoringRules)
    ensures config.None? ==> r == rules
    ensures config.Some? ==> RulesSane(r)
    ensures config.Some? ==> var c := config.value;
      && r.pointsPerCorrect == Max(0, OrDefault(c.pointsPerCorrectCard, DefaultRules.pointsPerCorrect))
      && r.bonusIdeal == Max(0, OrDefault(c.bonusIdealLineup, DefaultRules.bonusIdeal))
      && r.maxScore == Max(1, OrDefault(c.maxScore, DefaultRules.maxScore))
      && r.pointsPerWrong == Max(0, OrDefault(c.pointsPerWrongCard, DefaultRules.pointsPerWrong))
  {
    match config
    case None => rules
    case Some(c) =>
      ScoringRules(
        Max(0, OrDefault(c.pointsPerCorrectCard, 3)),
        Max(0, OrDefault(c.pointsPerWrongCard, 0)),
        Max(0, OrDefault(c.bonusIdealLineup, 20)),
        Max(1, OrDefault(c.maxScore, 38)))
  }

  /** A configuration that leaves a field zero gets the default, not zero, for it. */
  lemma ZeroFallsBackToDefault(rules: ScoringRules)
    ensures ApplyScoringConfig(rules, Some(ScoringConfig(Some(0), Some(0), Some(0), Some(0)))) == DefaultRules
  {
  }

  /** Sane values in the configuration are taken as they are. */
  lemma SaneConfigTakenAsIs(rules: ScoringRules, target: ScoringRules)
    requires RulesSane(target)
    requires target.pointsPerCorrect > 0 && target.bonusIdeal > 0 && target.pointsPerWrong > 0
    ensures ApplyScoringConfig(rules, Some(ScoringConfig(Some(target.pointsPerCorrect), Some(target.bonusIdeal),
                                                         Some(target.maxScore), Some(target.pointsPerWrong))))
      == target
  {
  }

  /** A key of the virtual keyboard on the name screen. */
  datatype NameKey = Backspace | SpaceKey | OkKey | CharKey(c: char)

  /** `onlySpaces(str)` */
  predicate OnlySpaces(s: string) {
    Trim(s) == []
  }

  /**
   * `applyNameKey(key)` with the `updateNameUI` that follows each edit:
   * returns the new contents of the name field and, on OK, the name the
   * game starts with (or `None` when the name is blank).
   */
  function ApplyNameKey(buffer: string, key: NameKey): (r: (string, Option<string>))
    ensures key != OkKey && NameShaped(buffer) ==> NameShaped(r.0)
    ensures key == OkKey ==> r.0 == buffer
    ensures r.1.Some? <==> key == OkKey && !OnlySpaces(NormalizeName(buffer))
    ensures r.1.Some? ==> r.1.value == NormalizeName(buffer) && r.1.value != [] && NameShaped(r.1.value)
    ensures key == Backspace && NameShaped(buffer) ==> r.0 == Seqs.Take(buffer, if |buffer| == 0 then 0 else |buffer| - 1)
    ensures key == SpaceKey && (buffer == [] || buffer[|buffer| - 1] == ' ') ==> r.0 == buffer
    ensures key == SpaceKey && NameShaped(buffer) && buffer != [] && buffer[|buffer| - 1] != ' ' ==>
      r.0 == if |buffer| < NameMaxLength then buffer + " " else buffer
    ensures key.CharKey? && |buffer| >= NameMaxLength ==> r.0 == buffer
    ensures key.CharKey? && NameShaped(buffer) && |buffer| < NameMaxLength && !IsSpace(key.c) ==>
      r.0 == buffer + [UpperChar(key.c)]
  {
    match key
    case Backspace =>
      var v := if |buffer| == 0 then buffer else buffer[..|buffer| - 1];
      assert NameShaped(buffer) ==> NormalizeNameLive(v) == v by {
        if NameShaped(buffer) {
          assert NameShaped(v);
          NormalizeNameLiveFixesShaped(v);
        }
      }
      (NormalizeNameLive(v), None)
    case SpaceKey =>
      if buffer == [] || buffer[|buffer| - 1] == ' ' then (buffer, None)
      else
        var v := buffer + " ";
        assert NameShaped(buffer) ==>
          NormalizeNameLive(v) == if |buffer| < NameMaxLength then buffer + [UpperChar(' ')] else buffer by {
          if NameShaped(buffer) {
            LiveAfterAppend(buffer, ' ');
          }
        }
        (NormalizeNameLive(v), None)
    case OkKey =>
      var name := NormalizeName(buffer);
      if OnlySpaces(name) then (buffer, None)
      else
        assert name != [];
        (buffer, Some(name))
    case CharKey(c) =>
      if |buffer| >= NameMaxLength then (buffer, None)
      else
        assert NameShaped(buffer) && !IsSpace(c) ==> NormalizeNameLive(buffer + [c]) == buffer + [UpperChar(c)] by {
          if NameShaped(buffer) && !IsSpace(c) {
            LiveAfterAppend(buffer, c);
          }
        }
        (NormalizeNameLive(buffer + [c]), None)
  }

  /** Typing one character after a name in normal form only upper-cases it, or drops a space at the limit. */
  lemma LiveAfterAppend(buffer: string, c: char)
    requires NameShaped(buffer)
    requires c == ' ' ==> buffer != [] && buffer[|buffer| - 1] != ' '
    requires c != ' ' ==> !IsSpace(c) && |buffer| < NameMaxLength
    ensures NormalizeNameLive(buffer + [c]) == if |buffer| < NameMaxLength then buffer + [UpperChar(c)] else buffer
  {
    var v := buffer + [c];
    assert SingleSpaced(v) by {
      assert forall i :: 0 <= i < |buffer| ==> v[i] == buffer[i];
    }
    assert v == [] || v[0] != ' ';
    ToUpperNoLowerIsIdentity(buffer);
    ToUpperAppend(buffer, [c]);
    if |buffer| < NameMaxLength {
      NormalizeNameLiveOfSpaced(v);
    } else {
      assert c == ' ';
      CollapseOfSingleSpaced(v);
      TrimStartOfNonSpace(v);
      assert Seqs.Take(TrimStart(Collapse(v)), NameMaxLength) == buffer;
    }
  }
}
