/**
 * The older ruleset of the game (main.js at the repository root). Each
 * profile forbids some zones to safe or risky assets. A drop is checked for
 * capacity, room and zone. A finished lineup is scored by how close its
 * average suitability lands to the profile's target range.
 */
module Legacy {
  import opened Wrappers
  import Utils
  import Seqs
  import Match

  /** `MAX_PLAYERS`, `FIELD_CARD_W` and `FIELD_CARD_H` of this ruleset. */
  const MaxPlayers: nat := 6
  const CardWidth: real := 90.0
  const CardHeight: real := 126.0
  const CardSize: Match.CardSize := Match.CardSize(CardWidth, CardHeight)

  /** The `min`/`max` of a profile in `PROFILES`. */
  datatype Range = Range(min: int, max: int)

  function TargetRange(p: Utils.Profile): Range {
    match p
    case Conservador => Range(15, 35)
    case Moderado => Range(36, 60)
    case Arrojado => Range(61, 100)
  }

  /** How `isZoneAllowed` classes an asset: safe up to 40, risky above 70. */
  datatype RiskClass = Safe | Middle | Risky

  function ClassOf(suit: int): RiskClass {
    if suit <= 40 then Safe else if suit <= 70 then Middle else Risky
  }

  /** The combinations of profile, zone and class the rules refuse. */
  const Forbidden: set<(Utils.Profile, Utils.Zone, RiskClass)> := {
    (Utils.Conservador, Utils.Defense, Risky), (Utils.Conservador, Utils.Midfield, Risky),
    (Utils.Moderado, Utils.Defense, Risky), (Utils.Moderado, Utils.Attack, Safe),
    (Utils.Arrojado, Utils.Attack, Safe), (Utils.Arrojado, Utils.Midfield, Safe)
  }

  /**
   * `isZoneAllowed(assetSuit, zone, profileKey)`: `None` where the source
   * returns `true`, otherwise the message it returns.
   */
  function ZoneRefusal(suit: int, zone: Utils.Zone, p: Utils.Profile): (r: Option<string>)
    ensures r.Some? <==> (p, zone, ClassOf(suit)) in Forbidden
    ensures r.Some? ==> r.value != []
  {
    var isSafe := suit <= 40;
    var isRisky := suit > 70;
    match p
    case Conservador =>
      if zone == Utils.Defense && isRisky then Some("Muito arriscado para a Defesa!")
      else if zone == Utils.Midfield && isRisky then Some("Alto risco deve ficar isolado no Ataque!")
      else None
    case Moderado =>
      if zone == Utils.Defense && isRisky then Some("Defesa não suporta Alta Volatilidade!")
      else if zone == Utils.Attack && isSafe then Some("Conservador demais para o Ataque!")
      else None
    case Arrojado =>
      if zone == Utils.Attack && isSafe then Some("Desperdício de Ataque!")
      else if zone == Utils.Midfield && isSafe then Some("Falta pimenta no Meio de Campo!")
      else None
  }

  /** `getAllowedZones(assetSuit, profileKey)`: one flag per zone. */
  datatype AllowedZones = AllowedZones(def: bool, mid: bool, atk: bool)

  function GetAllowedZones(suit: int, p: Utils.Profile): (a: AllowedZones)
    ensures a.def <==> (p, Utils.Defense, ClassOf(suit)) !in Forbidden
    ensures a.mid <==> (p, Utils.Midfield, ClassOf(suit)) !in Forbidden
    ensures a.atk <==> (p, Utils.Attack, ClassOf(suit)) !in Forbidden
  {
    AllowedZones(ZoneRefusal(suit, Utils.Defense, p).None?,
                 ZoneRefusal(suit, Utils.Midfield, p).None?,
                 ZoneRefusal(suit, Utils.Attack, p).None?)
  }

  /**
   * The table never shuts an asset out: each profile has a zone open to
   * every suitability (attack for the conservative profile, midfield for the
   * moderate one, defense for the bold one).
   */
  lemma SomeZoneAlwaysAllowed(suit: int, p: Utils.Profile)
    ensures var a := GetAllowedZones(suit, p);
      && (a.def || a.mid || a.atk)
      && (p == Utils.Conservador ==> a.atk)
      && (p == Utils.Moderado ==> a.mid)
      && (p == Utils.Arrojado ==> a.def)
  {
  }

  /** An entry of `assetsData`, reduced to what the rules read. */
  datatype Asset = Asset(id: int, suitability: int)

  /** An entry of `placedCards`. */
  datatype Card = Card(id: int, asset: Asset, x: real, y: real)

  /** The profile `initGame` drew and the cards on the field. */
  datatype Game = Game(profile: Utils.Profile, placed: seq<Card>)

  predicate UniqueIds(placed: seq<Card>) {
    forall i, j :: 0 <= i < j < |placed| ==> placed[i].id != placed[j].id
  }

  /** At most six cards, one per asset, each filed under its asset's id. */
  predicate Valid(g: Game) {
    && |g.placed| <= MaxPlayers
    && UniqueIds(g.placed)
    && forall i :: 0 <= i < |g.placed| ==> g.placed[i].id == g.placed[i].asset.id
  }

  /** `initGame`: an empty field under the drawn profile. */
  function NewGame(p: Utils.Profile): (g: Game)
    ensures Valid(g) && g.placed == [] && g.profile == p
  {
    Game(p, [])
  }

  function HasCardId(id: int): Card -> bool {
    (c: Card) => c.id == id
  }

  function OtherCardId(id: int): Card -> bool {
    (c: Card) => c.id != id
  }

  /** The hit test of `checkCollision` against one card, skipping `ignoreId`. */
  function Hits(x: real, y: real, ignoreId: int): Card -> bool {
    (c: Card) =>
      && c.id != ignoreId
      && x < c.x + CardWidth - Match.CollisionMargin
      && x + CardWidth - Match.CollisionMargin > c.x
      && y < c.y + CardHeight - Match.CollisionMargin
      && y + CardHeight - Match.CollisionMargin > c.y
  }

  /** `checkCollision(newX, newY, ignoreId)`: some other card overlaps the position by more than the margin. */
  function CheckCollision(placed: seq<Card>, x: real, y: real, ignoreId: int): (hit: bool)
    ensures hit <==> exists i :: 0 <= i < |placed| && placed[i].id != ignoreId
                                 && Match.Overlap(x, y, placed[i].x, placed[i].y, CardSize)
  {
    var k := Seqs.FindIndex(placed, Hits(x, y, ignoreId));
    assert forall i :: 0 <= i < |placed| ==>
      (Hits(x, y, ignoreId)(placed[i]) <==>
       placed[i].id != ignoreId && Match.Overlap(x, y, placed[i].x, placed[i].y, CardSize));
    k.Some?
  }

  /** The top-left corner of a dropped card: the drop point less the offset, kept inside the field. */
  function DropPosition(clientX: real, clientY: real, offsetX: real, offsetY: real, field: Match.Rect): (p: (real, real))
    ensures field.width >= CardWidth ==> 0.0 <= p.0 <= field.width - CardWidth
    ensures field.height >= CardHeight ==> 0.0 <= p.1 <= field.height - CardHeight
    ensures var x := clientX - field.left - offsetX;
      && (0.0 <= x <= field.width - CardWidth ==> p.0 == x)
      && (x < 0.0 || field.width < CardWidth ==> p.0 == 0.0)
      && (0.0 <= field.width - CardWidth < x ==> p.0 == field.width - CardWidth)
    ensures var y := clientY - field.top - offsetY;
      && (0.0 <= y <= field.height - CardHeight ==> p.1 == y)
      && (y < 0.0 || field.height < CardHeight ==> p.1 == 0.0)
      && (0.0 <= field.height - CardHeight < y ==> p.1 == field.height - CardHeight)
  {
    (Utils.Clamp(clientX - field.left - offsetX, 0.0, field.width - CardWidth),
     Utils.Clamp(clientY - field.top - offsetY, 0.0, field.height - CardHeight))
  }

  /** Dropping a card again at its own corner, with no grab offset, leaves it where it is. */
  lemma DropPositionStable(clientX: real, clientY: real, offsetX: real, offsetY: real, field: Match.Rect)
    ensures var p := DropPosition(clientX, clientY, offsetX, offsetY, field);
      DropPosition(field.left + p.0, field.top + p.1, 0.0, 0.0, field) == p
  {
  }

  /** The band of a card whose top edge is at `y`, judged by its centre. */
  function DropZone(y: real, field: Match.Rect): Utils.Zone {
    Utils.ZoneFromPoint(y + CardHeight / 2.0, field.height)
  }

  /** Why a drop was refused, or the card it placed. */
  datatype DropOutcome = UnknownAsset | OutsideField | TeamFull | NoRoom | WrongZone(message: string) | Placed(card: Card)

  /**
   * `processDrop(assetId, clientX, clientY, offsetX, offsetY)` followed by
   * `placeCardOnField`. A refused drop changes nothing. An accepted one
   * moves or adds the card and keeps every other card.
   */
  function ProcessDrop(g: Game, assets: seq<Asset>, assetId: int, clientX: real, clientY: real,
                       offsetX: real, offsetY: real, field: Match.Rect): (r: (Game, DropOutcome))
    ensures !r.1.Placed? ==> r.0 == g
    ensures r.1 == UnknownAsset <==> forall i :: 0 <= i < |assets| ==> assets[i].id != assetId
    ensures r.1 == OutsideField ==>
      clientX < field.left || clientX > field.left + field.width || clientY < field.top || clientY > field.top + field.height
    ensures r.1 != UnknownAsset && r.1 != OutsideField ==>
      field.left <= clientX <= field.left + field.width && field.top <= clientY <= field.top + field.height
    ensures r.1 == TeamFull ==>
      |g.placed| >= MaxPlayers && forall i :: 0 <= i < |g.placed| ==> g.placed[i].id != assetId
    ensures r.1 == NoRoom ==>
      var pos := DropPosition(clientX, clientY, offsetX, offsetY, field);
      CheckCollision(g.placed, pos.0, pos.1, assetId)
    ensures r.1.WrongZone? ==>
      var pos := DropPosition(clientX, clientY, offsetX, offsetY, field);
      exists i :: 0 <= i < |assets| && assets[i].id == assetId
        && (g.profile, DropZone(pos.1, field), ClassOf(assets[i].suitability)) in Forbidden
    ensures r.1.Placed? ==> var c := r.1.card;
      && c.id == assetId && c.asset in assets && c.asset.id == assetId
      && (c.x, c.y) == DropPosition(clientX, clientY, offsetX, offsetY, field)
      && !CheckCollision(g.placed, c.x, c.y, assetId)
      && (g.profile, DropZone(c.y, field), ClassOf(c.asset.suitability)) !in Forbidden
      && r.0.profile == g.profile
      && r.0.placed == Place(g.placed, c)
    ensures Valid(g) ==> Valid(r.0)
  {
    match Seqs.FindIndex(assets, (a: Asset) => a.id == assetId)
    case None => (g, UnknownAsset)
    case Some(ai) =>
      var asset := assets[ai];
      if clientX < field.left || clientX > field.left + field.width || clientY < field.top || clientY > field.top + field.height then
        (g, OutsideField)
      else
        var pos := DropPosition(clientX, clientY, offsetX, offsetY, field);
        var existing := Seqs.FindIndex(g.placed, HasCardId(asset.id));
        if existing.None? && |g.placed| >= MaxPlayers then
          (g, TeamFull)
        else if CheckCollision(g.placed, pos.0, pos.1, asset.id) then
          (g, NoRoom)
        else
          match ZoneRefusal(asset.suitability, DropZone(pos.1, field), g.profile)
          case Some(message) => (g, WrongZone(message))
          case None =>
            var c := Card(asset.id, asset, pos.0, pos.1);
            PlaceKeepsValid(g, c);
            (g.(placed := Place(g.placed, c)), Placed(c))
  }

  /** A card filed under its own asset, moved or added while there is room, keeps the game valid. */
  lemma PlaceKeepsValid(g: Game, c: Card)
    requires c.id == c.asset.id
    requires Seqs.FindIndex(g.placed, HasCardId(c.id)).Some? || |g.placed| < MaxPlayers
    ensures Valid(g) ==> Valid(g.(placed := Place(g.placed, c)))
  {
    var placed := Place(g.placed, c);
    if Valid(g) {
      assert forall i :: 0 <= i < |placed| - 1 ==> placed[i] in g.placed;
      forall i | 0 <= i < |placed|
        ensures placed[i].id == placed[i].asset.id
      {
        if i < |placed| - 1 {
          var j :| 0 <= j < |g.placed| && g.placed[j] == placed[i];
        }
      }
    }
  }

  /**
   * `placedCards.splice(existingIndex, 1)` when the card is on the field,
   * then `placedCards.push(card)`.
   */
  function Place(placed: seq<Card>, c: Card): (r: seq<Card>)
    ensures |r| > 0 && r[|r| - 1] == c
    ensures |r| == if exists i :: 0 <= i < |placed| && placed[i].id == c.id then |placed| else |placed| + 1
    ensures forall i :: 0 <= i < |placed| && placed[i].id != c.id ==> placed[i] in r
    ensures forall i :: 0 <= i < |r| - 1 ==> r[i] in placed
    ensures UniqueIds(placed) ==> UniqueIds(r) && forall i :: 0 <= i < |r| - 1 ==> r[i].id != c.id
  {
    var k := Seqs.FindIndex(placed, HasCardId(c.id));
    var kept := if k.Some? then Seqs.RemoveAt(placed, k.value) else placed;
    KeptCards(placed, c.id, kept);
    AppendCard(kept, c);
    kept + [c]
  }

  /** What removing the first card with `id` keeps. */
  lemma KeptCards(placed: seq<Card>, id: int, kept: seq<Card>)
    requires var k := Seqs.FindIndex(placed, HasCardId(id));
      kept == if k.Some? then Seqs.RemoveAt(placed, k.value) else placed
    ensures |kept| == if exists i :: 0 <= i < |placed| && placed[i].id == id then |placed| - 1 else |placed|
    ensures forall i :: 0 <= i < |placed| && placed[i].id != id ==> placed[i] in kept
    ensures forall i :: 0 <= i < |kept| ==> kept[i] in placed
    ensures UniqueIds(placed) ==> UniqueIds(kept) && forall i :: 0 <= i < |kept| ==> kept[i].id != id
  {
    var k := Seqs.FindIndex(placed, HasCardId(id));
    if k.Some? {
      var m := k.value;
      assert placed[m].id == id;
      Seqs.RemoveAtContents(placed, m);
      if UniqueIds(placed) {
        RemovedCardWasOnlyOne(placed, id, m, kept);
      }
    } else {
      assert forall i :: 0 <= i < |placed| ==> !HasCardId(id)(placed[i]);
    }
  }

  lemma RemovedCardWasOnlyOne(placed: seq<Card>, id: int, m: nat, kept: seq<Card>)
    requires UniqueIds(placed) && m < |placed| && placed[m].id == id && kept == Seqs.RemoveAt(placed, m)
    ensures UniqueIds(kept) && forall i :: 0 <= i < |kept| ==> kept[i].id != id
  {
    forall i | 0 <= i < |kept|
      ensures kept[i].id != id
    {
      if i < m {
        assert kept[i] == placed[i];
      } else {
        assert kept[i] == placed[i + 1];
      }
    }
    forall i, j | 0 <= i < j < |kept|
      ensures kept[i].id != kept[j].id
    {
      var i' := if i < m then i else i + 1;
      var j' := if j < m then j else j + 1;
      assert kept[i] == placed[i'] && kept[j] == placed[j'];
    }
  }

  /** Pushing a card whose id is not on the field keeps ids distinct. */
  lemma AppendCard(kept: seq<Card>, c: Card)
    ensures forall i :: 0 <= i < |kept| ==> (kept + [c])[i] == kept[i]
    ensures UniqueIds(kept) && (forall i :: 0 <= i < |kept| ==> kept[i].id != c.id) ==> UniqueIds(kept + [c])
  {
    var r := kept + [c];
    if UniqueIds(kept) && (forall i :: 0 <= i < |kept| ==> kept[i].id != c.id) {
      forall i, j | 0 <= i < j < |r|
        ensures r[i].id != r[j].id
      {
        assert r[i] == kept[i];
        if j < |kept| {
          assert r[j] == kept[j];
        }
      }
    }
  }

  /** The close button of a card on the field: `placedCards.filter(c => c.id !== asset.id)`. */
  function RemoveCard(g: Game, id: int): (r: Game)
    ensures r.profile == g.profile
    ensures forall i :: 0 <= i < |r.placed| ==> r.placed[i].id != id && r.placed[i] in g.placed
    ensures forall i :: 0 <= i < |g.placed| && g.placed[i].id != id ==> g.placed[i] in r.placed
    ensures Valid(g) ==> Valid(r)
  {
    var placed := Seqs.Filter(g.placed, OtherCardId(id));
    FilteredCards(g.placed, id, placed);
    assert Valid(g) ==> Valid(g.(placed := placed)) by {
      if Valid(g) {
        FilterKeepsUniqueIds(g.placed, OtherCardId(id));
      }
    }
    g.(placed := placed)
  }

  lemma FilteredCards(placed: seq<Card>, id: int, kept: seq<Card>)
    requires kept == Seqs.Filter(placed, OtherCardId(id))
    ensures |kept| <= |placed|
    ensures forall i :: 0 <= i < |kept| ==> kept[i].id != id && kept[i] in placed
    ensures forall i :: 0 <= i < |placed| && placed[i].id != id ==> placed[i] in kept
  {
    Seqs.FilterContents(placed, OtherCardId(id));
    forall i | 0 <= i < |kept|
      ensures kept[i].id != id && kept[i] in placed
    {
      assert OtherCardId(id)(kept[i]);
      assert kept[i] in multiset(placed);
    }
  }

  /** Filtering keeps distinct ids distinct. */
  lemma {:induction false} FilterKeepsUniqueIds(placed: seq<Card>, keep: Card -> bool)
    requires UniqueIds(placed)
    ensures UniqueIds(Seqs.Filter(placed, keep))
    decreases |placed|
  {
    if |placed| > 0 {
      var rest := Seqs.Filter(placed[1..], keep);
      FilterKeepsUniqueIds(placed[1..], keep);
      if keep(placed[0]) {
        Seqs.FilterContents(placed[1..], keep);
        forall i | 0 <= i < |rest|
          ensures rest[i].id != placed[0].id
        {
          assert rest[i] in multiset(placed[1..]);
          var j :| 0 <= j < |placed[1..]| && placed[1..][j] == rest[i];
          assert placed[j + 1] == rest[i];
        }
        var r := [placed[0]] + rest;
        forall i, j | 0 <= i < j < |r|
          ensures r[i].id != r[j].id
        {
          assert r[j] == rest[j - 1];
          if i > 0 {
            assert r[i] == rest[i - 1];
          }
        }
      }
    }
  }

  /** `Math.round(total / n)` for `n > 0`: the nearest integer, halves rounded up. */
  function RoundDiv(total: int, n: int): (avg: int)
    requires n > 0
    ensures -n < 2 * (n * avg - total) <= n
  {
    var q := (2 * total + n) / (2 * n);
    var m := (2 * total + n) % (2 * n);
    assert 2 * total + n == 2 * n * q + m;
    assert 2 * (n * q - total) == n - m;
    q
  }

  /** Only one integer is that close to `total / n`, so the rounding is determined by the bound. */
  lemma RoundDivUnique(total: int, n: int, avg: int)
    requires n > 0 && -n < 2 * (n * avg - total) <= n
    ensures avg == RoundDiv(total, n)
  {
    var q := RoundDiv(total, n);
    var d := avg - q;
    assert n * avg == n * q + n * d;
    assert -n < n * d < n;
    if d >= 1 {
      AtLeastOnce(n, d);
    } else if d <= -1 {
      AtLeastOnce(n, -d);
    }
  }

  lemma AtLeastOnce(n: int, d: int)
    requires n > 0 && d >= 1
    ensures n * d >= n
  {
    assert n * d == n + n * (d - 1);
  }

  /** How far an average lies outside a range; 0 inside it. */
  function Distance(avg: int, t: Range): nat {
    if avg < t.min then t.min - avg else if avg > t.max then avg - t.max else 0
  }

  /** What `finalizeGame` shows: the points, the rounded average and whether it hit the target. */
  datatype Verdict = Verdict(points: int, average: int, inRange: bool)

  function SuitabilityOf(): Card -> int {
    (c: Card) => c.asset.suitability
  }

  /**
   * `finalizeGame()`: nothing with an empty field; otherwise 50 points plus
   * 10 a card when the rounded average suitability is inside the profile's
   * range, and 50 less the distance to the range, not below 0, when it is not.
   */
  function FinalizeGame(g: Game): (r: Option<Verdict>)
    ensures r.None? <==> g.placed == []
    ensures r.Some? ==> var v := r.value; var n := |g.placed|; var t := TargetRange(g.profile);
      && -n < 2 * (n * v.average - Seqs.SumOf(g.placed, SuitabilityOf())) <= n
      && (v.inRange <==> Distance(v.average, t) == 0)
      && (v.inRange ==> v.points == 50 + 10 * n)
      && (!v.inRange ==> v.points == Utils.Max(0, 50 - Distance(v.average, t)))
      && (v.inRange <==> v.points > 50)
      && 0 <= v.points
  {
    if |g.placed| == 0 then None
    else
      var n := |g.placed|;
      var avg := RoundDiv(Seqs.SumOf(g.placed, SuitabilityOf()), n);
      var t := TargetRange(g.profile);
      var inRange := avg >= t.min && avg <= t.max;
      var points := if inRange then 50 + n * 10
        else
          var dist := if avg < t.min then t.min - avg else avg - t.max;
          Utils.Max(0, 50 - dist);
      Some(Verdict(points, avg, inRange))
  }

  /** Points out of range only fall as the average moves away from the target. */
  lemma CloserAverageScoresMore(g1: Game, g2: Game)
    requires g1.profile == g2.profile && g1.placed != [] && g2.placed != []
    requires var v1 := FinalizeGame(g1).value; var v2 := FinalizeGame(g2).value;
      !v1.inRange && !v2.inRange && Distance(v1.average, TargetRange(g1.profile)) <= Distance(v2.average, TargetRange(g2.profile))
    ensures FinalizeGame(g1).value.points >= FinalizeGame(g2).value.points
  {
  }

  /** A lineup on target always beats one off target, whatever their sizes. */
  lemma OnTargetBeatsOffTarget(g1: Game, g2: Game)
    requires g1.placed != [] && g2.placed != []
    requires FinalizeGame(g1).value.inRange && !FinalizeGame(g2).value.inRange
    ensures FinalizeGame(g1).value.points > FinalizeGame(g2).value.points
  {
  }
}
