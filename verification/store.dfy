/**
 * The browser-side store (src/store.js): the configuration, the prizes the
 * game hands out, the record of games played with the daily ranking, and
 * the manually kept stock of giveaways. Each storage key is a value of the
 * state record and every exported function is a transition on it.
 */
module Store {
  import opened Wrappers
  import opened Text
  import opened Utils
  import Seqs
  import Match

  // ---------------------------------------------------------------------
  // Values read from request bodies

  /** `toInt(n, def)` once `Number.parseInt(n, 10)` has run: `None` stands for `NaN`. */
  function ToInt(n: Option<int>, def: int): int {
    n.GetOr(def)
  }

  /** `toInt(body.k, def)`: an absent or `null` field parses as `NaN`. */
  function FieldInt(f: Field<Option<int>>, def: int): (v: int)
    ensures f.Given? && f.value.Some? ==> v == f.value.value
    ensures (forall n :: f != Given(Some(n))) ==> v == def
  {
    match f
    case Given(n) => ToInt(n, def)
    case _ => def
  }

  /** `String(body.k ?? "")` */
  function FieldText(f: Field<string>): string {
    match f
    case Given(s) => s
    case _ => []
  }

  // ---------------------------------------------------------------------
  // Configuration

  datatype Config = Config(
    timeLimitActive: bool,
    timeLimitSeconds: int,
    stockWithGame: bool,
    pointsPerCorrectCard: int,
    bonusIdealLineup: int,
    maxScore: int,
    pointsPerWrongCard: int)

  /** `DEFAULT_CONFIG` */
  const DefaultConfig: Config := Config(false, 60, true, 3, 20, 38, 0)

  /** No negative points and a positive cap: what `saveConfig` keeps. */
  predicate ConfigSane(c: Config) {
    c.pointsPerCorrectCard >= 0 && c.bonusIdealLineup >= 0 && c.maxScore >= 1 && c.pointsPerWrongCard >= 0
  }

  /** `getConfig()`: the stored configuration, or the defaults when none is stored. */
  function GetConfig(stored: Option<Config>): Config {
    stored.GetOr(DefaultConfig)
  }

  /**
   * The body of a configuration save. A flag holds the truthiness of the
   * value sent (`!!value`); a number holds what `parseInt` makes of it.
   */
  datatype ConfigPatch = ConfigPatch(
    timeLimitActive: Field<bool>,
    timeLimitSeconds: Field<Option<int>>,
    stockWithGame: Field<bool>,
    pointsPerCorrectCard: Field<Option<int>>,
    bonusIdealLineup: Field<Option<int>>,
    maxScore: Field<Option<int>>,
    pointsPerWrongCard: Field<Option<int>>)

  /** `data.k !== undefined ? !!data.k : current` */
  function PatchFlag(f: Field<bool>, current: bool): (v: bool)
    ensures f.Missing? ==> v == current
    ensures f.IsDefined() ==> (v <==> f == Given(true))
  {
    match f
    case Missing => current
    case Null => false
    case Given(b) => b
  }

  /** `data.k !== undefined ? toInt(data.k, def) : current` */
  function PatchInt(f: Field<Option<int>>, current: int, def: int): (v: int)
    ensures f.Missing? ==> v == current
    ensures f.IsDefined() ==> v == FieldInt(f, def)
  {
    if f.Missing? then current else FieldInt(f, def)
  }

  /** `data.k !== undefined ? Math.max(least, toInt(data.k, def)) : current` */
  function PatchCount(f: Field<Option<int>>, current: int, def: int, least: int): (v: int)
    ensures f.Missing? ==> v == current
    ensures f.IsDefined() ==> v >= least
    ensures forall n :: f == Given(Some(n)) ==> v == Max(least, n)
    ensures f.IsDefined() && (forall n :: f != Given(Some(n))) ==> v == Max(least, def)
  {
    if f.Missing? then current else Max(least, FieldInt(f, def))
  }

  /** `saveConfig(data)`: the configuration written back and returned. */
  function SaveConfig(current: Config, data: ConfigPatch): (r: Config)
    ensures data.timeLimitActive.Missing? ==> r.timeLimitActive == current.timeLimitActive
    ensures data.timeLimitSeconds.Missing? ==> r.timeLimitSeconds == current.timeLimitSeconds
    ensures data.stockWithGame.Missing? ==> r.stockWithGame == current.stockWithGame
    ensures data.pointsPerCorrectCard.Missing? ==> r.pointsPerCorrectCard == current.pointsPerCorrectCard
    ensures data.bonusIdealLineup.Missing? ==> r.bonusIdealLineup == current.bonusIdealLineup
    ensures data.maxScore.Missing? ==> r.maxScore == current.maxScore
    ensures data.pointsPerWrongCard.Missing? ==> r.pointsPerWrongCard == current.pointsPerWrongCard
    ensures data.pointsPerCorrectCard.IsDefined() ==> r.pointsPerCorrectCard >= 0
    ensures data.bonusIdealLineup.IsDefined() ==> r.bonusIdealLineup >= 0
    ensures data.maxScore.IsDefined() ==> r.maxScore >= 1
    ensures data.pointsPerWrongCard.IsDefined() ==> r.pointsPerWrongCard >= 0
    ensures ConfigSane(current) ==> ConfigSane(r)
  {
    Config(
      PatchFlag(data.timeLimitActive, current.timeLimitActive),
      PatchInt(data.timeLimitSeconds, current.timeLimitSeconds, 60),
      PatchFlag(data.stockWithGame, current.stockWithGame),
      PatchCount(data.pointsPerCorrectCard, current.pointsPerCorrectCard, 3, 0),
      PatchCount(data.bonusIdealLineup, current.bonusIdealLineup, 20, 0),
      PatchCount(data.maxScore, current.maxScore, 38, 1),
      PatchCount(data.pointsPerWrongCard, current.pointsPerWrongCard, 0, 0))
  }

  /** The body that sends every field of `c` as it is. */
  function PatchOf(c: Config): ConfigPatch {
    ConfigPatch(
      Given(c.timeLimitActive), Given(Some(c.timeLimitSeconds)), Given(c.stockWithGame),
      Given(Some(c.pointsPerCorrectCard)), Given(Some(c.bonusIdealLineup)),
      Given(Some(c.maxScore)), Given(Some(c.pointsPerWrongCard)))
  }

  /** Sending back a sane configuration as it is stores it unchanged, whatever was stored before. */
  lemma SaveConfigRoundTrip(current: Config, c: Config)
    requires ConfigSane(c)
    ensures SaveConfig(current, PatchOf(c)) == c
  {
  }

  /** Saving the same body twice stores what saving it once does. */
  lemma SaveConfigIdempotent(current: Config, data: ConfigPatch)
    ensures SaveConfig(SaveConfig(current, data), data) == SaveConfig(current, data)
  {
  }

  /** The scoring fields of a stored configuration as the game reads them with `Number(...)`. */
  function ScoringOf(c: Config): Match.ScoringConfig {
    Match.ScoringConfig(Some(c.pointsPerCorrectCard), Some(c.bonusIdealLineup), Some(c.maxScore), Some(c.pointsPerWrongCard))
  }

  /**
   * A configuration may store zero points per right card, but the game
   * reads that zero through `|| 3` and scores three points per right card.
   */
  lemma SavedZeroPointsScoreDefault(current: Config, data: ConfigPatch, rules: Match.ScoringRules)
    requires data.pointsPerCorrectCard == Given(Some(0))
    ensures SaveConfig(current, data).pointsPerCorrectCard == 0
    ensures Match.ApplyScoringConfig(rules, Some(ScoringOf(SaveConfig(current, data)))).pointsPerCorrect == 3
  {
  }

  // ---------------------------------------------------------------------
  // Prizes

  /** A prize of the game's stock, with the fields `toInt` reads as integers. */
  datatype Prize = Prize(id: string, name: string, stock: int, threshold: int)

  /** The prize can be handed out for `points`: it is in stock and within reach. */
  function Eligible(points: int): Prize -> bool {
    (p: Prize) => p.stock > 0 && points >= p.threshold
  }

  function ByThreshold(): Prize -> int {
    (p: Prize) => p.threshold
  }

  function HasPrizeId(id: string): Prize -> bool {
    (p: Prize) => p.id == id
  }

  function OtherPrizeId(id: string): Prize -> bool {
    (p: Prize) => p.id != id
  }

  predicate PrizeIdsUnique(prizes: seq<Prize>) {
    forall i, j :: 0 <= i < j < |prizes| ==> prizes[i].id != prizes[j].id
  }

  /**
   * `pickAward(prizes, points)`: the head of the eligible prizes sorted by
   * threshold, highest first.
   */
  function PickAward(prizes: seq<Prize>, points: int): (r: Option<Prize>)
    ensures r.None? <==> forall i :: 0 <= i < |prizes| ==> !Eligible(points)(prizes[i])
    ensures r.Some? ==> r.value in prizes && r.value.stock > 0 && r.value.threshold <= points
    ensures r.Some? ==> forall i :: 0 <= i < |prizes| && Eligible(points)(prizes[i]) ==>
      prizes[i].threshold <= r.value.threshold
  {
    var candidates := Seqs.SortDesc(Seqs.Filter(prizes, Eligible(points)), ByThreshold());
    Seqs.SortedFilterHead(prizes, Eligible(points), ByThreshold());
    if |candidates| == 0 then None else Some(candidates[0])
  }

  /**
   * Among eligible prizes of equal threshold the one listed first wins: the
   * pick is the first eligible prize whose threshold no eligible prize beats.
   */
  lemma PickAwardIsFirstBest(prizes: seq<Prize>, points: int)
    ensures var k := Seqs.FirstBest(prizes, Eligible(points), ByThreshold());
      PickAward(prizes, points) == if k.None? then None else Some(prizes[k.value])
  {
    Seqs.SortedFilterHead(prizes, Eligible(points), ByThreshold());
  }

  /** What the response and the game record show of the prize handed out. */
  datatype AwardedPrize = AwardedPrize(id: string, name: string, threshold: int)

  /** The prize list after an award, the prize handed out and the stock left of it. */
  datatype AwardOutcome = AwardOutcome(prizes: seq<Prize>, awarded: Option<AwardedPrize>, remainingStock: int)

  /** `p` with one unit of stock taken, never below zero. */
  function TakeOne(p: Prize): (q: Prize)
    ensures q.id == p.id && q.name == p.name && q.threshold == p.threshold
    ensures p.stock > 0 ==> q.stock == p.stock - 1
    ensures p.stock <= 0 ==> q.stock == 0
  {
    p.(stock := Max(0, p.stock - 1))
  }

  /**
   * The prize part of `tryAwardPrize` (and of the server's award handler):
   * pick a prize and, when the stock follows the game, take one unit of the
   * first prize with its id.
   */
  function AwardPrize(prizes: seq<Prize>, stockWithGame: bool, points: int): (r: AwardOutcome)
    ensures r.awarded.Some? <==> PickAward(prizes, points).Some?
    ensures r.awarded.Some? ==> var p := PickAward(prizes, points).value;
      r.awarded.value == AwardedPrize(p.id, p.name, p.threshold)
    ensures r.awarded.None? ==> r.remainingStock == 0
    ensures !stockWithGame || r.awarded.None? ==> r.prizes == prizes
    ensures |r.prizes| == |prizes|
    ensures forall i :: 0 <= i < |prizes| ==> r.prizes[i] == prizes[i] || r.prizes[i] == TakeOne(prizes[i])
    ensures forall i, j :: 0 <= i < j < |prizes| ==> r.prizes[i] == prizes[i] || r.prizes[j] == prizes[j]
  {
    match PickAward(prizes, points)
    case None => AwardOutcome(prizes, None, 0)
    case Some(p) =>
      var idx := Seqs.FindIndex(prizes, HasPrizeId(p.id));
      assert idx.Some? by {
        var j :| 0 <= j < |prizes| && prizes[j] == p;
        assert HasPrizeId(p.id)(prizes[j]);
      }
      var k := idx.value;
      var shown := AwardedPrize(p.id, p.name, p.threshold);
      if stockWithGame then
        var q := TakeOne(prizes[k]);
        AwardOutcome(prizes[k := q], Some(shown), q.stock)
      else
        AwardOutcome(prizes, Some(shown), prizes[k].stock)
  }

  /**
   * With prize ids unique, the unit taken is the picked prize's own, and the
   * stock reported is what is left of it.
   */
  lemma AwardTakesFromPickedPrize(prizes: seq<Prize>, stockWithGame: bool, points: int)
    requires PrizeIdsUnique(prizes) && PickAward(prizes, points).Some?
    ensures var r := AwardPrize(prizes, stockWithGame, points);
      var p := PickAward(prizes, points).value;
      && r.remainingStock == (if stockWithGame then p.stock - 1 else p.stock)
      && (forall i :: 0 <= i < |prizes| ==>
            r.prizes[i] == if stockWithGame && prizes[i] == p then TakeOne(p) else prizes[i])
  {
    var p := PickAward(prizes, points).value;
    var k := Seqs.FindIndex(prizes, HasPrizeId(p.id)).value;
    var j :| 0 <= j < |prizes| && prizes[j] == p;
    assert j == k;
  }

  function StockOf(): Prize -> int {
    (p: Prize) => p.stock
  }

  /** The units of all prizes together. */
  function TotalStock(prizes: seq<Prize>): int {
    Seqs.SumOf(prizes, StockOf())
  }

  /** With the stock following the game, an award takes exactly one unit out of the whole stock. */
  lemma AwardTakesOneUnit(prizes: seq<Prize>, points: int)
    requires PrizeIdsUnique(prizes)
    ensures var r := AwardPrize(prizes, true, points);
      TotalStock(r.prizes) == TotalStock(prizes) - (if r.awarded.Some? then 1 else 0)
  {
    var r := AwardPrize(prizes, true, points);
    if r.awarded.Some? {
      var p := PickAward(prizes, points).value;
      var j :| 0 <= j < |prizes| && prizes[j] == p;
      AwardTakesFromPickedPrize(prizes, true, points);
      assert r.prizes == prizes[j := TakeOne(p)];
      Seqs.SumOfUpdate(prizes, j, TakeOne(p), StockOf());
    }
  }

  /** A card of a finished game as the game record keeps it. */
  datatype CardRecord = CardRecord(
    assetId: Option<string>, assetName: Option<string>, zone: string, correct: bool, x: int, y: int)

  /** A finished game; `day` is the calendar day of its timestamp, `None` when it has none. */
  datatype GameRecord = GameRecord(
    id: string,
    day: Option<int>,
    playerName: string,
    profile: string,
    points: int,
    prize: Option<string>,
    cards: seq<CardRecord>)

  /** The answer to the kiosk after a game. */
  datatype AwardResponse = AwardResponse(awarded: Option<AwardedPrize>, remainingStock: int, points: int, playerName: string)

  /** The record of the game just played, stamped with `today`; the prize is the name of the one awarded. */
  function NewGameRecord(gameId: string, today: int, playerName: string, profile: string, points: int,
                         awarded: Option<AwardedPrize>, cards: seq<CardRecord>): (g: GameRecord)
    ensures g.day == Some(today) && g.points == points && g.cards == cards
    ensures g.playerName == playerName && g.profile == profile
    ensures g.prize.Some? <==> awarded.Some?
    ensures awarded.Some? ==> g.prize == Some(awarded.value.name)
  {
    GameRecord(gameId, Some(today), playerName, profile, points,
      if awarded.Some? then Some(awarded.value.name) else None, cards)
  }

  /** The whole session storage of the store. */
  datatype StoreState = StoreState(
    config: Option<Config>, prizes: seq<Prize>, games: seq<GameRecord>, manual: seq<ManualItem>)

  /**
   * `tryAwardPrize(points, {playerName, placedCards, currentProfileKey})`:
   * hands out a prize and appends one game record. The record's id and day
   * are parameters.
   */
  function TryAwardPrize(st: StoreState, points: Option<int>, playerName: string, profileKey: string,
                         cards: seq<CardRecord>, gameId: string, today: int): (r: (StoreState, AwardResponse))
    ensures r.0.config == st.config && r.0.manual == st.manual
    ensures |r.0.games| == |st.games| + 1 && r.0.games[..|st.games|] == st.games
    ensures var g := r.0.games[|st.games|];
      && g.points == r.1.points == ToInt(points, 0)
      && g.playerName == r.1.playerName == CleanString(playerName, 30)
      && g.profile == CleanString(profileKey, 20)
      && g.day == Some(today)
      && g.cards == cards
      && g.prize == (if r.1.awarded.Some? then Some(r.1.awarded.value.name) else None)
    ensures var o := AwardPrize(st.prizes, GetConfig(st.config).stockWithGame, ToInt(points, 0));
      r.0.prizes == o.prizes && r.1.awarded == o.awarded && r.1.remainingStock == o.remainingStock
    ensures r.1.awarded.Some? ==> PickAward(st.prizes, ToInt(points, 0)).Some?
    ensures !GetConfig(st.config).stockWithGame ==> r.0.prizes == st.prizes
  {
    var pts := ToInt(points, 0);
    var out := AwardPrize(st.prizes, GetConfig(st.config).stockWithGame, pts);
    var g := NewGameRecord(gameId, today, CleanString(playerName, 30), CleanString(profileKey, 20), pts, out.awarded, cards);
    (st.(prizes := out.prizes, games := st.games + [g]),
     AwardResponse(out.awarded, out.remainingStock, pts, g.playerName))
  }

  /** Why an operation of the store was refused. */
  datatype StoreError = DuplicateId | PrizeNotFound | NameRequired | NegativeQuantity | ItemNotFound

  /** The body of a prize creation or update. */
  datatype PrizeBody = PrizeBody(id: Field<string>, name: Field<string>, stock: Field<Option<int>>, threshold: Field<Option<int>>)

  /** The id a new prize gets: the one sent, or a fresh one when that is blank. */
  function NewPrizeId(body: PrizeBody, freshId: string): (id: string)
    ensures |id| <= 30 || id == freshId
    ensures Trim(FieldText(body.id)) == [] ==> id == freshId
    ensures Trim(FieldText(body.id)) != [] ==> id == CleanString(FieldText(body.id), 30) && id != []
  {
    var sent := CleanString(FieldText(body.id), 30);
    if sent == [] then freshId else sent
  }

  /** `addPrize(body)`; `freshId` stands for `crypto.randomUUID().slice(0, 8)`. */
  function AddPrize(prizes: seq<Prize>, body: PrizeBody, freshId: string): (r: Result<(seq<Prize>, Prize), StoreError>)
    ensures r.Err? <==> exists i :: 0 <= i < |prizes| && prizes[i].id == NewPrizeId(body, freshId)
    ensures r.Err? ==> r.error == DuplicateId
    ensures r.Ok? ==> r.value.0 == prizes + [r.value.1]
    ensures r.Ok? ==> var p := r.value.1;
      && p.id == NewPrizeId(body, freshId)
      && p.name == CleanString(FieldText(body.name), 60)
      && p.stock == FieldInt(body.stock, 0)
      && p.threshold == FieldInt(body.threshold, 0)
    ensures r.Ok? && PrizeIdsUnique(prizes) ==> PrizeIdsUnique(r.value.0)
  {
    var id := NewPrizeId(body, freshId);
    match Seqs.FindIndex(prizes, HasPrizeId(id))
    case Some(_) => Err(DuplicateId)
    case None =>
      var p := Prize(id, CleanString(FieldText(body.name), 60), FieldInt(body.stock, 0), FieldInt(body.threshold, 0));
      assert forall i :: 0 <= i < |prizes| ==> !HasPrizeId(id)(prizes[i]);
      Ok((prizes + [p], p))
  }

  /** `body.k != null ? toInt(body.k, current) : current` */
  function PatchNumber(f: Field<Option<int>>, current: int): (v: int)
    ensures forall n :: f == Given(Some(n)) ==> v == n
    ensures (forall n :: f != Given(Some(n))) ==> v == current
  {
    if f.IsNonNull() then FieldInt(f, current) else current
  }

  /** `patchPrize(id, body)`: updates the fields sent, other than `null`, of the first prize with the id. */
  function PatchPrize(prizes: seq<Prize>, id: string, body: PrizeBody): (r: Result<(seq<Prize>, Prize), StoreError>)
    ensures r.Err? <==> forall i :: 0 <= i < |prizes| ==> prizes[i].id != id
    ensures r.Err? ==> r.error == PrizeNotFound
    ensures r.Ok? ==> var k := Seqs.FindIndex(prizes, HasPrizeId(id)).value;
      && r.value.0 == prizes[k := r.value.1]
      && r.value.1.id == id
      && r.value.1.name == (if body.name.IsNonNull() then CleanString(body.name.value, 60) else prizes[k].name)
      && r.value.1.stock == PatchNumber(body.stock, prizes[k].stock)
      && r.value.1.threshold == PatchNumber(body.threshold, prizes[k].threshold)
    ensures r.Ok? && PrizeIdsUnique(prizes) ==> PrizeIdsUnique(r.value.0)
  {
    match Seqs.FindIndex(prizes, HasPrizeId(id))
    case None => Err(PrizeNotFound)
    case Some(k) =>
      var cur := prizes[k];
      var p := cur.(
        name := if body.name.IsNonNull() then CleanString(body.name.value, 60) else cur.name,
        stock := PatchNumber(body.stock, cur.stock),
        threshold := PatchNumber(body.threshold, cur.threshold));
      Ok((prizes[k := p], p))
  }

  /** A body that sends nothing, or only `null`s, leaves the prize as it was. */
  lemma PatchPrizeNothingSent(prizes: seq<Prize>, id: string, body: PrizeBody)
    requires !body.name.IsNonNull() && !body.stock.IsNonNull() && !body.threshold.IsNonNull()
    requires exists i :: 0 <= i < |prizes| && prizes[i].id == id
    ensures PatchPrize(prizes, id, body).Ok?
    ensures PatchPrize(prizes, id, body).value.0 == prizes
  {
    var k := Seqs.FindIndex(prizes, HasPrizeId(id)).value;
    assert prizes[k := prizes[k]] == prizes;
  }

  /** `deletePrize(id)`: drops every prize with the id; not-found when there is none. */
  function DeletePrize(prizes: seq<Prize>, id: string): (r: Result<seq<Prize>, StoreError>)
    ensures r.Err? <==> forall i :: 0 <= i < |prizes| ==> prizes[i].id != id
    ensures r.Err? ==> r.error == PrizeNotFound
    ensures r.Ok? ==> r.value == Seqs.Filter(prizes, OtherPrizeId(id)) && |r.value| < |prizes|
  {
    var kept := Seqs.Filter(prizes, OtherPrizeId(id));
    Seqs.CountIfExtremes(prizes, OtherPrizeId(id));
    if |kept| == |prizes| then Err(PrizeNotFound) else Ok(kept)
  }

  /** A successful delete keeps every other prize and none with the id. */
  lemma DeletePrizeRemovesExactly(prizes: seq<Prize>, id: string)
    requires DeletePrize(prizes, id).Ok?
    ensures var kept := DeletePrize(prizes, id).value;
      && (forall i :: 0 <= i < |kept| ==> kept[i].id != id)
      && (forall i :: 0 <= i < |prizes| && prizes[i].id != id ==> prizes[i] in kept)
  {
    Seqs.FilterContents(prizes, OtherPrizeId(id));
  }

  /** Dropping prizes keeps the ids of the rest distinct. */
  lemma {:induction false} FilterKeepsIdsUnique(prizes: seq<Prize>, keep: Prize -> bool)
    requires PrizeIdsUnique(prizes)
    ensures PrizeIdsUnique(Seqs.Filter(prizes, keep))
  {
    if |prizes| > 0 {
      var rest := prizes[1..];
      assert PrizeIdsUnique(rest) by {
        assert forall i :: 0 <= i < |rest| ==> rest[i] == prizes[i + 1];
      }
      FilterKeepsIdsUnique(rest, keep);
      Seqs.FilterContents(rest, keep);
      var f := Seqs.Filter(rest, keep);
      forall j | 0 <= j < |f|
        ensures f[j].id != prizes[0].id
      {
        assert f[j] in multiset(rest);
        var k :| 0 <= k < |rest| && rest[k] == f[j];
        assert rest[k] == prizes[k + 1];
      }
      if keep(prizes[0]) {
        assert Seqs.Filter(prizes, keep) == [prizes[0]] + f;
      }
    }
  }

  // ---------------------------------------------------------------------
  // Games and the daily ranking

  /** `appendGame(record)` */
  function AppendGame(games: seq<GameRecord>, g: GameRecord): (r: seq<GameRecord>)
    ensures |r| == |games| + 1 && r[..|games|] == games && r[|games|] == g
  {
    games + [g]
  }

  const RankingSize: nat := 50

  function PlayedOn(day: int): GameRecord -> bool {
    (g: GameRecord) => g.day == Some(day)
  }

  function ByPoints(): GameRecord -> int {
    (g: GameRecord) => g.points
  }

  /**
   * `getRanking()`: the games of `today`, most points first (games with
   * equal points keep their order), at most fifty of them.
   */
  function Ranking(games: seq<GameRecord>, today: int): (r: seq<GameRecord>)
    ensures |r| == Min(RankingSize, Seqs.CountIf(games, PlayedOn(today)))
    ensures forall i :: 0 <= i < |r| ==> r[i].day == Some(today)
    ensures forall i :: 0 <= i < |r| ==> r[i] in games
    ensures Seqs.SortedDesc(r, ByPoints())
    ensures multiset(r) <= multiset(Seqs.Filter(games, PlayedOn(today)))
    ensures multiset(r) <= multiset(games)
  {
    var sorted := Seqs.SortDesc(Seqs.Filter(games, PlayedOn(today)), ByPoints());
    var r := Seqs.Take(sorted, RankingSize);
    Seqs.TopOfFilterFrom(games, PlayedOn(today), ByPoints(), RankingSize, r);
    Seqs.TakeSubMultiset(sorted, RankingSize);
    Seqs.FilterContents(games, PlayedOn(today));
    r
  }

  /**
   * Ties keep their order: the ranked games with `v` points are the first
   * games of the day with `v` points, in the order they were saved, and all
   * of them when the ranking is not full.
   */
  lemma RankingKeepsTieOrder(games: seq<GameRecord>, today: int, v: int)
    ensures var ties := Seqs.Filter(Seqs.Filter(games, PlayedOn(today)), Seqs.KeyIs(ByPoints(), v));
      var kept := Seqs.Filter(Ranking(games, today), Seqs.KeyIs(ByPoints(), v));
      && |kept| <= |ties|
      && kept == ties[..|kept|]
      && (|Ranking(games, today)| < RankingSize ==> kept == ties)
  {
    var filtered := Seqs.Filter(games, PlayedOn(today));
    var sorted := Seqs.SortDesc(filtered, ByPoints());
    Seqs.SortDescStable(filtered, ByPoints(), v);
    Seqs.FilterOfTake(sorted, RankingSize, Seqs.KeyIs(ByPoints(), v));
    if |Ranking(games, today)| < RankingSize {
      assert Seqs.Take(sorted, RankingSize) == sorted;
    }
  }

  /** A game of the day is in the ranking unless fifty games of the day scored at least as much. */
  lemma RankingKeepsBest(games: seq<GameRecord>, today: int, g: GameRecord)
    requires g in games && g.day == Some(today)
    ensures var r := Ranking(games, today);
      g in r || (|r| == RankingSize && g.points <= r[RankingSize - 1].points)
  {
    var filtered := Seqs.Filter(games, PlayedOn(today));
    var sorted := Seqs.SortDesc(filtered, ByPoints());
    Seqs.FilterContents(games, PlayedOn(today));
    var i :| 0 <= i < |games| && games[i] == g;
    assert g in multiset(sorted);
    var k :| 0 <= k < |sorted| && sorted[k] == g;
    Seqs.TakeKeepsTop(sorted, ByPoints(), RankingSize, k);
  }

  /** The game just played is ranked today unless fifty games of the day scored at least as much. */
  lemma AwardedGameIsRanked(st: StoreState, points: Option<int>, playerName: string, profileKey: string,
                            cards: seq<CardRecord>, gameId: string, today: int)
    ensures var r := TryAwardPrize(st, points, playerName, profileKey, cards, gameId, today);
      var g := r.0.games[|st.games|];
      var ranked := Ranking(r.0.games, today);
      g in ranked || (|ranked| == RankingSize && g.points <= ranked[RankingSize - 1].points)
  {
    var r := TryAwardPrize(st, points, playerName, profileKey, cards, gameId, today);
    RankingKeepsBest(r.0.games, today, r.0.games[|st.games|]);
  }

  // ---------------------------------------------------------------------
  // Manual stock of giveaways

  datatype ManualItem = ManualItem(id: string, name: string, quantity: int)

  /** The body of an item creation or update. */
  datatype ItemBody = ItemBody(name: Field<string>, quantity: Field<Option<int>>)

  function HasItemId(id: string): ManualItem -> bool {
    (i: ManualItem) => i.id == id
  }

  function OtherItemId(id: string): ManualItem -> bool {
    (i: ManualItem) => i.id != id
  }

  predicate QuantitiesNonNegative(items: seq<ManualItem>) {
    forall i :: 0 <= i < |items| ==> items[i].quantity >= 0
  }

  /** `addManualItem(body)`; `freshId` stands for `crypto.randomUUID().slice(0, 8)`. */
  function AddManualItem(items: seq<ManualItem>, body: ItemBody, freshId: string): (r: Result<(seq<ManualItem>, ManualItem), StoreError>)
    ensures r == Err(NameRequired) <==> Trim(FieldText(body.name)) == []
    ensures r == Err(NegativeQuantity) <==> Trim(FieldText(body.name)) != [] && FieldInt(body.quantity, 0) < 0
    ensures r.Err? ==> r == Err(NameRequired) || r == Err(NegativeQuantity)
    ensures r.Ok? ==> r.value.0 == items + [r.value.1]
    ensures r.Ok? ==> var it := r.value.1;
      && it.id == freshId
      && it.name == CleanString(FieldText(body.name), 80) && it.name != []
      && it.quantity == FieldInt(body.quantity, 0) && it.quantity >= 0
    ensures r.Ok? && QuantitiesNonNegative(items) ==> QuantitiesNonNegative(r.value.0)
  {
    var name := CleanString(FieldText(body.name), 80);
    var quantity := FieldInt(body.quantity, 0);
    if name == [] then Err(NameRequired)
    else if quantity < 0 then Err(NegativeQuantity)
    else
      var it := ManualItem(freshId, name, quantity);
      Ok((items + [it], it))
  }

  /** `patchManualItem(id, body)`: the name and quantity sent, other than `null`, the quantity floored at zero. */
  function PatchManualItem(items: seq<ManualItem>, id: string, body: ItemBody): (r: Result<(seq<ManualItem>, ManualItem), StoreError>)
    ensures r.Err? <==> forall i :: 0 <= i < |items| ==> items[i].id != id
    ensures r.Err? ==> r.error == ItemNotFound
    ensures r.Ok? ==> var k := Seqs.FindIndex(items, HasItemId(id)).value;
      && r.value.0 == items[k := r.value.1]
      && r.value.1.id == id
      && r.value.1.name == (if body.name.IsNonNull() then CleanString(body.name.value, 80) else items[k].name)
      && r.value.1.quantity == (if body.quantity.IsNonNull() then Max(0, FieldInt(body.quantity, 0)) else items[k].quantity)
    ensures r.Ok? && QuantitiesNonNegative(items) ==> QuantitiesNonNegative(r.value.0)
  {
    match Seqs.FindIndex(items, HasItemId(id))
    case None => Err(ItemNotFound)
    case Some(k) =>
      var cur := items[k];
      var it := cur.(
        name := if body.name.IsNonNull() then CleanString(body.name.value, 80) else cur.name,
        quantity := if body.quantity.IsNonNull() then Max(0, FieldInt(body.quantity, 0)) else cur.quantity);
      Ok((items[k := it], it))
  }

  /** `deleteManualItem(id)`: drops every item with the id; not-found when there is none. */
  function DeleteManualItem(items: seq<ManualItem>, id: string): (r: Result<seq<ManualItem>, StoreError>)
    ensures r.Err? <==> forall i :: 0 <= i < |items| ==> items[i].id != id
    ensures r.Err? ==> r.error == ItemNotFound
    ensures r.Ok? ==> r.value == Seqs.Filter(items, OtherItemId(id)) && |r.value| < |items|
  {
    var kept := Seqs.Filter(items, OtherItemId(id));
    Seqs.CountIfExtremes(items, OtherItemId(id));
    if |kept| == |items| then Err(ItemNotFound) else Ok(kept)
  }

  /** The updated list, the item as it now is and its quantity before the withdrawal. */
  datatype Withdrawal = Withdrawal(items: seq<ManualItem>, item: ManualItem, previousQuantity: int)

  /** `withdrawManualItem(id)`: hands out one unit of the first item with the id. */
  function WithdrawManualItem(items: seq<ManualItem>, id: string): (r: Result<Withdrawal, StoreError>)
    ensures r.Err? <==> forall i :: 0 <= i < |items| ==> items[i].id != id
    ensures r.Err? ==> r.error == ItemNotFound
    ensures r.Ok? ==> var k := Seqs.FindIndex(items, HasItemId(id)).value;
      && r.value.previousQuantity == items[k].quantity
      && r.value.item == items[k].(quantity := r.value.item.quantity)
      && r.value.items == items[k := r.value.item]
      && (items[k].quantity > 0 ==> r.value.item.quantity == items[k].quantity - 1)
      && (items[k].quantity <= 0 ==> r.value.item.quantity == 0)
    ensures r.Ok? && QuantitiesNonNegative(items) ==> QuantitiesNonNegative(r.value.items)
  {
    match Seqs.FindIndex(items, HasItemId(id))
    case None => Err(ItemNotFound)
    case Some(k) =>
      var it := items[k].(quantity := Max(0, items[k].quantity - 1));
      Ok(Withdrawal(items[k := it], it, items[k].quantity))
  }

  function QuantityOf(): ManualItem -> int {
    (i: ManualItem) => i.quantity
  }

  /** A withdrawal takes one unit out of the stock of giveaways, or none when the item had run out. */
  lemma WithdrawTakesOneUnit(items: seq<ManualItem>, id: string)
    requires WithdrawManualItem(items, id).Ok?
    ensures var w := WithdrawManualItem(items, id).value;
      Seqs.SumOf(w.items, QuantityOf()) == Seqs.SumOf(items, QuantityOf())
        - (if w.previousQuantity > 0 then 1 else w.previousQuantity)
  {
    var k := Seqs.FindIndex(items, HasItemId(id)).value;
    var w := WithdrawManualItem(items, id).value;
    Seqs.SumOfUpdate(items, k, w.item, QuantityOf());
  }
}
