/**
 * The HTTP API of server.js as pure transitions: each request takes the
 * server's documents (configuration, prizes, games, manual stock) and its
 * in-memory rate-limit tables to new ones and a response. The file
 * handling and the clock are left to the caller: the time of a request, the
 * calendar day and fresh ids are parameters.
 */
module Server {
  import opened Wrappers
  import opened Text
  import opened Utils
  import Seqs
  import Match
  import Store

  // ---------------------------------------------------------------------
  // Rate limiting

  const RateLimitWindowMs: int := 60000
  const RateLimitMaxAward: int := 30
  const RateLimitMaxRanking: int := 120

  /** Calls counted for one address and the time of the last one allowed. */
  datatype RateEntry = RateEntry(count: int, last: int)

  type RateMap = map<string, RateEntry>

  /**
   * `checkRateLimit(map, ip, max)` at time `now`: the updated table and
   * whether the call may go on. The window runs from the last allowed call.
   */
  function CheckRateLimit(m: RateMap, ip: string, max: int, now: int): (r: (RateMap, bool))
    ensures !r.1 ==> r.0 == m
    ensures r.0.Keys == m.Keys + {ip}
    ensures forall k :: k in m && k != ip ==> r.0[k] == m[k]
    ensures ip !in m ==> r.1 && r.0[ip] == RateEntry(1, now)
    ensures ip in m && now - m[ip].last > RateLimitWindowMs ==> r.1 && r.0[ip] == RateEntry(1, now)
    ensures ip in m && now - m[ip].last <= RateLimitWindowMs ==>
      && (r.1 <==> m[ip].count < max)
      && (r.1 ==> r.0[ip] == RateEntry(m[ip].count + 1, now))
  {
    if ip !in m then (m[ip := RateEntry(1, now)], true)
    else
      var e := m[ip];
      if now - e.last > RateLimitWindowMs then (m[ip := RateEntry(1, now)], true)
      else if e.count >= max then (m, false)
      else (m[ip := RateEntry(e.count + 1, now)], true)
  }

  predicate CountsAtMost(m: RateMap, max: int) {
    forall k :: k in m ==> m[k].count <= max
  }

  /** No address ever counts more calls than the limit. */
  lemma CheckRateLimitKeepsBound(m: RateMap, ip: string, max: int, now: int)
    requires max >= 1 && CountsAtMost(m, max)
    ensures CountsAtMost(CheckRateLimit(m, ip, max, now).0, max)
  {
  }

  /** The table after a run of calls from one address at the given times, and how many were allowed. */
  function RunCalls(m: RateMap, ip: string, max: int, times: seq<int>): (r: (RateMap, nat))
    ensures r.1 <= |times|
    decreases |times|
  {
    if |times| == 0 then (m, 0)
    else
      var first := CheckRateLimit(m, ip, max, times[0]);
      var rest := RunCalls(first.0, ip, max, times[1..]);
      (rest.0, rest.1 + if first.1 then 1 else 0)
  }

  /** Calls within a minute of a time no earlier than the last allowed call add at most what the limit leaves. */
  lemma {:induction false} BurstWithinWindow(m: RateMap, ip: string, max: int, times: seq<int>, start: int)
    requires ip in m && m[ip].last >= start && 0 <= m[ip].count <= max
    requires forall i :: 0 <= i < |times| ==> start <= times[i] <= start + RateLimitWindowMs
    ensures RunCalls(m, ip, max, times).1 <= max - m[ip].count
    decreases |times|
  {
    if |times| > 0 {
      var first := CheckRateLimit(m, ip, max, times[0]);
      BurstWithinWindow(first.0, ip, max, times[1..], start);
    }
  }

  /** A new address gets at most `max` calls through within a minute of its first call. */
  lemma AtMostMaxPerWindow(m: RateMap, ip: string, max: int, times: seq<int>)
    requires ip !in m && max >= 1 && |times| > 0
    requires forall i :: 0 <= i < |times| ==> times[0] <= times[i] <= times[0] + RateLimitWindowMs
    ensures RunCalls(m, ip, max, times).1 <= max
  {
    var first := CheckRateLimit(m, ip, max, times[0]);
    BurstWithinWindow(first.0, ip, max, times[1..], times[0]);
  }

  /** The calls of `ip` at `times`, in order: the table after them, and whether all were allowed. */
  function CallsAt(m: RateMap, ip: string, max: int, times: seq<int>): (RateMap, bool)
    decreases |times|
  {
    if |times| == 0 then (m, true)
    else
      var before := CallsAt(m, ip, max, times[..|times| - 1]);
      var last := CheckRateLimit(before.0, ip, max, times[|times| - 1]);
      (last.0, before.1 && last.1)
  }

  /**
   * The window follows the last allowed call, not the first: from an unknown
   * address, up to `max` calls each within a minute of the one before are all
   * allowed and all counted, however long the whole run lasts.
   */
  lemma {:induction false} WindowFollowsLastAllowedCall(ip: string, max: int, times: seq<int>)
    requires 1 <= |times| <= max
    requires forall i :: 0 < i < |times| ==> times[i] - times[i - 1] <= RateLimitWindowMs
    ensures var r := CallsAt(map[], ip, max, times);
      r.1 && ip in r.0 && r.0[ip] == RateEntry(|times|, times[|times| - 1])
    decreases |times|
  {
    if |times| > 1 {
      var init := times[..|times| - 1];
      assert forall i :: 0 < i < |init| ==> init[i] - init[i - 1] <= RateLimitWindowMs by {
        forall i | 0 < i < |init| ensures init[i] - init[i - 1] <= RateLimitWindowMs {
          assert init[i] == times[i] && init[i - 1] == times[i - 1];
        }
      }
      WindowFollowsLastAllowedCall(ip, max, init);
    }
  }

  /** `cleanRateLimitMaps()` at time `now`: forgets the addresses idle for more than a minute. */
  function CleanRateLimitMap(m: RateMap, now: int): (r: RateMap)
    ensures r.Keys <= m.Keys
    ensures forall k :: k in r ==> r[k] == m[k]
    ensures forall k :: k in m ==> (k in r <==> now - m[k].last <= RateLimitWindowMs)
  {
    map k | k in m && now - m[k].last <= RateLimitWindowMs :: m[k]
  }

  /** Cleaning the table before a later call changes neither the decision nor the caller's entry. */
  lemma CleaningKeepsDecisions(m: RateMap, cleanedAt: int, ip: string, max: int, now: int)
    requires cleanedAt <= now
    ensures var a := CheckRateLimit(CleanRateLimitMap(m, cleanedAt), ip, max, now);
      var b := CheckRateLimit(m, ip, max, now);
      a.1 == b.1 && a.0[ip] == b.0[ip]
  {
  }

  // ---------------------------------------------------------------------
  // Admin key

  /** `replace(/^Bearer\s+/i, "")`, with `\s` the ASCII whitespace. */
  function StripBearer(s: string): (r: string)
    ensures |r| <= |s| && r == s[|s| - |r|..]
    ensures r == s || r == [] || !IsSpace(r[0])
    ensures !HasBearerPrefix(s) ==> r == s
    ensures HasBearerPrefix(s) ==> |r| < |s| - 6
  {
    if HasBearerPrefix(s) then TrimStart(s[6..]) else s
  }

  /** The header starts with "Bearer", in any letter case, and whitespace. */
  predicate HasBearerPrefix(s: string) {
    |s| > 6 && ToLower(s[..6]) == "bearer" && IsSpace(s[6])
  }

  /** A token after "Bearer" and whitespace, in any letter case, comes out whole unless it starts with whitespace. */
  lemma StripBearerRoundTrip(word: string, spaces: string, token: string)
    requires |word| == 6 && ToLower(word) == "bearer"
    requires |spaces| > 0 && AllSpace(spaces)
    requires token == [] || !IsSpace(token[0])
    ensures StripBearer(word + spaces + token) == token
  {
    var s := word + spaces + token;
    assert s[..6] == word;
    assert s[6..] == spaces + token;
    TrimStartSkipsSpaces(spaces, token);
    TrimStartOfNonSpace(token);
  }

  /** The admin headers of a request; a header that is not sent is the empty string. */
  datatype Headers = Headers(xAdminKey: string, authorization: string)

  /** The key a request presents: `x-admin-key`, or else the bearer token. */
  function PresentedKey(h: Headers): string {
    if h.xAdminKey != [] then h.xAdminKey else StripBearer(h.authorization)
  }

  /** `requireAdmin`: with a key configured, only a request presenting that key passes. */
  function RequireAdmin(adminKey: string, h: Headers): (ok: bool)
    ensures adminKey == [] ==> ok
    ensures adminKey != [] && h.xAdminKey != [] ==> (ok <==> h.xAdminKey == adminKey)
    ensures adminKey != [] && h.xAdminKey == [] ==> (ok <==> StripBearer(h.authorization) == adminKey)
  {
    adminKey == [] || PresentedKey(h) == adminKey
  }

  /** The configured key sent as a bearer token is accepted. */
  lemma BearerKeyAccepted(adminKey: string, word: string, spaces: string)
    requires adminKey != [] && !IsSpace(adminKey[0])
    requires |word| == 6 && ToLower(word) == "bearer"
    requires |spaces| > 0 && AllSpace(spaces)
    ensures RequireAdmin(adminKey, Headers([], word + spaces + adminKey))
  {
    StripBearerRoundTrip(word, spaces, adminKey);
  }

  /** Without the "Bearer" prefix, the authorization header itself must be the key. */
  lemma RawKeyAccepted(adminKey: string, authorization: string)
    requires adminKey != [] && !HasBearerPrefix(authorization)
    ensures RequireAdmin(adminKey, Headers([], authorization)) <==> authorization == adminKey
  {
  }

  // ---------------------------------------------------------------------
  // Prize validation

  datatype ValidationError = InvalidName | InvalidStock | InvalidThreshold

  /** The field holds a number that is not negative. */
  predicate NonNegativeNumber(f: Field<Option<int>>) {
    f.Given? && f.value.Some? && f.value.value >= 0
  }

  /** Whether `validatePrizeInput` checks the field: always in full mode, only when the key is present otherwise. */
  predicate Checked<T>(partial: bool, f: Field<T>) {
    !partial || !f.Missing?
  }

  /** `validatePrizeInput(body, {partial})`: name, then stock, then threshold. */
  function ValidatePrizeInput(body: Store.PrizeBody, partial: bool): (r: Result<(), ValidationError>)
    ensures r.Ok? <==>
      && (Checked(partial, body.name) ==> Trim(Store.FieldText(body.name)) != [])
      && (Checked(partial, body.stock) ==> NonNegativeNumber(body.stock))
      && (Checked(partial, body.threshold) ==> NonNegativeNumber(body.threshold))
    ensures r == Err(InvalidName) <==> Checked(partial, body.name) && Trim(Store.FieldText(body.name)) == []
  {
    if Checked(partial, body.name) && CleanString(Store.FieldText(body.name), 60) == [] then Err(InvalidName)
    else if Checked(partial, body.stock) && Store.FieldInt(body.stock, -1) < 0 then Err(InvalidStock)
    else if Checked(partial, body.threshold) && Store.FieldInt(body.threshold, -1) < 0 then Err(InvalidThreshold)
    else Ok(())
  }

  /** A body valid for creation is valid for an update, and an empty update is valid. */
  lemma ValidationModes(body: Store.PrizeBody)
    ensures ValidatePrizeInput(body, false).Ok? ==> ValidatePrizeInput(body, true).Ok?
    ensures body.name.Missing? && body.stock.Missing? && body.threshold.Missing? ==> ValidatePrizeInput(body, true).Ok?
  {
  }

  // ---------------------------------------------------------------------
  // Configuration

  /** What `readConfig` returns; the server never stores points per wrong card. */
  datatype ServerConfig = ServerConfig(
    timeLimitActive: bool,
    timeLimitSeconds: int,
    stockWithGame: bool,
    pointsPerCorrectCard: int,
    bonusIdealLineup: int,
    maxScore: int)

  const DefaultServerConfig: ServerConfig := ServerConfig(false, 60, true, 3, 20, 38)

  /** `readConfig()`: the stored file, or the defaults when it cannot be read. */
  function ReadConfig(stored: Option<ServerConfig>): ServerConfig {
    stored.GetOr(DefaultServerConfig)
  }

  /** The body of `POST /api/config` applied to the current configuration. */
  function PostConfig(current: ServerConfig, data: Store.ConfigPatch): (r: ServerConfig)
    ensures data.pointsPerCorrectCard.IsDefined() ==> r.pointsPerCorrectCard >= 0
    ensures data.bonusIdealLineup.IsDefined() ==> r.bonusIdealLineup >= 0
    ensures data.maxScore.IsDefined() ==> r.maxScore >= 1
    ensures data.maxScore.Missing? ==> r.maxScore == current.maxScore
  {
    ServerConfig(
      Store.PatchFlag(data.timeLimitActive, current.timeLimitActive),
      Store.PatchInt(data.timeLimitSeconds, current.timeLimitSeconds, 60),
      Store.PatchFlag(data.stockWithGame, current.stockWithGame),
      Store.PatchCount(data.pointsPerCorrectCard, current.pointsPerCorrectCard, 3, 0),
      Store.PatchCount(data.bonusIdealLineup, current.bonusIdealLineup, 20, 0),
      Store.PatchCount(data.maxScore, current.maxScore, 38, 1))
  }

  /** The server's configuration without its points per wrong card, as the browser store keeps it. */
  function WithWrongCardPoints(c: ServerConfig, pointsPerWrongCard: int): Store.Config {
    Store.Config(c.timeLimitActive, c.timeLimitSeconds, c.stockWithGame,
      c.pointsPerCorrectCard, c.bonusIdealLineup, c.maxScore, pointsPerWrongCard)
  }

  /**
   * The server saves every field the browser store saves, by the same rules,
   * except points per wrong card, which it drops.
   */
  lemma PostConfigAgreesWithStore(current: ServerConfig, pointsPerWrongCard: int, data: Store.ConfigPatch)
    ensures WithWrongCardPoints(PostConfig(current, data), pointsPerWrongCard)
      == Store.SaveConfig(WithWrongCardPoints(current, pointsPerWrongCard), data.(pointsPerWrongCard := Missing))
  {
  }

  /** The scoring fields the game reads from the server's configuration; points per wrong card are absent. */
  function ScoringOf(c: ServerConfig): Match.ScoringConfig {
    Match.ScoringConfig(Some(c.pointsPerCorrectCard), Some(c.bonusIdealLineup), Some(c.maxScore), None)
  }

  /** Whatever the admin sends, a game configured by the server never takes points for a wrong card. */
  lemma ServerGamesNeverPenaliseWrongCards(current: ServerConfig, data: Store.ConfigPatch, rules: Match.ScoringRules)
    ensures Match.ApplyScoringConfig(rules, Some(ScoringOf(PostConfig(current, data)))).pointsPerWrong == 0
  {
  }

  // ---------------------------------------------------------------------
  // Requests and responses

  /** The server's documents and its in-memory tables. */
  datatype ServerState = ServerState(
    config: Option<ServerConfig>,
    prizes: seq<Store.Prize>,
    games: seq<Store.GameRecord>,
    manual: seq<Store.ManualItem>,
    rateAward: RateMap,
    rateRanking: RateMap)

  /** The body of `POST /api/award`; `cards` is `None` when it is not an array. */
  datatype AwardBody = AwardBody(
    points: Field<Option<int>>, playerName: Field<string>, profile: Field<string>, cards: Option<seq<Store.CardRecord>>)

  /** A request to the API; `freshId`, `gameId`, `now` and `today` stand for the random ids and the clock. */
  datatype Request =
    | GetConfig
    | PostConfigRequest(headers: Headers, config: Store.ConfigPatch)
    | GetPrizes
    | PostPrize(headers: Headers, prize: Store.PrizeBody, freshId: string)
    | PatchPrize(headers: Headers, id: string, prize: Store.PrizeBody)
    | DeletePrize(headers: Headers, id: string)
    | GetManualStock(headers: Headers)
    | PostManualItem(headers: Headers, item: Store.ItemBody, freshId: string)
    | PatchManualItem(headers: Headers, id: string, item: Store.ItemBody)
    | DeleteManualItem(headers: Headers, id: string)
    | WithdrawManualItem(headers: Headers, id: string)
    | PostAward(ip: string, now: int, award: AwardBody, gameId: string, today: int)
    | GetRanking(ip: string, now: int, today: int)
  {
    /** The routes behind `requireAdmin`. */
    predicate IsAdminRoute() {
      !(GetConfig? || GetPrizes? || PostAward? || GetRanking?)
    }
  }

  datatype Status = Success | BadRequest | Unauthorized | NotFound | Conflict | TooManyRequests

  function Code(s: Status): int {
    match s
    case Success => 200
    case BadRequest => 400
    case Unauthorized => 401
    case NotFound => 404
    case Conflict => 409
    case TooManyRequests => 429
  }

  datatype Payload =
    | NoPayload
    | ConfigPayload(config: ServerConfig)
    | PrizesPayload(prizes: seq<Store.Prize>)
    | PrizePayload(prize: Store.Prize)
    | ItemsPayload(items: seq<Store.ManualItem>)
    | ItemPayload(item: Store.ManualItem)
    | WithdrawPayload(item: Store.ManualItem, previousQuantity: int)
    | AwardPayload(award: Store.AwardResponse)
    | RankingPayload(ranking: seq<Store.GameRecord>)

  datatype Response = Response(status: Status, payload: Payload)

  function Refuse(s: Status): Response {
    Response(s, NoPayload)
  }

  /** `POST /api/prizes` once the admin check has passed: 400, then 409, then the prize is added. */
  function CreatePrize(st: ServerState, body: Store.PrizeBody, freshId: string): (r: (ServerState, Response))
    ensures r.1.status != Success ==> r.0 == st
    ensures r.1.status == BadRequest <==> ValidatePrizeInput(body, false).Err?
    ensures r.1.status == Conflict <==> (ValidatePrizeInput(body, false).Ok? &&
      exists i :: 0 <= i < |st.prizes| && st.prizes[i].id == Store.NewPrizeId(body, freshId))
    ensures r.1.status == Success ==>
      && r.1.payload.PrizePayload?
      && r.0 == st.(prizes := st.prizes + [r.1.payload.prize])
      && r.1.payload.prize.name != [] && r.1.payload.prize.stock >= 0 && r.1.payload.prize.threshold >= 0
      && r.1.payload.prize == Store.Prize(Store.NewPrizeId(body, freshId), CleanString(Store.FieldText(body.name), 60),
                                          Store.FieldInt(body.stock, 0), Store.FieldInt(body.threshold, 0))
  {
    if ValidatePrizeInput(body, false).Err? then (st, Refuse(BadRequest))
    else
      match Store.AddPrize(st.prizes, body, freshId)
      case Err(_) => (st, Refuse(Conflict))
      case Ok((prizes, p)) => (st.(prizes := prizes), Response(Success, PrizePayload(p)))
  }

  /** `PATCH /api/prizes/:id` once the admin check has passed: 400, then 404, then the update. */
  function UpdatePrize(st: ServerState, id: string, body: Store.PrizeBody): (r: (ServerState, Response))
    ensures r.1.status != Success ==> r.0 == st
    ensures r.1.status == BadRequest <==> ValidatePrizeInput(body, true).Err?
    ensures r.1.status == NotFound <==> (ValidatePrizeInput(body, true).Ok? &&
      forall i :: 0 <= i < |st.prizes| ==> st.prizes[i].id != id)
    ensures r.1.status == Success ==>
      && r.1.payload.PrizePayload?
      && r.1.payload.prize.id == id
      && r.0 == st.(prizes := Store.PatchPrize(st.prizes, id, body).value.0)
    ensures r.1.status == Success ==> (|r.0.prizes| == |st.prizes| &&
      forall i :: 0 <= i < |st.prizes| ==>
        r.0.prizes[i] == st.prizes[i] || r.0.prizes[i] == r.1.payload.prize)
    ensures r.1.status == Success && PrizesSane(st.prizes) ==> PrizesSane(r.0.prizes)
  {
    if ValidatePrizeInput(body, true).Err? then (st, Refuse(BadRequest))
    else
      match Store.PatchPrize(st.prizes, id, body)
      case Err(_) => (st, Refuse(NotFound))
      case Ok((prizes, p)) =>
        (st.(prizes := prizes), Response(Success, PrizePayload(p)))
  }

  /** Every prize has a name, stock that is not negative and a threshold that is not negative. */
  predicate PrizesSane(prizes: seq<Store.Prize>) {
    forall i :: 0 <= i < |prizes| ==> prizes[i].name != [] && prizes[i].stock >= 0 && prizes[i].threshold >= 0
  }

  /** `DELETE /api/prizes/:id` once the admin check has passed. */
  function RemovePrize(st: ServerState, id: string): (r: (ServerState, Response))
    ensures r.1.status != Success ==> r.0 == st
    ensures r.1.status == NotFound <==> forall i :: 0 <= i < |st.prizes| ==> st.prizes[i].id != id
    ensures r.1.status == Success ==> r.0 == st.(prizes := Seqs.Filter(st.prizes, Store.OtherPrizeId(id)))
  {
    match Store.DeletePrize(st.prizes, id)
    case Err(_) => (st, Refuse(NotFound))
    case Ok(prizes) => (st.(prizes := prizes), Refuse(Success))
  }

  /** `POST /api/manual-stock` once the admin check has passed. */
  function CreateItem(st: ServerState, body: Store.ItemBody, freshId: string): (r: (ServerState, Response))
    ensures r.1.status != Success ==> r.0 == st
    ensures r.1.status == BadRequest <==>
      Trim(Store.FieldText(body.name)) == [] || Store.FieldInt(body.quantity, 0) < 0
    ensures r.1.status == Success ==>
      && r.1.payload.ItemPayload?
      && r.0 == st.(manual := st.manual + [r.1.payload.item])
      && r.1.payload.item.name != [] && r.1.payload.item.quantity >= 0
      && r.1.payload.item.id == freshId
      && r.1.payload.item.name == CleanString(Store.FieldText(body.name), 80)
      && r.1.payload.item.quantity == Store.FieldInt(body.quantity, 0)
  {
    match Store.AddManualItem(st.manual, body, freshId)
    case Err(_) => (st, Refuse(BadRequest))
    case Ok((items, it)) => (st.(manual := items), Response(Success, ItemPayload(it)))
  }

  /** `PATCH /api/manual-stock/:id` once the admin check has passed. */
  function UpdateItem(st: ServerState, id: string, body: Store.ItemBody): (r: (ServerState, Response))
    ensures r.1.status != Success ==> r.0 == st
    ensures r.1.status == NotFound <==> forall i :: 0 <= i < |st.manual| ==> st.manual[i].id != id
    ensures r.1.status == Success ==> r.0 == st.(manual := Store.PatchManualItem(st.manual, id, body).value.0)
    ensures Store.QuantitiesNonNegative(st.manual) ==> Store.QuantitiesNonNegative(r.0.manual)
  {
    match Store.PatchManualItem(st.manual, id, body)
    case Err(_) => (st, Refuse(NotFound))
    case Ok((items, it)) => (st.(manual := items), Response(Success, ItemPayload(it)))
  }

  /**
   * `DELETE /api/manual-stock/:id` once the admin check has passed: unlike
   * the browser store, an unknown id is not an error.
   */
  function RemoveItem(st: ServerState, id: string): (r: (ServerState, Response))
    ensures r.1.status == Success
    ensures r.0 == st.(manual := r.0.manual)
    ensures forall i :: 0 <= i < |r.0.manual| ==> r.0.manual[i].id != id
    ensures forall i :: 0 <= i < |st.manual| && st.manual[i].id != id ==> st.manual[i] in r.0.manual
    ensures multiset(r.0.manual) <= multiset(st.manual)
  {
    Seqs.FilterContents(st.manual, Store.OtherItemId(id));
    (st.(manual := Seqs.Filter(st.manual, Store.OtherItemId(id))), Refuse(Success))
  }

  /** Deleting an unknown item answers success and changes nothing. */
  lemma RemoveUnknownItemIsNoop(st: ServerState, id: string)
    requires forall i :: 0 <= i < |st.manual| ==> st.manual[i].id != id
    ensures RemoveItem(st, id) == (st, Refuse(Success))
  {
    Seqs.FilterAll(st.manual, Store.OtherItemId(id));
  }

  /** `POST /api/manual-stock/:id/withdraw` once the admin check has passed. */
  function WithdrawItem(st: ServerState, id: string): (r: (ServerState, Response))
    ensures r.1.status != Success ==> r.0 == st
    ensures r.1.status == NotFound <==> forall i :: 0 <= i < |st.manual| ==> st.manual[i].id != id
    ensures r.1.status == Success ==>
      && r.1.payload.WithdrawPayload?
      && r.0 == st.(manual := Store.WithdrawManualItem(st.manual, id).value.items)
      && r.1.payload.item.quantity == Max(0, r.1.payload.previousQuantity - 1)
  {
    match Store.WithdrawManualItem(st.manual, id)
    case Err(_) => (st, Refuse(NotFound))
    case Ok(w) => (st.(manual := w.items), Response(Success, WithdrawPayload(w.item, w.previousQuantity)))
  }

  /** `POST /api/award`: rate limited per address, then the same award as the browser store. */
  function Award(st: ServerState, ip: string, now: int, body: AwardBody, gameId: string, today: int): (r: (ServerState, Response))
    ensures r.1.status == Success || r.1.status == TooManyRequests
    ensures r.1.status == TooManyRequests <==> !CheckRateLimit(st.rateAward, ip, RateLimitMaxAward, now).1
    ensures r.1.status == TooManyRequests ==> r.0 == st
    ensures r.1.status == Success ==>
      && r.1.payload.AwardPayload?
      && r.0.config == st.config && r.0.manual == st.manual && r.0.rateRanking == st.rateRanking
      && r.0.rateAward == CheckRateLimit(st.rateAward, ip, RateLimitMaxAward, now).0
      && |r.0.games| == |st.games| + 1 && r.0.games[..|st.games|] == st.games
      && r.0.games[|st.games|].id == gameId
      && r.0.games[|st.games|].cards == body.cards.GetOr([])
      && r.0.games[|st.games|].points == r.1.payload.award.points == Store.FieldInt(body.points, 0)
      && r.0.games[|st.games|].playerName == r.1.payload.award.playerName == CleanString(Store.FieldText(body.playerName), 30)
      && r.0.games[|st.games|].profile == CleanString(Store.FieldText(body.profile), 20)
      && r.0.games[|st.games|].day == Some(today)
      && r.0.games[|st.games|].prize
         == (if r.1.payload.award.awarded.Some? then Some(r.1.payload.award.awarded.value.name) else None)
      && var o := Store.AwardPrize(st.prizes, ReadConfig(st.config).stockWithGame, Store.FieldInt(body.points, 0));
         r.0.prizes == o.prizes && r.1.payload.award.awarded == o.awarded
         && r.1.payload.award.remainingStock == o.remainingStock
  {
    var limited := CheckRateLimit(st.rateAward, ip, RateLimitMaxAward, now);
    if !limited.1 then (st, Refuse(TooManyRequests))
    else
      var points := Store.FieldInt(body.points, 0);
      var playerName := CleanString(Store.FieldText(body.playerName), 30);
      var profile := CleanString(Store.FieldText(body.profile), 20);
      var out := Store.AwardPrize(st.prizes, ReadConfig(st.config).stockWithGame, points);
      var g := Store.NewGameRecord(gameId, today, playerName, profile, points, out.awarded, body.cards.GetOr([]));
      (st.(rateAward := limited.0, prizes := out.prizes, games := st.games + [g]),
       Response(Success, AwardPayload(Store.AwardResponse(out.awarded, out.remainingStock, points, playerName))))
  }

  /** The server's award and the browser store's award agree on the prizes, the games and the answer. */
  lemma AwardAgreesWithStore(st: ServerState, ss: Store.StoreState, ip: string, now: int, body: AwardBody,
                             gameId: string, today: int, points: int, cards: seq<Store.CardRecord>)
    requires CheckRateLimit(st.rateAward, ip, RateLimitMaxAward, now).1
    requires body.points == Given(Some(points)) && body.cards == Some(cards)
    requires ss.prizes == st.prizes && ss.games == st.games
    requires Store.GetConfig(ss.config).stockWithGame == ReadConfig(st.config).stockWithGame
    ensures var a := Award(st, ip, now, body, gameId, today);
      var b := Store.TryAwardPrize(ss, Some(points), Store.FieldText(body.playerName), Store.FieldText(body.profile),
                                   cards, gameId, today);
      a.0.prizes == b.0.prizes && a.0.games == b.0.games && a.1.payload == AwardPayload(b.1)
  {
  }

  /** `GET /api/ranking`: rate limited per address, then today's ranking. */
  function RankingRoute(st: ServerState, ip: string, now: int, today: int): (r: (ServerState, Response))
    ensures r.1.status == Success || r.1.status == TooManyRequests
    ensures r.1.status == TooManyRequests <==> !CheckRateLimit(st.rateRanking, ip, RateLimitMaxRanking, now).1
    ensures r.0 == st.(rateRanking := r.0.rateRanking)
    ensures r.1.status == TooManyRequests ==> r.0 == st
    ensures r.1.status == Success ==> r.1.payload == RankingPayload(Store.Ranking(st.games, today))
    ensures r.1.status == Success ==> r.0.rateRanking == CheckRateLimit(st.rateRanking, ip, RateLimitMaxRanking, now).0
  {
    var limited := CheckRateLimit(st.rateRanking, ip, RateLimitMaxRanking, now);
    if !limited.1 then (st, Refuse(TooManyRequests))
    else (st.(rateRanking := limited.0), Response(Success, RankingPayload(Store.Ranking(st.games, today))))
  }

  /** Every request of the API; the routes that `requireAdmin` guards answer 401 to a wrong key. */
  function Handle(st: ServerState, adminKey: string, req: Request): (r: (ServerState, Response))
    ensures r.1.status != Success ==> r.0 == st
    ensures r.1.status == Unauthorized <==> req.IsAdminRoute() && !RequireAdmin(adminKey, req.headers)
    ensures r.1.status == TooManyRequests ==> req.PostAward? || req.GetRanking?
    ensures !req.IsAdminRoute() ==> r.0.manual == st.manual
  {
    if req.IsAdminRoute() && !RequireAdmin(adminKey, req.headers) then (st, Refuse(Unauthorized))
    else
      match req
      case GetConfig => (st, Response(Success, ConfigPayload(ReadConfig(st.config))))
      case PostConfigRequest(_, body) =>
        var c := PostConfig(ReadConfig(st.config), body);
        (st.(config := Some(c)), Response(Success, ConfigPayload(c)))
      case GetPrizes => (st, Response(Success, PrizesPayload(st.prizes)))
      case PostPrize(_, body, freshId) => CreatePrize(st, body, freshId)
      case PatchPrize(_, id, body) => UpdatePrize(st, id, body)
      case DeletePrize(_, id) => RemovePrize(st, id)
      case GetManualStock(_) => (st, Response(Success, ItemsPayload(st.manual)))
      case PostManualItem(_, body, freshId) => CreateItem(st, body, freshId)
      case PatchManualItem(_, id, body) => UpdateItem(st, id, body)
      case DeleteManualItem(_, id) => RemoveItem(st, id)
      case WithdrawManualItem(_, id) => WithdrawItem(st, id)
      case PostAward(ip, now, body, gameId, today) => Award(st, ip, now, body, gameId, today)
      case GetRanking(ip, now, today) => RankingRoute(st, ip, now, today)
  }

  /** What every request keeps true of the server's state. */
  predicate Invariant(st: ServerState) {
    && PrizesSane(st.prizes)
    && Store.PrizeIdsUnique(st.prizes)
    && Store.QuantitiesNonNegative(st.manual)
    && CountsAtMost(st.rateAward, RateLimitMaxAward)
    && CountsAtMost(st.rateRanking, RateLimitMaxRanking)
  }

  /**
   * Starting from a state where every prize is named with stock and
   * threshold not negative and ids distinct, no quantity negative and no
   * address over its limit, no request can break any of that.
   */
  lemma HandleKeepsInvariant(st: ServerState, adminKey: string, req: Request)
    requires Invariant(st)
    ensures Invariant(Handle(st, adminKey, req).0)
  {
    if !(req.IsAdminRoute() && !RequireAdmin(adminKey, req.headers)) {
      match req
      case PostPrize(_, body, freshId) => CreatePrizeKeepsInvariant(st, body, freshId);
      case PatchPrize(_, id, body) =>
      case DeletePrize(_, id) => RemovePrizeKeepsInvariant(st, id);
      case PostManualItem(_, body, freshId) =>
      case PatchManualItem(_, id, body) =>
      case DeleteManualItem(_, id) => RemoveItemKeepsInvariant(st, id);
      case WithdrawManualItem(_, id) =>
      case PostAward(ip, now, body, gameId, today) => AwardKeepsInvariant(st, ip, now, body, gameId, today);
      case GetRanking(ip, now, today) => CheckRateLimitKeepsBound(st.rateRanking, ip, RateLimitMaxRanking, now);
      case _ =>
    }
  }

  lemma CreatePrizeKeepsInvariant(st: ServerState, body: Store.PrizeBody, freshId: string)
    requires Invariant(st)
    ensures Invariant(CreatePrize(st, body, freshId).0)
  {
    var r := CreatePrize(st, body, freshId);
    if r.1.status == Success {
      assert Store.AddPrize(st.prizes, body, freshId).Ok?;
    }
  }

  lemma RemovePrizeKeepsInvariant(st: ServerState, id: string)
    requires Invariant(st)
    ensures Invariant(RemovePrize(st, id).0)
  {
    Store.FilterKeepsIdsUnique(st.prizes, Store.OtherPrizeId(id));
    FilterKeepsPrizesSane(st.prizes, Store.OtherPrizeId(id));
  }

  lemma RemoveItemKeepsInvariant(st: ServerState, id: string)
    requires Invariant(st)
    ensures Invariant(RemoveItem(st, id).0)
  {
    var r := RemoveItem(st, id);
    assert forall i :: 0 <= i < |r.0.manual| ==> r.0.manual[i] in multiset(st.manual);
  }

  lemma FilterKeepsPrizesSane(prizes: seq<Store.Prize>, keep: Store.Prize -> bool)
    requires PrizesSane(prizes)
    ensures PrizesSane(Seqs.Filter(prizes, keep))
  {
    Seqs.FilterContents(prizes, keep);
    var f := Seqs.Filter(prizes, keep);
    assert forall i :: 0 <= i < |f| ==> f[i] in multiset(prizes);
  }

  lemma AwardKeepsInvariant(st: ServerState, ip: string, now: int, body: AwardBody, gameId: string, today: int)
    requires Invariant(st)
    ensures Invariant(Award(st, ip, now, body, gameId, today).0)
  {
    CheckRateLimitKeepsBound(st.rateAward, ip, RateLimitMaxAward, now);
    AwardPrizeKeepsSane(st.prizes, ReadConfig(st.config).stockWithGame, Store.FieldInt(body.points, 0));
  }

  lemma AwardPrizeKeepsSane(prizes: seq<Store.Prize>, stockWithGame: bool, points: int)
    requires PrizesSane(prizes) && Store.PrizeIdsUnique(prizes)
    ensures var out := Store.AwardPrize(prizes, stockWithGame, points);
      PrizesSane(out.prizes) && Store.PrizeIdsUnique(out.prizes)
  {
    var out := Store.AwardPrize(prizes, stockWithGame, points);
    assert forall i :: 0 <= i < |prizes| ==> out.prizes[i].id == prizes[i].id;
  }
}
