/**
 * The counting behind the statistics dashboard (src/dashboard.js): totals
 * per profile and distinct players, cards per asset and zone (the heatmap)
 * and per asset and profile (the matrix), and the busiest players and
 * assets per zone. Every card of every game is read as one sighting.
 */
module Dashboard {
  import opened Wrappers
  import opened Text
  import Utils
  import Seqs
  import Store

  type Game = Store.GameRecord
  type Card = Store.CardRecord

  /** The filter value of the heatmap buttons that keeps every game. */
  const AllProfiles: string := "ALL"

  /** `(g.profile || "").toUpperCase()` */
  function ProfileKeyOf(g: Game): string {
    ToUpper(g.profile)
  }

  /** The profile an upper-cased key names, if it is one of the three. */
  function ProfileNamed(s: string): (p: Option<Utils.Profile>)
    ensures p.Some? ==> Utils.ProfileKey(p.value) == s
  {
    if s == "CONSERVADOR" then Some(Utils.Conservador)
    else if s == "MODERADO" then Some(Utils.Moderado)
    else if s == "ARROJADO" then Some(Utils.Arrojado)
    else None
  }

  /** The zone a lower-cased zone name names, if it is one of the three. */
  function ZoneNamed(s: string): (z: Option<Utils.Zone>)
    ensures z.Some? ==> Utils.ZoneKey(z.value) == s
  {
    if s == "defense" then Some(Utils.Defense)
    else if s == "midfield" then Some(Utils.Midfield)
    else if s == "attack" then Some(Utils.Attack)
    else None
  }

  /** Each profile's key and each zone's name is recognised as that profile or zone. */
  lemma NamedKeysRoundTrip(p: Utils.Profile, z: Utils.Zone)
    ensures ProfileNamed(Utils.ProfileKey(p)) == Some(p)
    ensures ZoneNamed(Utils.ZoneKey(z)) == Some(z)
  {
  }

  /** `String(c.assetId ?? c.assetName ?? "?")` */
  function AssetKey(c: Card): string {
    match c.assetId
    case Some(id) => id
    case None => c.assetName.GetOr("?")
  }

  /**
   * One card of one game: the game's profile key and the profile it names,
   * if any; the card's asset key; and its zone, if recognised.
   */
  datatype Sighting = Sighting(profileKey: string, profile: Option<Utils.Profile>, key: string, zone: Option<Utils.Zone>)

  /** How card `c` of game `g` is read: the game's profile, the card's asset key and its zone. */
  function SightingOf(g: Game, c: Card): Sighting {
    var key := ProfileKeyOf(g);
    Sighting(key, ProfileNamed(key), AssetKey(c), ZoneNamed(ToLower(c.zone)))
  }

  /** The cards of one game, in order. */
  function SightingsOf(g: Game): (ss: seq<Sighting>)
    ensures |ss| == |g.cards|
    ensures forall i :: 0 <= i < |ss| ==>
      && ss[i].profileKey == ProfileKeyOf(g) && ss[i].profile == ProfileNamed(ss[i].profileKey)
      && ss[i].key == AssetKey(g.cards[i]) && ss[i].zone == ZoneNamed(ToLower(g.cards[i].zone))
  {
    seq(|g.cards|, i requires 0 <= i < |g.cards| => SightingOf(g, g.cards[i]))
  }

  /** The cards of all games, game by game: the nested `forEach` of the source. */
  function Sightings(games: seq<Game>): (ss: seq<Sighting>)
    ensures forall i :: 0 <= i < |ss| ==> exists j :: 0 <= j < |games| && ss[i].profileKey == ProfileKeyOf(games[j])
    ensures forall i :: 0 <= i < |ss| ==> ss[i].profile == ProfileNamed(ss[i].profileKey)
    decreases |games|
  {
    if |games| == 0 then []
    else
      var head := SightingsOf(games[0]);
      var rest := Sightings(games[1..]);
      var ss := head + rest;
      assert forall i :: |head| <= i < |ss| ==> ss[i] == rest[i - |head|];
      assert forall j :: 0 <= j < |games| - 1 ==> games[1..][j] == games[j + 1];
      ss
  }

  /** Reading two runs of games one after the other reads their cards one after the other. */
  lemma {:induction false} SightingsAppend(a: seq<Game>, b: seq<Game>)
    ensures Sightings(a + b) == Sightings(a) + Sightings(b)
    decreases |a|
  {
    if |a| > 0 {
      SightingsAppend(a[1..], b);
      assert (a + b)[1..] == a[1..] + b;
    } else {
      assert a + b == b;
    }
  }

  /** Every card of every game is read, as `SightingOf` reads it, and nothing else is. */
  lemma {:induction false} SightingsAreCards(games: seq<Game>, j: nat, i: nat)
    requires j < |games| && i < |games[j].cards|
    ensures SightingOf(games[j], games[j].cards[i]) in Sightings(games)
    decreases |games|
  {
    if j == 0 {
      assert SightingsOf(games[0])[i] == SightingOf(games[0], games[0].cards[i]);
    } else {
      SightingsAreCards(games[1..], j - 1, i);
      assert games[1..][j - 1] == games[j];
    }
  }

  /** Every sighting is the reading of some card of some game. */
  lemma {:induction false} SightingFromCard(games: seq<Game>, k: nat) returns (j: nat, i: nat)
    requires k < |Sightings(games)|
    ensures j < |games| && i < |games[j].cards|
    ensures Sightings(games)[k] == SightingOf(games[j], games[j].cards[i])
    decreases |games|
  {
    var head := SightingsOf(games[0]);
    if k < |head| {
      j, i := 0, k;
    } else {
      var j', i' := SightingFromCard(games[1..], k - |head|);
      assert games[1..][j'] == games[j' + 1];
      j, i := j' + 1, i';
    }
  }

  function ProfileIs(key: string): Game -> bool {
    (g: Game) => ProfileKeyOf(g) == key
  }

  /** The games the heatmap and the matrix read under a profile filter. */
  function FilterGames(games: seq<Game>, filter: string): (r: seq<Game>)
    ensures filter != AllProfiles ==> forall i :: 0 <= i < |r| ==> ProfileKeyOf(r[i]) == filter
    ensures filter != AllProfiles ==>
      forall i :: 0 <= i < |games| && ProfileKeyOf(games[i]) == filter ==> games[i] in r
    ensures filter != AllProfiles ==> |r| == Seqs.CountIf(games, ProfileIs(filter))
    ensures multiset(r) <= multiset(games)
    ensures filter == AllProfiles ==> r == games
  {
    if filter == AllProfiles then games
    else
      Seqs.FilterContents(games, ProfileIs(filter));
      Seqs.Filter(games, ProfileIs(filter))
  }

  /** Under a profile filter, every card the heatmap or the matrix reads comes from a game of that profile. */
  lemma FilteredSightings(games: seq<Game>, filter: string)
    requires filter != AllProfiles
    ensures var ss := Sightings(FilterGames(games, filter));
      forall i :: 0 <= i < |ss| ==> ss[i].profileKey == filter
  {
    var fs := FilterGames(games, filter);
    var ss := Sightings(fs);
    forall i | 0 <= i < |ss|
      ensures ss[i].profileKey == filter
    {
      var j :| 0 <= j < |fs| && ss[i].profileKey == ProfileKeyOf(fs[j]);
    }
  }

  // ---------------------------------------------------------------------
  // renderStats

  /** The name a game counts under among distinct players: trimmed, upper-cased, none when blank. */
  function NameKey(g: Game): (r: Option<string>)
    ensures r.Some? ==> r.value != []
    ensures r.None? <==> Trim(g.playerName) == []
  {
    var t := Trim(g.playerName);
    if t == [] then None else Some(ToUpper(t))
  }

  function NameKeyOf(): Game -> Option<string> {
    (g: Game) => NameKey(g)
  }

  /** Some game of `games` counts under the name `n`. */
  ghost predicate NamedIn(games: seq<Game>, n: string) {
    Seqs.Yields(games, NameKeyOf(), n)
  }

  datatype Stats = Stats(total: nat, uniqueNames: set<string>, conservador: nat, moderado: nat, arrojado: nat)

  /** `uniqueNames.add(name.toUpperCase())` when the trimmed name is not blank. */
  function AddName(names: set<string>, g: Game): set<string> {
    match NameKey(g)
    case Some(n) => names + {n}
    case None => names
  }

  /** One turn of the `forEach` of `renderStats()`. */
  function AddGame(st: Stats, g: Game): Stats {
    var p := ProfileKeyOf(g);
    Stats(st.total + 1, AddName(st.uniqueNames, g),
          st.conservador + (if p == "CONSERVADOR" then 1 else 0),
          st.moderado + (if p == "MODERADO" then 1 else 0),
          st.arrojado + (if p == "ARROJADO" then 1 else 0))
  }

  /**
   * The counting part of `renderStats()`: the number of games, the distinct
   * player names, and the games of each profile.
   */
  function RenderStats(games: seq<Game>): (s: Stats)
    ensures s.total == |games|
    ensures s.conservador == Seqs.CountIf(games, ProfileIs("CONSERVADOR"))
    ensures s.moderado == Seqs.CountIf(games, ProfileIs("MODERADO"))
    ensures s.arrojado == Seqs.CountIf(games, ProfileIs("ARROJADO"))
    ensures s.conservador + s.moderado + s.arrojado <= s.total
    ensures forall n :: n in s.uniqueNames <==> NamedIn(games, n)
    ensures [] !in s.uniqueNames
    ensures |s.uniqueNames| <= |games|
    decreases |games|
  {
    if |games| == 0 then Stats(0, {}, 0, 0, 0)
    else
      var rest := RenderStats(games[1..]);
      NamesStep(games, rest.uniqueNames);
      ProfileCountsAdd(games);
      AddGame(rest, games[0])
  }

  lemma NamesStep(games: seq<Game>, names: set<string>)
    requires |games| > 0
    requires forall n :: n in names <==> NamedIn(games[1..], n)
    requires |names| <= |games| - 1
    ensures forall n :: n in AddName(names, games[0]) <==> NamedIn(games, n)
    ensures |AddName(names, games[0])| <= |games|
  {
    forall n
      ensures NamedIn(games, n) <==> NameKeyOf()(games[0]) == Some(n) || NamedIn(games[1..], n)
    {
      Seqs.YieldsCons(games, NameKeyOf(), n);
    }
  }

  /** No two profile keys are the same text, so a game counts for at most one profile. */
  lemma ProfileCountsAdd(games: seq<Game>)
    ensures Seqs.CountIf(games, ProfileIs("CONSERVADOR")) + Seqs.CountIf(games, ProfileIs("MODERADO"))
      + Seqs.CountIf(games, ProfileIs("ARROJADO")) <= |games|
    decreases |games|
  {
    if |games| > 0 {
      ProfileCountsAdd(games[1..]);
    }
  }

  /**
   * Two games whose player names differ only in case or surrounding blanks
   * count once among distinct players: there are fewer names than games.
   */
  lemma SameNameCountsOnce(games: seq<Game>, i: nat, j: nat)
    requires i < |games| && j < |games| && i != j
    requires Trim(games[i].playerName) != []
    requires ToUpper(Trim(games[i].playerName)) == ToUpper(Trim(games[j].playerName))
    ensures |RenderStats(games).uniqueNames| < |games|
  {
    var rest := Seqs.RemoveAt(games, j);
    NamesWithout(games, i, j);
    assert |RenderStats(rest).uniqueNames| <= |rest|;
  }

  /** Leaving out game `j` loses no name when game `i` counts under the same one. */
  lemma NamesWithout(games: seq<Game>, i: nat, j: nat)
    requires i < |games| && j < |games| && i != j
    requires NameKey(games[i]) == NameKey(games[j])
    ensures RenderStats(Seqs.RemoveAt(games, j)).uniqueNames == RenderStats(games).uniqueNames
  {
    var fewer := RenderStats(Seqs.RemoveAt(games, j)).uniqueNames;
    var all := RenderStats(games).uniqueNames;
    assert NameKeyOf()(games[j]) == NameKeyOf()(games[i]);
    forall n
      ensures n in fewer <==> n in all
    {
      Seqs.YieldsRemoveAt(games, NameKeyOf(), n, i, j);
    }
    SameMembers(fewer, all);
  }

  lemma SameMembers<T>(a: set<T>, b: set<T>)
    requires forall n :: n in a <==> n in b
    ensures a == b
  {
  }

  // ---------------------------------------------------------------------
  // buildHeatmapData

  /**
   * The names a fresh JavaScript object `{}` already answers through
   * `Object.prototype`. For such a key `!map[key]` is false, so no own row is
   * created and `Object.entries` never lists it.
   */
  const InheritedKeys: set<string> := {
    "constructor", "__proto__", "__defineGetter__", "__defineSetter__", "__lookupGetter__",
    "__lookupSetter__", "hasOwnProperty", "isPrototypeOf", "propertyIsEnumerable",
    "toLocaleString", "toString", "valueOf"
  }

  /** Cards of one asset in each zone: a row of the heatmap. */
  datatype ZoneCounts = ZoneCounts(defense: nat, midfield: nat, attack: nat)

  /** A card of asset `k` in zone `z`. */
  function SeenAt(k: string, z: Utils.Zone): Sighting -> bool {
    (s: Sighting) => s.key == k && s.zone == Some(z)
  }

  /** A card of asset `k` in any recognised zone. */
  function PlacedAny(k: string): Sighting -> bool {
    (s: Sighting) => s.key == k && s.zone.Some?
  }

  /** The row of asset `k` counted directly: the reference the incremental map is held to. */
  function ZoneCountsOf(ss: seq<Sighting>, k: string): ZoneCounts {
    ZoneCounts(Seqs.CountIf(ss, SeenAt(k, Utils.Defense)),
               Seqs.CountIf(ss, SeenAt(k, Utils.Midfield)),
               Seqs.CountIf(ss, SeenAt(k, Utils.Attack)))
  }

  function Bump(c: ZoneCounts, z: Utils.Zone): ZoneCounts {
    match z
    case Defense => c.(defense := c.defense + 1)
    case Midfield => c.(midfield := c.midfield + 1)
    case Attack => c.(attack := c.attack + 1)
  }

  /**
   * One card read into the heatmap: skipped in an unknown zone or under a
   * key in `skip` (the inherited keys), otherwise its row is created if
   * needed and bumped.
   */
  function HeatStep(s: Sighting, m: map<string, ZoneCounts>, skip: set<string>): map<string, ZoneCounts> {
    match s.zone
    case None => m
    case Some(z) =>
      if s.key in skip then m
      else m[s.key := Bump(if s.key in m then m[s.key] else ZoneCounts(0, 0, 0), z)]
  }

  /**
   * The heatmap: a row for each asset with a card in a recognised zone,
   * holding its cards per zone, except for an inherited key.
   */
  function HeatmapOf(ss: seq<Sighting>): (m: map<string, ZoneCounts>)
    ensures forall k :: k in m <==> k !in InheritedKeys && Seqs.CountIf(ss, PlacedAny(k)) > 0
    ensures forall k :: k in m ==> m[k] == ZoneCountsOf(ss, k)
    decreases |ss|
  {
    if |ss| == 0 then map[]
    else
      var rest := HeatmapOf(ss[1..]);
      HeatmapStep(ss, rest, InheritedKeys);
      HeatStep(ss[0], rest, InheritedKeys)
  }

  lemma HeatmapStep(ss: seq<Sighting>, rest: map<string, ZoneCounts>, skip: set<string>)
    requires |ss| > 0
    requires forall k :: k in rest <==> k !in skip && Seqs.CountIf(ss[1..], PlacedAny(k)) > 0
    requires forall k :: k in rest ==> rest[k] == ZoneCountsOf(ss[1..], k)
    ensures forall k :: k in HeatStep(ss[0], rest, skip) <==> k !in skip && Seqs.CountIf(ss, PlacedAny(k)) > 0
    ensures forall k :: k in HeatStep(ss[0], rest, skip) ==> HeatStep(ss[0], rest, skip)[k] == ZoneCountsOf(ss, k)
  {
    forall k
      ensures k in HeatStep(ss[0], rest, skip) <==> k !in skip && Seqs.CountIf(ss, PlacedAny(k)) > 0
      ensures k in HeatStep(ss[0], rest, skip) ==> HeatStep(ss[0], rest, skip)[k] == ZoneCountsOf(ss, k)
    {
      HeatmapStepAt(ss, rest, skip, k);
    }
  }

  lemma HeatmapStepAt(ss: seq<Sighting>, rest: map<string, ZoneCounts>, skip: set<string>, k: string)
    requires |ss| > 0
    requires k in rest <==> k !in skip && Seqs.CountIf(ss[1..], PlacedAny(k)) > 0
    requires k in rest ==> rest[k] == ZoneCountsOf(ss[1..], k)
    ensures k in HeatStep(ss[0], rest, skip) <==> k !in skip && Seqs.CountIf(ss, PlacedAny(k)) > 0
    ensures k in HeatStep(ss[0], rest, skip) ==> HeatStep(ss[0], rest, skip)[k] == ZoneCountsOf(ss, k)
  {
    var s := ss[0];
    var tail := ss[1..];
    var m := HeatStep(s, rest, skip);
    Seqs.CountIfCons(ss, PlacedAny(k));
    if k in skip {
      assert k !in m;
    } else if s.zone.None? || s.key != k {
      UnchangedRow(ss, k);
      assert k in m <==> k in rest;
      assert k in m ==> m[k] == rest[k];
    } else {
      var c := if k in rest then rest[k] else ZoneCounts(0, 0, 0);
      if k !in rest {
        UnplacedUnseen(tail, k);
      }
      BumpedRow(ss, k, c);
    }
  }

  /** A card of another asset, or in no recognised zone, leaves the row of `k` as it was. */
  lemma UnchangedRow(ss: seq<Sighting>, k: string)
    requires |ss| > 0 && (ss[0].zone.None? || ss[0].key != k)
    ensures ZoneCountsOf(ss, k) == ZoneCountsOf(ss[1..], k)
  {
    Seqs.CountIfCons(ss, SeenAt(k, Utils.Defense));
    Seqs.CountIfCons(ss, SeenAt(k, Utils.Midfield));
    Seqs.CountIfCons(ss, SeenAt(k, Utils.Attack));
  }

  /** A card of asset `k` in zone `z` adds one to the `z` column of its row. */
  lemma BumpedRow(ss: seq<Sighting>, k: string, c: ZoneCounts)
    requires |ss| > 0 && ss[0].zone.Some? && ss[0].key == k
    requires c == ZoneCountsOf(ss[1..], k)
    ensures Bump(c, ss[0].zone.value) == ZoneCountsOf(ss, k)
  {
    Seqs.CountIfCons(ss, SeenAt(k, Utils.Defense));
    Seqs.CountIfCons(ss, SeenAt(k, Utils.Midfield));
    Seqs.CountIfCons(ss, SeenAt(k, Utils.Attack));
  }

  /** An asset with no card in a recognised zone has no card in any zone. */
  lemma UnplacedUnseen(ss: seq<Sighting>, k: string)
    requires Seqs.CountIf(ss, PlacedAny(k)) == 0
    ensures ZoneCountsOf(ss, k) == ZoneCounts(0, 0, 0)
  {
    Seqs.CountIfImplies(ss, SeenAt(k, Utils.Defense), PlacedAny(k));
    Seqs.CountIfImplies(ss, SeenAt(k, Utils.Midfield), PlacedAny(k));
    Seqs.CountIfImplies(ss, SeenAt(k, Utils.Attack), PlacedAny(k));
  }

  /** `buildHeatmapData()` under the profile filter. */
  function BuildHeatmapData(games: seq<Game>, filter: string): (m: map<string, ZoneCounts>)
    ensures var ss := Sightings(FilterGames(games, filter));
      && (forall k :: k in m <==> k !in InheritedKeys && Seqs.CountIf(ss, PlacedAny(k)) > 0)
      && (forall k :: k in m ==> m[k] == ZoneCountsOf(ss, k))
  {
    HeatmapOf(Sightings(FilterGames(games, filter)))
  }

  // ---------------------------------------------------------------------
  // buildMatrixAssetProfile

  /** Cards of one asset in games of each profile: a row of the matrix. */
  datatype ProfileCounts = ProfileCounts(conservador: nat, moderado: nat, arrojado: nat)

  /** The `total` column: the three profile columns added up. */
  function Total(c: ProfileCounts): nat {
    c.conservador + c.moderado + c.arrojado
  }

  /** A card of asset `k` in a game of profile `p`. */
  function SeenBy(k: string, p: Utils.Profile): Sighting -> bool {
    (s: Sighting) => s.key == k && s.profile == Some(p)
  }

  /** A card of asset `k` in a game of any recognised profile. */
  function PlayedByAny(k: string): Sighting -> bool {
    (s: Sighting) => s.key == k && s.profile.Some?
  }

  /** The row of asset `k` counted directly. */
  function ProfileCountsOf(ss: seq<Sighting>, k: string): ProfileCounts {
    ProfileCounts(Seqs.CountIf(ss, SeenBy(k, Utils.Conservador)),
                  Seqs.CountIf(ss, SeenBy(k, Utils.Moderado)),
                  Seqs.CountIf(ss, SeenBy(k, Utils.Arrojado)))
  }

  function BumpProfile(c: ProfileCounts, p: Utils.Profile): ProfileCounts {
    match p
    case Conservador => c.(conservador := c.conservador + 1)
    case Moderado => c.(moderado := c.moderado + 1)
    case Arrojado => c.(arrojado := c.arrojado + 1)
  }

  /**
   * One card read into the matrix: skipped when its game has no recognised
   * profile or its key is in `skip` (the inherited keys).
   */
  function MatrixStepOf(s: Sighting, m: map<string, ProfileCounts>, skip: set<string>): map<string, ProfileCounts> {
    match s.profile
    case None => m
    case Some(p) =>
      if s.key in skip then m
      else m[s.key := BumpProfile(if s.key in m then m[s.key] else ProfileCounts(0, 0, 0), p)]
  }

  /**
   * The matrix: a row for each asset played in a game of a recognised
   * profile, holding its cards per profile, except for an inherited key.
   */
  function MatrixOf(ss: seq<Sighting>): (m: map<string, ProfileCounts>)
    ensures forall k :: k in m <==> k !in InheritedKeys && Seqs.CountIf(ss, PlayedByAny(k)) > 0
    ensures forall k :: k in m ==> m[k] == ProfileCountsOf(ss, k)
    decreases |ss|
  {
    if |ss| == 0 then map[]
    else
      var rest := MatrixOf(ss[1..]);
      MatrixStep(ss, rest, InheritedKeys);
      MatrixStepOf(ss[0], rest, InheritedKeys)
  }

  lemma MatrixStep(ss: seq<Sighting>, rest: map<string, ProfileCounts>, skip: set<string>)
    requires |ss| > 0
    requires forall k :: k in rest <==> k !in skip && Seqs.CountIf(ss[1..], PlayedByAny(k)) > 0
    requires forall k :: k in rest ==> rest[k] == ProfileCountsOf(ss[1..], k)
    ensures forall k :: k in MatrixStepOf(ss[0], rest, skip) <==> k !in skip && Seqs.CountIf(ss, PlayedByAny(k)) > 0
    ensures forall k :: k in MatrixStepOf(ss[0], rest, skip) ==> MatrixStepOf(ss[0], rest, skip)[k] == ProfileCountsOf(ss, k)
  {
    forall k
      ensures k in MatrixStepOf(ss[0], rest, skip) <==> k !in skip && Seqs.CountIf(ss, PlayedByAny(k)) > 0
      ensures k in MatrixStepOf(ss[0], rest, skip) ==> MatrixStepOf(ss[0], rest, skip)[k] == ProfileCountsOf(ss, k)
    {
      MatrixStepAt(ss, rest, skip, k);
    }
  }

  lemma MatrixStepAt(ss: seq<Sighting>, rest: map<string, ProfileCounts>, skip: set<string>, k: string)
    requires |ss| > 0
    requires k in rest <==> k !in skip && Seqs.CountIf(ss[1..], PlayedByAny(k)) > 0
    requires k in rest ==> rest[k] == ProfileCountsOf(ss[1..], k)
    ensures k in MatrixStepOf(ss[0], rest, skip) <==> k !in skip && Seqs.CountIf(ss, PlayedByAny(k)) > 0
    ensures k in MatrixStepOf(ss[0], rest, skip) ==> MatrixStepOf(ss[0], rest, skip)[k] == ProfileCountsOf(ss, k)
  {
    var s := ss[0];
    var tail := ss[1..];
    var m := MatrixStepOf(s, rest, skip);
    Seqs.CountIfCons(ss, PlayedByAny(k));
    if k in skip {
      assert k !in m;
    } else if s.profile.None? || s.key != k {
      UnchangedProfileRow(ss, k);
      assert k in m <==> k in rest;
      assert k in m ==> m[k] == rest[k];
    } else {
      var c := if k in rest then rest[k] else ProfileCounts(0, 0, 0);
      if k !in rest {
        UnplayedUnseen(tail, k);
      }
      BumpedProfileRow(ss, k, c);
    }
  }

  /** A card of another asset, or from a game of no recognised profile, leaves the row of `k` as it was. */
  lemma UnchangedProfileRow(ss: seq<Sighting>, k: string)
    requires |ss| > 0 && (ss[0].profile.None? || ss[0].key != k)
    ensures ProfileCountsOf(ss, k) == ProfileCountsOf(ss[1..], k)
  {
    Seqs.CountIfCons(ss, SeenBy(k, Utils.Conservador));
    Seqs.CountIfCons(ss, SeenBy(k, Utils.Moderado));
    Seqs.CountIfCons(ss, SeenBy(k, Utils.Arrojado));
  }

  /** A card of asset `k` from a game of profile `p` adds one to the `p` column of its row. */
  lemma BumpedProfileRow(ss: seq<Sighting>, k: string, c: ProfileCounts)
    requires |ss| > 0 && ss[0].profile.Some? && ss[0].key == k
    requires c == ProfileCountsOf(ss[1..], k)
    ensures BumpProfile(c, ss[0].profile.value) == ProfileCountsOf(ss, k)
  {
    Seqs.CountIfCons(ss, SeenBy(k, Utils.Conservador));
    Seqs.CountIfCons(ss, SeenBy(k, Utils.Moderado));
    Seqs.CountIfCons(ss, SeenBy(k, Utils.Arrojado));
  }

  /** An asset never played in a game of a recognised profile has no card in any profile's column. */
  lemma UnplayedUnseen(ss: seq<Sighting>, k: string)
    requires Seqs.CountIf(ss, PlayedByAny(k)) == 0
    ensures ProfileCountsOf(ss, k) == ProfileCounts(0, 0, 0)
  {
    Seqs.CountIfImplies(ss, SeenBy(k, Utils.Conservador), PlayedByAny(k));
    Seqs.CountIfImplies(ss, SeenBy(k, Utils.Moderado), PlayedByAny(k));
    Seqs.CountIfImplies(ss, SeenBy(k, Utils.Arrojado), PlayedByAny(k));
  }

  /** `buildMatrixAssetProfile()` under the profile filter. */
  function BuildMatrixAssetProfile(games: seq<Game>, filter: string): (m: map<string, ProfileCounts>)
    ensures var ss := Sightings(FilterGames(games, filter));
      && (forall k :: k in m <==> k !in InheritedKeys && Seqs.CountIf(ss, PlayedByAny(k)) > 0)
      && (forall k :: k in m ==> m[k] == ProfileCountsOf(ss, k))
  {
    MatrixOf(Sightings(FilterGames(games, filter)))
  }

  /** Filtered to one profile, the matrix has cards only in that profile's column. */
  lemma MatrixUnderFilterHasOneColumn(games: seq<Game>, p: Utils.Profile, k: string)
    requires k in BuildMatrixAssetProfile(games, Utils.ProfileKey(p))
    ensures var c := BuildMatrixAssetProfile(games, Utils.ProfileKey(p))[k];
      && Total(c) > 0
      && (p != Utils.Conservador ==> c.conservador == 0)
      && (p != Utils.Moderado ==> c.moderado == 0)
      && (p != Utils.Arrojado ==> c.arrojado == 0)
  {
    var f := Utils.ProfileKey(p);
    var ss := Sightings(FilterGames(games, f));
    FilteredSightings(games, f);
    NamedKeysRoundTrip(p, Utils.Defense);
    OneProfileColumn(ss, p, k);
  }

  /** Over cards all from games of profile `p`, an asset counted at all is counted in `p`'s column only. */
  lemma OneProfileColumn(ss: seq<Sighting>, p: Utils.Profile, k: string)
    requires forall i :: 0 <= i < |ss| ==> ss[i].profile == Some(p)
    requires Seqs.CountIf(ss, PlayedByAny(k)) > 0
    ensures var c := ProfileCountsOf(ss, k);
      && Total(c) > 0
      && (p != Utils.Conservador ==> c.conservador == 0)
      && (p != Utils.Moderado ==> c.moderado == 0)
      && (p != Utils.Arrojado ==> c.arrojado == 0)
  {
    Seqs.CountIfImplies(ss, PlayedByAny(k), SeenBy(k, p));
    forall q | q != p
      ensures Seqs.CountIf(ss, SeenBy(k, q)) == 0
    {
      Seqs.CountIfExtremes(ss, SeenBy(k, q));
    }
  }

  // ---------------------------------------------------------------------
  // Tallies in first-appearance order: renderByUser and renderTopByZone

  /** A row of a top list: a key and how often it occurred. */
  datatype Tally = Tally(key: string, count: nat)

  function KeyMatches<T>(key: T -> string, k: string): T -> bool {
    (x: T) => key(x) == k
  }

  function HasKey(k: string): Tally -> bool {
    (t: Tally) => t.key == k
  }

  function ByCount(): Tally -> int {
    (t: Tally) => t.count
  }

  predicate DistinctKeys(rows: seq<Tally>) {
    forall i, j :: 0 <= i < j < |rows| ==> rows[i].key != rows[j].key
  }

  /** `rows` counts the keys of `items`: one row per key that occurs, with its number of occurrences. */
  predicate TallyFor<T>(rows: seq<Tally>, items: seq<T>, key: T -> string) {
    && DistinctKeys(rows)
    && (forall i :: 0 <= i < |rows| ==> rows[i].count == Seqs.CountIf(items, KeyMatches(key, rows[i].key)) && rows[i].count > 0)
    && (forall j :: 0 <= j < |items| ==> exists i :: 0 <= i < |rows| && rows[i].key == key(items[j]))
  }

  /** `find(x => x.id === k)`, then `count++` on the row found or `push({id: k, count: 1})`. */
  function AddKey(rows: seq<Tally>, k: string): (r: seq<Tally>)
    ensures |r| <= |rows| + 1
  {
    match Seqs.FindIndex(rows, HasKey(k))
    case Some(j) => rows[j := Tally(k, rows[j].count + 1)]
    case None => rows + [Tally(k, 1)]
  }

  /** The tally of `items`, rows in the order their keys first occur. */
  function TallyOf<T>(items: seq<T>, key: T -> string): (rows: seq<Tally>)
    ensures |rows| <= |items|
    ensures TallyFor(rows, items, key)
    decreases |items|
  {
    if |items| == 0 then []
    else
      var init := items[..|items| - 1];
      var x := items[|items| - 1];
      assert items == init + [x];
      var rows := TallyOf(init, key);
      AddKeyStep(rows, init, x, key);
      AddKey(rows, key(x))
  }

  lemma AddKeyStep<T>(rows: seq<Tally>, init: seq<T>, x: T, key: T -> string)
    requires TallyFor(rows, init, key)
    ensures TallyFor(AddKey(rows, key(x)), init + [x], key)
  {
    var k := key(x);
    forall y
      ensures Seqs.CountIf(init + [x], KeyMatches(key, y)) == Seqs.CountIf(init, KeyMatches(key, y)) + (if y == k then 1 else 0)
    {
      CountOneMore(init, x, KeyMatches(key, y));
    }
    match Seqs.FindIndex(rows, HasKey(k))
    case Some(j) => BumpRowStep(rows, init, x, key, j);
    case None => NewRowStep(rows, init, x, key);
  }

  lemma CountOneMore<T>(init: seq<T>, x: T, p: T -> bool)
    ensures Seqs.CountIf(init + [x], p) == Seqs.CountIf(init, p) + (if p(x) then 1 else 0)
  {
    Seqs.CountIfAppend(init, [x], p);
    assert [x][1..] == [];
  }

  /** A key already counted: its row goes up by one. */
  lemma BumpRowStep<T>(rows: seq<Tally>, init: seq<T>, x: T, key: T -> string, j: nat)
    requires TallyFor(rows, init, key)
    requires j < |rows| && rows[j].key == key(x)
    requires forall y :: Seqs.CountIf(init + [x], KeyMatches(key, y)) == Seqs.CountIf(init, KeyMatches(key, y)) + (if y == key(x) then 1 else 0)
    ensures TallyFor(rows[j := Tally(key(x), rows[j].count + 1)], init + [x], key)
  {
    var items := init + [x];
    var r := rows[j := Tally(key(x), rows[j].count + 1)];
    forall i | 0 <= i < |r|
      ensures r[i].count == Seqs.CountIf(items, KeyMatches(key, r[i].key)) && r[i].count > 0
    {
      if i != j {
        assert r[i] == rows[i];
      }
    }
    forall m | 0 <= m < |items|
      ensures exists i :: 0 <= i < |r| && r[i].key == key(items[m])
    {
      if m < |init| {
        assert items[m] == init[m];
        var i :| 0 <= i < |rows| && rows[i].key == key(init[m]);
        assert r[i].key == key(items[m]);
      } else {
        assert r[j].key == key(items[m]);
      }
    }
  }

  /** A key met for the first time: a new row with count one goes at the end. */
  lemma NewRowStep<T>(rows: seq<Tally>, init: seq<T>, x: T, key: T -> string)
    requires TallyFor(rows, init, key)
    requires forall i :: 0 <= i < |rows| ==> rows[i].key != key(x)
    requires forall y :: Seqs.CountIf(init + [x], KeyMatches(key, y)) == Seqs.CountIf(init, KeyMatches(key, y)) + (if y == key(x) then 1 else 0)
    ensures TallyFor(rows + [Tally(key(x), 1)], init + [x], key)
  {
    var k := key(x);
    var items := init + [x];
    var r := rows + [Tally(k, 1)];
    forall m | 0 <= m < |init|
      ensures key(init[m]) != k
    {
      var i :| 0 <= i < |rows| && rows[i].key == key(init[m]);
    }
    Seqs.CountIfExtremes(init, KeyMatches(key, k));
    forall i | 0 <= i < |r|
      ensures r[i].count == Seqs.CountIf(items, KeyMatches(key, r[i].key)) && r[i].count > 0
    {
      if i < |rows| {
        assert r[i] == rows[i];
      }
    }
    forall m | 0 <= m < |items|
      ensures exists i :: 0 <= i < |r| && r[i].key == key(items[m])
    {
      if m < |init| {
        assert items[m] == init[m];
        var i :| 0 <= i < |rows| && rows[i].key == key(init[m]);
        assert r[i].key == key(items[m]);
      } else {
        assert r[|rows|].key == key(items[m]);
      }
    }
  }

  /** Where key `k` first occurs in `items` (`|items|` when it never does). */
  function FirstAt<T>(items: seq<T>, key: T -> string, k: string): nat {
    match Seqs.FindIndex(items, KeyMatches(key, k))
    case Some(i) => i
    case None => |items|
  }

  /** Every row of a tally has a key that occurs in the items. */
  lemma RowKeyOccurs<T>(rows: seq<Tally>, items: seq<T>, key: T -> string, a: nat)
    requires TallyFor(rows, items, key) && a < |rows|
    ensures Seqs.FindIndex(items, KeyMatches(key, rows[a].key)).Some?
  {
    Seqs.CountIfExtremes(items, KeyMatches(key, rows[a].key));
  }

  /** The rows are in the order their keys first occur in `items`. */
  predicate InFirstOrder<T>(rows: seq<Tally>, items: seq<T>, key: T -> string) {
    forall a, b :: 0 <= a < b < |rows| ==> FirstAt(items, key, rows[a].key) < FirstAt(items, key, rows[b].key)
  }

  /** The rows of the tally are in the order their keys first occur in `items`. */
  lemma {:induction false} TallyOfFirstAppearance<T>(items: seq<T>, key: T -> string)
    ensures InFirstOrder(TallyOf(items, key), items, key)
    decreases |items|
  {
    if |items| > 0 {
      var init := items[..|items| - 1];
      var x := items[|items| - 1];
      assert items == init + [x];
      TallyOfFirstAppearance(init, key);
      AddKeyKeepsFirstOrder(TallyOf(init, key), init, x, key);
    }
  }

  lemma AddKeyKeepsFirstOrder<T>(rows: seq<Tally>, init: seq<T>, x: T, key: T -> string)
    requires TallyFor(rows, init, key) && InFirstOrder(rows, init, key)
    ensures InFirstOrder(AddKey(rows, key(x)), init + [x], key)
  {
    OldKeysFirstAtSame(rows, init, x, key);
    assert InFirstOrder(rows, init + [x], key);
    match Seqs.FindIndex(rows, HasKey(key(x)))
    case Some(j) =>
      BumpedRowKeepsFirstOrder(rows, init + [x], key, j, Tally(key(x), rows[j].count + 1));
    case None =>
      NewKeyFirstAtEnd(rows, init, x, key);
      NewRowKeepsFirstOrder(rows, init + [x], key, key(x), |init|);
  }

  /** A key that already has a row first occurs where it did before. */
  lemma OldKeysFirstAtSame<T>(rows: seq<Tally>, init: seq<T>, x: T, key: T -> string)
    requires TallyFor(rows, init, key)
    ensures forall a :: 0 <= a < |rows| ==> FirstAt(init + [x], key, rows[a].key) == FirstAt(init, key, rows[a].key) < |init|
  {
    forall a | 0 <= a < |rows|
      ensures FirstAt(init + [x], key, rows[a].key) == FirstAt(init, key, rows[a].key) < |init|
    {
      RowKeyOccurs(rows, init, key, a);
      Seqs.FindIndexSnoc(init, x, KeyMatches(key, rows[a].key));
    }
  }

  /** Changing the count of a row keeps the order. */
  lemma BumpedRowKeepsFirstOrder<T>(rows: seq<Tally>, items: seq<T>, key: T -> string, j: nat, t: Tally)
    requires j < |rows| && t.key == rows[j].key
    requires InFirstOrder(rows, items, key)
    ensures InFirstOrder(rows[j := t], items, key)
  {
    var r := rows[j := t];
    assert forall a :: 0 <= a < |r| ==> r[a].key == rows[a].key;
  }

  /** A row appended for a key that first occurs after all the others keeps the order. */
  lemma NewRowKeepsFirstOrder<T>(rows: seq<Tally>, items: seq<T>, key: T -> string, k: string, n: nat)
    requires forall a :: 0 <= a < |rows| ==> FirstAt(items, key, rows[a].key) < n
    requires FirstAt(items, key, k) == n
    requires InFirstOrder(rows, items, key)
    ensures InFirstOrder(rows + [Tally(k, 1)], items, key)
  {
    var r := rows + [Tally(k, 1)];
    assert forall a :: 0 <= a < |rows| ==> r[a] == rows[a];
  }

  /** A key with no row yet first occurs at the end. */
  lemma NewKeyFirstAtEnd<T>(rows: seq<Tally>, init: seq<T>, x: T, key: T -> string)
    requires TallyFor(rows, init, key)
    requires forall i :: 0 <= i < |rows| ==> rows[i].key != key(x)
    ensures FirstAt(init + [x], key, key(x)) == |init|
  {
    forall m | 0 <= m < |init|
      ensures !KeyMatches(key, key(x))(init[m])
    {
      var i :| 0 <= i < |rows| && rows[i].key == key(init[m]);
    }
    Seqs.FindIndexSnoc(init, x, KeyMatches(key, key(x)));
  }

  /** The first `n` rows after the stable sort by count, most first. */
  function TopRows(rows: seq<Tally>, n: nat): (r: seq<Tally>)
    ensures |r| == if |rows| <= n then |rows| else n
    ensures Seqs.SortedDesc(r, ByCount())
    ensures multiset(r) <= multiset(rows)
    ensures forall i :: 0 <= i < |r| ==> r[i] in rows
    ensures DistinctKeys(rows) ==> DistinctKeys(r)
  {
    var sorted := Seqs.SortDesc(rows, ByCount());
    var r := Seqs.Take(sorted, n);
    Seqs.TakeSubMultiset(sorted, n);
    assert forall i :: 0 <= i < |r| ==> r[i] in multiset(rows);
    SubTallyKeepsDistinct(r, rows);
    r
  }

  /**
   * Ties keep their order: the listed rows with count `v` are the first rows
   * with count `v`, in their original order, and all of them when fewer than
   * `n` rows are listed.
   */
  lemma TopRowsKeepTieOrder(rows: seq<Tally>, n: nat, v: int)
    ensures var ties := Seqs.Filter(rows, Seqs.KeyIs(ByCount(), v));
      var kept := Seqs.Filter(TopRows(rows, n), Seqs.KeyIs(ByCount(), v));
      && |kept| <= |ties|
      && kept == ties[..|kept|]
      && (|TopRows(rows, n)| < n ==> kept == ties)
  {
    var sorted := Seqs.SortDesc(rows, ByCount());
    Seqs.SortDescStable(rows, ByCount(), v);
    Seqs.FilterOfTake(sorted, n, Seqs.KeyIs(ByCount(), v));
    if |TopRows(rows, n)| < n {
      assert Seqs.Take(sorted, n) == sorted;
    }
  }

  /** Rows drawn from rows with distinct keys, none more often than there, have distinct keys too. */
  lemma SubTallyKeepsDistinct(r: seq<Tally>, rows: seq<Tally>)
    requires multiset(r) <= multiset(rows)
    ensures DistinctKeys(rows) ==> DistinctKeys(r)
  {
    forall i, j | DistinctKeys(rows) && 0 <= i < j < |r|
      ensures r[i].key != r[j].key
    {
      if r[i].key == r[j].key {
        assert r[i] in multiset(rows) && r[j] in multiset(rows);
        var a :| 0 <= a < |rows| && rows[a] == r[i];
        var b :| 0 <= b < |rows| && rows[b] == r[j];
        OnlyOnce(rows, a);
        TwiceIn(r, i, j, b == a);
        assert false;
      }
    }
  }

  /** A row of a tally with distinct keys occurs in it once. */
  lemma OnlyOnce(rows: seq<Tally>, a: nat)
    requires DistinctKeys(rows) && a < |rows|
    ensures multiset(rows)[rows[a]] == 1
  {
    var e := rows[a];
    assert rows == rows[..a] + [e] + rows[a + 1..];
    assert forall k :: 0 <= k < a ==> rows[..a][k].key != e.key;
    var tail := rows[a + 1..];
    assert forall k :: 0 <= k < |tail| ==> tail[k].key != e.key by {
      assert forall k :: 0 <= k < |tail| ==> tail[k] == rows[a + 1 + k];
    }
    assert e !in rows[..a] && e !in rows[a + 1..];
  }

  /** Two positions holding the same row make it occur at least twice. */
  lemma TwiceIn(r: seq<Tally>, i: nat, j: nat, same: bool)
    requires i < j < |r| && (same ==> r[i] == r[j])
    ensures same ==> multiset(r)[r[i]] >= 2
  {
    if same {
      assert r == r[..j] + [r[j]] + r[j + 1..];
      assert r[..j][i] == r[i];
    }
  }

  /** A key left out of a top list occurs no more often than the last row kept. */
  lemma TopRowsKeepBusiest(rows: seq<Tally>, n: nat, i: nat)
    requires n > 0 && i < |rows|
    ensures var r := TopRows(rows, n);
      rows[i] in r || (|r| == n && rows[i].count <= r[n - 1].count)
  {
    var sorted := Seqs.SortDesc(rows, ByCount());
    assert rows[i] in multiset(sorted);
    var k :| 0 <= k < |sorted| && sorted[k] == rows[i];
    Seqs.TakeKeepsTop(sorted, ByCount(), n, k);
  }

  /** `(g.playerName || "").trim() || "—"` */
  function UserKey(g: Game): string {
    var t := Trim(g.playerName);
    if t == [] then "—" else t
  }

  function UserKeyOf(): Game -> string {
    (g: Game) => UserKey(g)
  }

  const UserRows: nat := 50

  /**
   * The counting part of `renderByUser()`: players by number of games, most
   * first, at most fifty.
   */
  function RenderByUser(games: seq<Game>): (r: seq<Tally>)
    ensures |r| <= UserRows
    ensures Seqs.SortedDesc(r, ByCount())
    ensures forall i :: 0 <= i < |r| ==>
      r[i].count == Seqs.CountIf(games, KeyMatches(UserKeyOf(), r[i].key)) && r[i].count > 0
    ensures DistinctKeys(r)
    ensures var rows := TallyOf(games, UserKeyOf());
      multiset(r) <= multiset(rows) && |r| == if |rows| <= UserRows then |rows| else UserRows
  {
    TopRows(TallyOf(games, UserKeyOf()), UserRows)
  }

  /** A player missing from the list played no more games than the last player listed. */
  lemma ByUserKeepsBusiest(games: seq<Game>, g: Game)
    requires g in games
    ensures var r := RenderByUser(games);
      var n := Seqs.CountIf(games, KeyMatches(UserKeyOf(), UserKey(g)));
      (exists i :: 0 <= i < |r| && r[i].key == UserKey(g)) || (|r| == UserRows && n <= r[UserRows - 1].count)
  {
    var rows := TallyOf(games, UserKeyOf());
    var j :| 0 <= j < |games| && games[j] == g;
    var i :| 0 <= i < |rows| && rows[i].key == UserKeyOf()(games[j]);
    TopRowsKeepBusiest(rows, UserRows, i);
    var r := RenderByUser(games);
    if rows[i] in r {
      var m :| 0 <= m < |r| && r[m] == rows[i];
    }
  }

  /** The keys of the cards in zone `z`, in the order they are met. */
  function InZone(z: Utils.Zone): Sighting -> bool {
    (s: Sighting) => s.zone == Some(z)
  }

  function SightingKey(): Sighting -> string {
    (s: Sighting) => s.key
  }

  const ZoneRows: nat := 10

  /** Counting the keys of the cards in one zone is counting the cards of that key in that zone. */
  lemma {:induction false} ZoneTallyCounts(ss: seq<Sighting>, z: Utils.Zone, k: string)
    ensures Seqs.CountIf(Seqs.Filter(ss, InZone(z)), KeyMatches(SightingKey(), k)) == Seqs.CountIf(ss, SeenAt(k, z))
    decreases |ss|
  {
    if |ss| > 0 {
      ZoneTallyCounts(ss[1..], z, k);
      if InZone(z)(ss[0]) {
        var f := Seqs.Filter(ss[1..], InZone(z));
        assert ([ss[0]] + f)[1..] == f;
      }
    }
  }

  /**
   * `renderTopByZone()` for one zone, over every game whatever the filter:
   * the assets most often placed there, most first, at most ten.
   */
  function RenderTopByZone(games: seq<Game>, z: Utils.Zone): (r: seq<Tally>)
    ensures |r| <= ZoneRows
    ensures Seqs.SortedDesc(r, ByCount())
    ensures forall i :: 0 <= i < |r| ==>
      r[i].count == Seqs.CountIf(Sightings(games), SeenAt(r[i].key, z)) && r[i].count > 0
    ensures DistinctKeys(r)
    ensures var rows := TallyOf(Seqs.Filter(Sightings(games), InZone(z)), SightingKey());
      multiset(r) <= multiset(rows) && |r| == if |rows| <= ZoneRows then |rows| else ZoneRows
  {
    var ss := Sightings(games);
    var rows := TallyOf(Seqs.Filter(ss, InZone(z)), SightingKey());
    var r := TopRows(rows, ZoneRows);
    forall i | 0 <= i < |r|
      ensures r[i].count == Seqs.CountIf(ss, SeenAt(r[i].key, z))
    {
      ZoneTallyCounts(ss, z, r[i].key);
    }
    r
  }

  /** An asset placed in zone `z` but missing from its top list was placed there no more often than the last one listed. */
  lemma TopByZoneKeepsBusiest(games: seq<Game>, z: Utils.Zone, s: Sighting)
    requires s in Sightings(games) && s.zone == Some(z)
    ensures var r := RenderTopByZone(games, z);
      var n := Seqs.CountIf(Sightings(games), SeenAt(s.key, z));
      (exists i :: 0 <= i < |r| && r[i].key == s.key) || (|r| == ZoneRows && n <= r[ZoneRows - 1].count)
  {
    var ss := Sightings(games);
    var rows := TallyOf(Seqs.Filter(ss, InZone(z)), SightingKey());
    var i := ZoneRowOf(ss, z, s);
    TopRowsKeepBusiest(rows, ZoneRows, i);
    var r := RenderTopByZone(games, z);
    assert r == TopRows(rows, ZoneRows);
    if rows[i] in r {
      var k :| 0 <= k < |r| && r[k] == rows[i];
    }
  }

  /** A card seen in zone `z` has its row in the zone's tally, counting its key's cards there. */
  lemma ZoneRowOf(ss: seq<Sighting>, z: Utils.Zone, s: Sighting) returns (i: nat)
    requires s in ss && s.zone == Some(z)
    ensures var rows := TallyOf(Seqs.Filter(ss, InZone(z)), SightingKey());
      i < |rows| && rows[i].key == s.key && rows[i].count == Seqs.CountIf(ss, SeenAt(s.key, z))
  {
    var f := Seqs.Filter(ss, InZone(z));
    var rows := TallyOf(f, SightingKey());
    var j :| 0 <= j < |ss| && ss[j] == s;
    Seqs.FilterContents(ss, InZone(z));
    var m :| 0 <= m < |f| && f[m] == s;
    i :| 0 <= i < |rows| && rows[i].key == SightingKey()(f[m]);
    ZoneTallyCounts(ss, z, s.key);
  }

  /**
   * Every asset of a zone's top list has a heatmap row (with no filter)
   * showing the same count for that zone, unless its key is inherited: the
   * top list is built on arrays and lists such an asset, the heatmap has no
   * row for it.
   */
  lemma TopByZoneAgreesWithHeatmap(games: seq<Game>, z: Utils.Zone, i: nat)
    requires i < |RenderTopByZone(games, z)|
    ensures var t := RenderTopByZone(games, z)[i];
      var m := BuildHeatmapData(games, AllProfiles);
      && (t.key in m <==> t.key !in InheritedKeys)
      && (t.key in m ==> t.count == match z
            case Defense => m[t.key].defense
            case Midfield => m[t.key].midfield
            case Attack => m[t.key].attack)
  {
    var t := RenderTopByZone(games, z)[i];
    var ss := Sightings(games);
    Seqs.CountIfExtremes(ss, SeenAt(t.key, z));
    var j :| 0 <= j < |ss| && SeenAt(t.key, z)(ss[j]);
    assert PlacedAny(t.key)(ss[j]);
    Seqs.CountIfExtremes(ss, PlacedAny(t.key));
  }
}
