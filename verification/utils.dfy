/**
 * The zone rules and text helpers of the game (src/utils.js): the field's
 * three bands, the expected zone of an asset for a risk profile, player-name
 * normalisation and HTML escaping.
 */
module Utils {
  import opened Wrappers
  import opened Text
  import Seqs

  /** The three horizontal bands of the field. */
  datatype Zone = Defense | Midfield | Attack

  /** The investor risk profiles a match is played with. */
  datatype Profile = Conservador | Moderado | Arrojado

  /** Position of a zone in the order defense < midfield < attack. */
  function Rank(z: Zone): nat {
    match z
    case Defense => 0
    case Midfield => 1
    case Attack => 2
  }

  /** The key a profile is stored under ("CONSERVADOR", ...). */
  function ProfileKey(p: Profile): string {
    match p
    case Conservador => "CONSERVADOR"
    case Moderado => "MODERADO"
    case Arrojado => "ARROJADO"
  }

  /** The name a zone is written with in placements and game records. */
  function ZoneKey(z: Zone): string {
    match z
    case Defense => "defense"
    case Midfield => "midfield"
    case Attack => "attack"
  }

  /** `Math.min` and `Math.max` on integers. */
  function Min(a: int, b: int): int { if a < b then a else b }
  function Max(a: int, b: int): int { if a < b then b else a }

  /** `clamp(v, min, max)`: `Math.max(min, Math.min(max, v))`. */
  function Clamp(v: real, lo: real, hi: real): (r: real)
    ensures lo <= hi ==> lo <= r <= hi
    ensures lo <= v <= hi ==> r == v
    ensures hi < lo ==> r == lo
    ensures v < lo ==> r == lo
    ensures lo <= hi < v ==> r == hi
  {
    if lo > (if hi < v then hi else v) then lo else (if hi < v then hi else v)
  }

  /**
   * The band a card falls into, from its vertical centre: the top third of the
   * field is attack, the middle third midfield, the bottom third defense.
   */
  function ZoneFromPoint(centerY: real, fieldHeight: real): (z: Zone)
    ensures z == Attack <==> 3.0 * centerY < fieldHeight
    ensures fieldHeight >= 0.0 ==> (z == Midfield <==> fieldHeight <= 3.0 * centerY < 2.0 * fieldHeight)
    ensures fieldHeight >= 0.0 ==> (z == Defense <==> 2.0 * fieldHeight <= 3.0 * centerY)
  {
    var zoneHeight := fieldHeight / 3.0;
    if centerY < zoneHeight then Attack
    else if centerY < zoneHeight * 2.0 then Midfield
    else Defense
  }

  /** Lower on the field never means a more offensive band. */
  lemma ZoneFromPointMonotone(y1: real, y2: real, fieldHeight: real)
    requires y1 <= y2
    ensures Rank(ZoneFromPoint(y2, fieldHeight)) <= Rank(ZoneFromPoint(y1, fieldHeight))
  {
  }

  /**
   * The suitability bounds of defense and of midfield per profile. A missing
   * or unrecognised profile key gets the aggressive bounds.
   */
  function Thresholds(p: Option<Profile>): (t: (int, int)) {
    match p
    case Some(Conservador) => (25, 45)
    case Some(Moderado) => (35, 60)
    case _ => (50, 80)
  }

  /** `expectedZoneFor(assetSuit, profileKey)` */
  function ExpectedZoneFor(suit: int, p: Option<Profile>): (z: Zone)
    ensures z == Defense <==> suit <= Thresholds(p).0
    ensures z == Midfield <==> Thresholds(p).0 < suit <= Thresholds(p).1
    ensures z == Attack <==> Thresholds(p).1 < suit
  {
    if p == Some(Conservador) then
      if suit <= 25 then Defense else if suit <= 45 then Midfield else Attack
    else if p == Some(Moderado) then
      if suit <= 35 then Defense else if suit <= 60 then Midfield else Attack
    else
      if suit <= 50 then Defense else if suit <= 80 then Midfield else Attack
  }

  /** A riskier asset is never expected in a more defensive zone. */
  lemma ExpectedZoneMonotone(s1: int, s2: int, p: Option<Profile>)
    requires s1 <= s2
    ensures Rank(ExpectedZoneFor(s1, p)) <= Rank(ExpectedZoneFor(s2, p))
  {
  }

  /** The same asset moves towards defense as the profile grows bolder. */
  lemma ExpectedZoneByProfile(suit: int)
    ensures Rank(ExpectedZoneFor(suit, Some(Moderado))) <= Rank(ExpectedZoneFor(suit, Some(Conservador)))
    ensures Rank(ExpectedZoneFor(suit, Some(Arrojado))) <= Rank(ExpectedZoneFor(suit, Some(Moderado)))
    ensures ExpectedZoneFor(40, Some(Conservador)) == Midfield
    ensures ExpectedZoneFor(40, Some(Moderado)) == Midfield
    ensures ExpectedZoneFor(40, Some(Arrojado)) == Defense
  {
  }

  /** The Portuguese and English names each zone is recognised by. */
  function ZoneAliases(z: Zone): set<string> {
    match z
    case Defense => {"defesa", "defense"}
    case Midfield => {"meio de campo", "meio", "midfield", "meio-campo"}
    case Attack => {"ataque", "attack"}
  }

  /** The zone a trimmed, lower-case name denotes, if any. */
  function LookupZoneAlias(t: string): (r: Option<Zone>)
    ensures r.Some? ==> t in ZoneAliases(r.value)
    ensures r.None? ==> forall z :: t !in ZoneAliases(z)
    ensures r.Some? ==> ',' !in t
  {
    if t == "defesa" || t == "defense" then Some(Defense)
    else if t == "meio de campo" || t == "meio" || t == "midfield" || t == "meio-campo" then Some(Midfield)
    else if t == "ataque" || t == "attack" then Some(Attack)
    else None
  }

  /** `normalizeZoneName(value)`: case-insensitive, trimmed alias lookup; the empty string is no name. */
  function NormalizeZoneName(v: string): (r: Option<Zone>)
    ensures r.Some? ==> v != [] && Trim(ToLower(v)) in ZoneAliases(r.value)
    ensures r.None? ==> v == [] || forall z :: Trim(ToLower(v)) !in ZoneAliases(z)
  {
    if v == [] then None else LookupZoneAlias(Trim(ToLower(v)))
  }

  /** Zone names are matched without regard to letter case. */
  lemma ZoneNameIgnoresCase(v: string)
    ensures NormalizeZoneName(ToUpper(v)) == NormalizeZoneName(v)
  {
    ToLowerOfToUpper(v);
  }

  /** Zone names are matched without regard to surrounding whitespace. */
  lemma ZoneNameIgnoresPadding(pre: string, v: string, post: string)
    requires AllSpace(pre) && AllSpace(post)
    ensures NormalizeZoneName(pre + v + post) == NormalizeZoneName(v)
  {
    var w := pre + v + post;
    ToLowerAppend(pre + v, post);
    ToLowerAppend(pre, v);
    assert ToLower(w) == ToLower(pre) + ToLower(v) + ToLower(post);
    TrimIgnoresPadding(ToLower(pre), ToLower(v), ToLower(post));
    if v == [] {
      assert Trim(ToLower(v)) == [];
      assert LookupZoneAlias([]) == None;
    }
  }

  lemma ToLowerOfLowerText(s: string)
    requires forall i :: 0 <= i < |s| ==> !IsUpperLetter(s[i])
    ensures ToLower(s) == s
  {
  }

  /** Every zone is recognised by the name the game records it with. */
  lemma ZoneKeyRecognised(z: Zone)
    ensures NormalizeZoneName(ZoneKey(z)) == Some(z)
  {
    var k := ZoneKey(z);
    ToLowerOfLowerText(k);
    TrimStartOfNonSpace(k);
    TrimEndOfNonSpace(k);
    assert Trim(ToLower(k)) == k;
  }

  /** No recognised zone name contains a comma. */
  lemma RecognisedNameHasNoComma(v: string)
    requires NormalizeZoneName(v).Some?
    ensures ',' !in v
  {
    var l := ToLower(v);
    var t := Trim(l);
    assert ',' !in t;
    TrimIsSlice(l);
    var k := LeadingSpaces(l);
    forall i | 0 <= i < |v|
      ensures v[i] != ','
    {
      if i < k {
        assert IsSpace(l[..k][i]);
      } else if i >= k + |t| {
        assert IsSpace(l[k + |t|..][i - k - |t|]);
      } else {
        assert l[i] == t[i - k];
        assert t[i - k] in t;
      }
    }
  }

  /** `String(array)`: the elements joined with commas. */
  function JoinWithCommas(items: seq<string>): string {
    if |items| == 0 then []
    else if |items| == 1 then items[0]
    else items[0] + [','] + JoinWithCommas(items[1..])
  }

  /** The zones named by a list of override names; unrecognised names are dropped. */
  function RecognisedZones(items: seq<string>): (zs: seq<Zone>)
    ensures |zs| <= |items|
  {
    if |items| == 0 then []
    else
      var rest := RecognisedZones(items[1..]);
      match NormalizeZoneName(items[0])
      case Some(z) => [z] + rest
      case None => rest
  }

  /** A zone is in the recognised list exactly when one of the names denotes it. */
  lemma {:induction false} RecognisedZonesMembership(items: seq<string>, z: Zone)
    ensures z in RecognisedZones(items) <==> exists i :: 0 <= i < |items| && NormalizeZoneName(items[i]) == Some(z)
  {
    if |items| > 0 {
      RecognisedZonesMembership(items[1..], z);
      assert forall i :: 1 <= i < |items| ==> items[i] == items[1..][i - 1];
      if exists i :: 0 <= i < |items| && NormalizeZoneName(items[i]) == Some(z) {
        var i :| 0 <= i < |items| && NormalizeZoneName(items[i]) == Some(z);
        if i > 0 {
          assert NormalizeZoneName(items[1..][i - 1]) == Some(z);
        }
      }
    }
  }

  /** The list is empty exactly when no name is recognised. */
  lemma RecognisedZonesEmpty(items: seq<string>)
    ensures RecognisedZones(items) == [] <==> forall i :: 0 <= i < |items| ==> NormalizeZoneName(items[i]).None?
  {
    var zs := RecognisedZones(items);
    forall z: Zone {
      RecognisedZonesMembership(items, z);
    }
    if zs != [] {
      assert zs[0] in zs;
    }
  }

  /** The per-profile placement override of a catalog asset: one name or a list of names. */
  datatype PositionSpec = Single(name: string) | Many(names: seq<string>)

  /** A card of the catalog. Only the fields the rules read are kept. */
  datatype Asset = Asset(
    id: int,
    name: string,
    suitability: Option<int>,
    positions: map<Profile, PositionSpec>)

  /** What counts as correct: one zone, or any of several. */
  datatype Expected = One(zone: Zone) | AnyOf(zones: seq<Zone>)

  /** The suitability default used when the catalog leaves it out. */
  const DefaultSuitability: int := 50

  /** The override of `a` for `p` applies: a non-empty list after dropping unknown names, or one known name. */
  predicate HasOverride(a: Asset, p: Option<Profile>) {
    && p.Some? && p.value in a.positions
    && match a.positions[p.value]
       case Single(n) => NormalizeZoneName(n).Some?
       case Many(ns) => RecognisedZones(ns) != []
  }

  /** An override list never falls back to reading the whole list as one name. */
  lemma JoinedListNeverRecognised(items: seq<string>)
    requires RecognisedZones(items) == []
    ensures NormalizeZoneName(JoinWithCommas(items)).None?
  {
    RecognisedZonesEmpty(items);
    if |items| == 1 {
      assert NormalizeZoneName(items[0]).None?;
    }
    if |items| >= 2 {
      var j := JoinWithCommas(items);
      assert j[|items[0]|] == ',';
      if NormalizeZoneName(j).Some? {
        RecognisedNameHasNoComma(j);
      }
    }
  }

  /** `getExpectedZoneForAsset(asset, profileKey)` */
  function GetExpectedZoneForAsset(a: Asset, p: Option<Profile>): (e: Expected)
    ensures !HasOverride(a, p) ==> e == One(ExpectedZoneFor(a.suitability.GetOr(DefaultSuitability), p))
    ensures HasOverride(a, p) && a.positions[p.value].Many? ==> e == AnyOf(RecognisedZones(a.positions[p.value].names))
    ensures HasOverride(a, p) && a.positions[p.value].Single? ==> e == One(NormalizeZoneName(a.positions[p.value].name).value)
    ensures e.AnyOf? ==> |e.zones| > 0
  {
    var formula := One(ExpectedZoneFor(a.suitability.GetOr(DefaultSuitability), p));
    if p.Some? && p.value in a.positions then
      match a.positions[p.value]
      case Many(ns) =>
        var zones := RecognisedZones(ns);
        if |zones| > 0 then AnyOf(zones)
        else
          JoinedListNeverRecognised(ns);
          (match NormalizeZoneName(JoinWithCommas(ns))
           case Some(z) => One(z)
           case None => formula)
      case Single(n) =>
        (match NormalizeZoneName(n)
         case Some(z) => One(z)
         case None => formula)
    else formula
  }

  /** `isExpectedZone(actualZone, expected)` */
  function IsExpectedZone(actual: Zone, e: Expected): (ok: bool)
    ensures e.One? ==> (ok <==> actual == e.zone)
    ensures e.AnyOf? ==> (ok <==> exists i :: 0 <= i < |e.zones| && e.zones[i] == actual)
  {
    match e
    case AnyOf(zs) => actual in zs
    case One(z) => actual == z
  }

  /** Without an override, a drop is correct exactly in the formula's zone. */
  lemma CorrectWithoutOverride(a: Asset, p: Option<Profile>, z: Zone)
    requires !HasOverride(a, p)
    ensures IsExpectedZone(z, GetExpectedZoneForAsset(a, p)) <==> z == ExpectedZoneFor(a.suitability.GetOr(DefaultSuitability), p)
  {
  }

  /** With a single-name override, a drop is correct exactly in the zone that name denotes. */
  lemma CorrectWithNameOverride(a: Asset, p: Profile, z: Zone)
    requires p in a.positions && a.positions[p].Single?
    requires HasOverride(a, Some(p))
    ensures IsExpectedZone(z, GetExpectedZoneForAsset(a, Some(p))) <==> NormalizeZoneName(a.positions[p].name) == Some(z)
  {
  }

  /** With a list override, a drop is correct exactly in a zone one of the listed names denotes. */
  lemma CorrectWithListOverride(a: Asset, p: Profile, z: Zone)
    requires p in a.positions && a.positions[p].Many?
    requires HasOverride(a, Some(p))
    ensures IsExpectedZone(z, GetExpectedZoneForAsset(a, Some(p)))
        <==> exists i :: 0 <= i < |a.positions[p].names| && NormalizeZoneName(a.positions[p].names[i]) == Some(z)
  {
    RecognisedZonesMembership(a.positions[p].names, z);
  }

  /** Longest player name kept. */
  const NameMaxLength: nat := 18

  /** The shape both name normalisers produce. */
  predicate NameShaped(s: string) {
    && |s| <= NameMaxLength
    && SingleSpaced(s)
    && (s == [] || s[0] != ' ')
    && NoLowerLetter(s)
  }

  /** `normalizeName(raw)`: collapse whitespace, trim, keep 18 characters, upper-case. */
  function NormalizeName(raw: string): (r: string)
    ensures NameShaped(r)
  {
    var c := Collapse(raw);
    var t := Trim(c);
    TrimIsSlice(c);
    var k := LeadingSpaces(c);
    SingleSpacedSlice(c, k, k + |t|);
    assert SingleSpaced(t);
    var u := Seqs.Take(t, NameMaxLength);
    UpperOfSpacedPrefix(t, u);
    ToUpper(u)
  }

  /** Upper-casing a short prefix of single-spaced text without a leading space gives a name in normal form. */
  lemma UpperOfSpacedPrefix(t: string, u: string)
    requires SingleSpaced(t) && (t == [] || t[0] != ' ')
    requires |u| <= NameMaxLength && |u| <= |t| && u == t[..|u|]
    ensures NameShaped(ToUpper(u))
  {
    SingleSpacedSlice(t, 0, |u|);
  }

  /** `normalizeNameLive(raw)`: as typed, so trailing whitespace survives. */
  function NormalizeNameLive(raw: string): (r: string)
    ensures NameShaped(r)
  {
    var c := Collapse(raw);
    var t := TrimStart(c);
    SingleSpacedSlice(c, LeadingSpaces(c), |c|);
    var u := Seqs.Take(t, NameMaxLength);
    UpperOfSpacedPrefix(t, u);
    ToUpper(u)
  }

  /** Text that is already single-spaced, short and without a leading space only changes case. */
  lemma NormalizeNameLiveOfSpaced(s: string)
    requires |s| <= NameMaxLength && SingleSpaced(s) && (s == [] || s[0] != ' ')
    ensures NormalizeNameLive(s) == ToUpper(s)
  {
    CollapseOfSingleSpaced(s);
    if s != [] {
      assert !IsSpace(s[0]);
    }
    TrimStartOfNonSpace(s);
  }

  /** A name in normal form is left alone by the live normaliser. */
  lemma NormalizeNameLiveFixesShaped(s: string)
    requires NameShaped(s)
    ensures NormalizeNameLive(s) == s
  {
    NormalizeNameLiveOfSpaced(s);
    ToUpperNoLowerIsIdentity(s);
  }

  /** The live normaliser is idempotent. */
  lemma NormalizeNameLiveIdempotent(raw: string)
    ensures NormalizeNameLive(NormalizeNameLive(raw)) == NormalizeNameLive(raw)
  {
    NormalizeNameLiveFixesShaped(NormalizeNameLive(raw));
  }

  /**
   * The final normaliser is not idempotent: cutting at 18 characters after
   * trimming can leave a trailing space, which a second pass trims.
   */
  lemma NormalizeNameNotIdempotent()
    ensures exists raw :: NormalizeName(NormalizeName(raw)) != NormalizeName(raw)
  {
    var a17 := seq(17, _ => 'A');
    var raw := a17 + " B";
    assert SingleSpaced(raw);
    CollapseOfSingleSpaced(raw);
    TrimStartOfNonSpace(raw);
    TrimEndOfNonSpace(raw);
    var once := a17 + " ";
    assert Seqs.Take(Trim(raw), NameMaxLength) == once;
    ToUpperNoLowerIsIdentity(once);
    assert NormalizeName(raw) == once;
    assert SingleSpaced(once);
    CollapseOfSingleSpaced(once);
    TrimStartOfNonSpace(once);
    assert once[..17] == a17;
    TrimEndOfNonSpace(a17);
    assert TrimEnd(once) == a17;
    ToUpperNoLowerIsIdentity(a17);
    assert NormalizeName(once) == a17;
    assert |a17| != |once|;
  }

  /** The final normaliser leaves nothing exactly when the raw name is all whitespace. */
  lemma NormalizeNameEmptyIffBlank(raw: string)
    ensures NormalizeName(raw) == [] <==> AllSpace(raw)
  {
    CollapseAllSpace(raw);
    TrimEmptyIffAllSpace(Collapse(raw));
  }

  /** A name in normal form without a trailing space is left alone by the final normaliser. */
  lemma NormalizeNameFixesTrimmed(s: string)
    requires NameShaped(s) && (s == [] || s[|s| - 1] != ' ')
    ensures NormalizeName(s) == s
  {
    CollapseOfSingleSpaced(s);
    if s != [] {
      assert !IsSpace(s[0]) && !IsSpace(s[|s| - 1]);
    }
    TrimStartOfNonSpace(s);
    TrimEndOfNonSpace(s);
    ToUpperNoLowerIsIdentity(s);
  }

  /**
   * The live normaliser shows what the final one will keep, plus at most
   * the one trailing space the final trim removes.
   */
  lemma NormalizeNameLiveExtends(raw: string)
    ensures var n := NormalizeName(raw);
      var l := NormalizeNameLive(raw);
      l == n || (|n| < NameMaxLength && l == n + " ")
  {
    var c := Collapse(raw);
    var t0 := TrimStart(c);
    assert c[LeadingSpaces(c)..|c|] == t0;
    SingleSpacedSlice(c, LeadingSpaces(c), |c|);
    SingleSpacedTrimEnd(t0);
    UpperPrefixOfSpaceEnded(TrimEnd(t0), t0);
  }

  lemma UpperPrefixOfSpaceEnded(t: string, t0: string)
    requires t0 == t || t0 == t + " "
    ensures var n := ToUpper(Seqs.Take(t, NameMaxLength));
      var l := ToUpper(Seqs.Take(t0, NameMaxLength));
      l == n || (|n| < NameMaxLength && l == n + " ")
  {
    if t0 != t {
      if |t| < NameMaxLength {
        ToUpperAppend(t, " ");
      } else {
        assert Seqs.Take(t0, NameMaxLength) == Seqs.Take(t, NameMaxLength);
      }
    }
  }

  /** `getRiskLevel(suitability)` */
  datatype RiskLevel = Low | Med | High

  function GetRiskLevel(suit: int): (r: RiskLevel)
    ensures r == Low <==> suit <= 35
    ensures r == High <==> 60 < suit
  {
    if suit <= 35 then Low else if suit <= 60 then Med else High
  }

  /** `replaceAll(c, rep)` for a one-character pattern. */
  function ReplaceAllChar(s: string, c: char, rep: string): (r: string)
    ensures c !in s ==> r == s
  {
    if |s| == 0 then []
    else (if s[0] == c then rep else [s[0]]) + ReplaceAllChar(s[1..], c, rep)
  }

  lemma {:induction false} ReplaceAllCharAppend(a: string, b: string, c: char, rep: string)
    ensures ReplaceAllChar(a + b, c, rep) == ReplaceAllChar(a, c, rep) + ReplaceAllChar(b, c, rep)
  {
    if |a| == 0 {
      assert a + b == b;
    } else {
      assert (a + b)[1..] == a[1..] + b;
      ReplaceAllCharAppend(a[1..], b, c, rep);
    }
  }

  /** The five `replaceAll` passes of `escapeHtml`, `&` first. */
  function EscapePasses(s: string): string {
    ReplaceAllChar(ReplaceAllChar(ReplaceAllChar(ReplaceAllChar(ReplaceAllChar(
      s, '&', "&amp;"), '<', "&lt;"), '>', "&gt;"), '"', "&quot;"), '\'', "&#039;")
  }

  /** `escapeHtml(str)` */
  function EscapeHtml(s: string): (r: string)
    ensures forall i :: 0 <= i < |r| ==> r[i] !in "<>\"'"
  {
    EscapeHtmlIsPerChar(s);
    EscapePasses(s)
  }

  /** The entity (or the character itself) one character is written as. */
  function EscapeChar(c: char): string {
    match c
    case '&' => "&amp;"
    case '<' => "&lt;"
    case '>' => "&gt;"
    case '"' => "&quot;"
    case '\'' => "&#039;"
    case _ => [c]
  }

  /** Escaping character by character. */
  function EscapeEach(s: string): (r: string)
    ensures forall i :: 0 <= i < |r| ==> r[i] !in "<>\"'"
  {
    if |s| == 0 then [] else EscapeChar(s[0]) + EscapeEach(s[1..])
  }

  lemma EscapePassesAppend(a: string, b: string)
    ensures EscapePasses(a + b) == EscapePasses(a) + EscapePasses(b)
  {
    ReplaceAllCharAppend(a, b, '&', "&amp;");
    var a1, b1 := ReplaceAllChar(a, '&', "&amp;"), ReplaceAllChar(b, '&', "&amp;");
    ReplaceAllCharAppend(a1, b1, '<', "&lt;");
    var a2, b2 := ReplaceAllChar(a1, '<', "&lt;"), ReplaceAllChar(b1, '<', "&lt;");
    ReplaceAllCharAppend(a2, b2, '>', "&gt;");
    var a3, b3 := ReplaceAllChar(a2, '>', "&gt;"), ReplaceAllChar(b2, '>', "&gt;");
    ReplaceAllCharAppend(a3, b3, '"', "&quot;");
    var a4, b4 := ReplaceAllChar(a3, '"', "&quot;"), ReplaceAllChar(b3, '"', "&quot;");
    ReplaceAllCharAppend(a4, b4, '\'', "&#039;");
  }

  lemma ReplaceAllCharOne(c: char, d: char, rep: string)
    ensures ReplaceAllChar([c], d, rep) == if c == d then rep else [c]
  {
    assert [c][1..] == [];
  }

  /** On one character, the passes produce that character's entity. */
  lemma EscapePassesOne(c: char)
    ensures EscapePasses([c]) == EscapeChar(c)
  {
    ReplaceAllCharOne(c, '&', "&amp;");
    var p1 := ReplaceAllChar([c], '&', "&amp;");
    if c == '&' {
      assert p1 == "&amp;";
      assert '<' !in p1 && '>' !in p1 && '"' !in p1 && '\'' !in p1;
    } else {
      assert p1 == [c];
      ReplaceAllCharOne(c, '<', "&lt;");
      var p2 := ReplaceAllChar(p1, '<', "&lt;");
      if c == '<' {
        assert '>' !in p2 && '"' !in p2 && '\'' !in p2;
      } else {
        assert p2 == [c];
        ReplaceAllCharOne(c, '>', "&gt;");
        var p3 := ReplaceAllChar(p2, '>', "&gt;");
        if c == '>' {
          assert '"' !in p3 && '\'' !in p3;
        } else {
          assert p3 == [c];
          ReplaceAllCharOne(c, '"', "&quot;");
          var p4 := ReplaceAllChar(p3, '"', "&quot;");
          if c == '"' {
            assert '\'' !in p4;
          } else {
            assert p4 == [c];
            ReplaceAllCharOne(c, '\'', "&#039;");
          }
        }
      }
    }
  }

  /** The five sequential passes replace each character independently, because `&` goes first. */
  lemma {:induction false} EscapeHtmlIsPerChar(s: string)
    ensures EscapePasses(s) == EscapeEach(s)
  {
    if |s| > 0 {
      assert s == [s[0]] + s[1..];
      EscapePassesAppend([s[0]], s[1..]);
      EscapePassesOne(s[0]);
      EscapeHtmlIsPerChar(s[1..]);
    }
  }

  /** Decoding the five entities back into characters. */
  function UnescapeHtml(s: string): string
    decreases |s|
  {
    if |s| == 0 then []
    else if |s| >= 5 && s[..5] == "&amp;" then "&" + UnescapeHtml(s[5..])
    else if |s| >= 4 && s[..4] == "&lt;" then "<" + UnescapeHtml(s[4..])
    else if |s| >= 4 && s[..4] == "&gt;" then ">" + UnescapeHtml(s[4..])
    else if |s| >= 6 && s[..6] == "&quot;" then "\"" + UnescapeHtml(s[6..])
    else if |s| >= 6 && s[..6] == "&#039;" then "'" + UnescapeHtml(s[6..])
    else [s[0]] + UnescapeHtml(s[1..])
  }

  /** Decoding reads one escaped character back. */
  lemma UnescapeStep(c: char, rest: string)
    ensures UnescapeHtml(EscapeChar(c) + rest) == [c] + UnescapeHtml(rest)
  {
    var e := EscapeChar(c);
    var w := e + rest;
    assert w[..|e|] == e;
    assert w[|e|..] == rest;
    assert w[0] == e[0];
    if |e| > 1 {
      assert w[1] == e[1];
    }
    if |w| >= 4 {
      assert w[..4][0] == w[0] && w[..4][1] == w[1];
    }
    if |w| >= 5 {
      assert w[..5][0] == w[0] && w[..5][1] == w[1];
    }
    if |w| >= 6 {
      assert w[..6][0] == w[0] && w[..6][1] == w[1];
    }
    if |e| == 1 {
      assert w[1..] == rest;
    }
  }

  /** Escaping loses nothing: decoding the escaped text gives the original back. */
  lemma {:induction false} EscapeHtmlRoundTrip(s: string)
    ensures UnescapeHtml(EscapeHtml(s)) == s
  {
    EscapeHtmlIsPerChar(s);
    EscapeEachRoundTrip(s);
  }

  lemma {:induction false} EscapeEachRoundTrip(s: string)
    ensures UnescapeHtml(EscapeEach(s)) == s
  {
    if |s| > 0 {
      UnescapeStep(s[0], EscapeEach(s[1..]));
      EscapeEachRoundTrip(s[1..]);
      assert s == [s[0]] + s[1..];
    }
  }
}
