/** Release versions: parsing, and the order in which one release is newer than another. */
module Versions {
  import opened Common
  import Ordinal

  /** The platform's text services: white space, culture-aware integers, and the folding of OrdinalIgnoreCase. */
  datatype Platform = Platform(isSpace: char -> bool, parseInt: string -> Option<int>, fold: char -> char)

  datatype Version = Version(core: seq<int>, preRelease: string)

  function TrimStart(s: string, drop: char -> bool): string {
    if s != [] && drop(s[0]) then TrimStart(s[1..], drop) else s
  }

  function TrimEnd(s: string, drop: char -> bool): string {
    if s != [] && drop(s[|s| - 1]) then TrimEnd(s[..|s| - 1], drop) else s
  }

  function IndexOf(s: string, c: char): (i: Option<nat>)
    ensures i.Some? ==> i.value < |s| && s[i.value] == c && c !in s[..i.value]
    ensures i.None? ==> c !in s
  {
    if s == [] then None
    else if s[0] == c then Some(0)
    else match IndexOf(s[1..], c) case None => None case Some(i) => Some(i + 1)
  }

  function Split(s: string, c: char): (parts: seq<string>)
    ensures |parts| > 0
    decreases |s|
  {
    match IndexOf(s, c)
    case None => [s]
    case Some(i) => [s[..i]] + Split(s[i + 1..], c)
  }

  function NonEmpty(parts: seq<string>): seq<string> {
    if parts == [] then [] else (if parts[0] == [] then [] else [parts[0]]) + NonEmpty(parts[1..])
  }

  predicate IsNumber(p: Platform, part: string) {
    p.parseInt(part).Some? && p.parseInt(part).value >= 0
  }

  /** The number at a position, zero past the end. */
  function NumberAt(p: Platform, parts: seq<string>, k: nat): (n: int)
    requires forall part | part in parts :: IsNumber(p, part)
    ensures n >= 0
  {
    if k < |parts| then
      assert parts[k] in parts && IsNumber(p, parts[k]);
      p.parseInt(parts[k]).value
    else 0
  }

  function TryParseVersion(p: Platform, value: string): (v: Option<Version>)
    ensures v.Some? ==> |v.value.core| == 4 && forall k | 0 <= k < 4 :: v.value.core[k] >= 0
  {
    ParseTrimmed(p, TrimStart(TrimEnd(TrimStart(value, p.isSpace), p.isSpace), c => c == 'v' || c == 'V'))
  }

  function ParseTrimmed(p: Platform, trimmed: string): (v: Option<Version>)
    ensures v.Some? ==> |v.value.core| == 4 && forall k | 0 <= k < 4 :: v.value.core[k] >= 0
  {
    var normalized := match IndexOf(trimmed, '+') case None => trimmed case Some(i) => trimmed[..i];
    var dash := IndexOf(normalized, '-');
    var preRelease := match dash case None => "" case Some(i) => normalized[i + 1..];
    if dash.Some? && preRelease == "" then None
    else
      var core := match dash case None => normalized case Some(i) => normalized[..i];
      var numbers := NonEmpty(Split(core, '.'));
      if !(1 <= |numbers| <= 4) || exists part | part in numbers :: !IsNumber(p, part) then None
      else
        var numeric :=
          [NumberAt(p, numbers, 0), NumberAt(p, numbers, 1), NumberAt(p, numbers, 2), NumberAt(p, numbers, 3)];
        Some(Version(numeric, preRelease))
  }

  function CompareInts(a: int, b: int): int {
    if a < b then -1 else if a > b then 1 else 0
  }

  function CompareCores(a: seq<int>, b: seq<int>): int
    requires |a| == |b|
  {
    if a == [] then 0 else if a[0] != b[0] then CompareInts(a[0], b[0]) else CompareCores(a[1..], b[1..])
  }

  function Fold(p: Platform, s: string): string {
    seq(|s|, k requires 0 <= k < |s| => p.fold(s[k]))
  }

  function CompareParts(p: Platform, a: string, b: string): int {
    match (p.parseInt(a), p.parseInt(b))
    case (Some(x), Some(y)) => CompareInts(x, y)
    case (Some(_), None) => -1
    case (None, Some(_)) => 1
    case (None, None) => Ordinal.Compare(Fold(p, a), Fold(p, b))
  }

  function CompareLists(p: Platform, a: seq<string>, b: seq<string>): int {
    if a == [] || b == [] then CompareInts(|a|, |b|)
    else if CompareParts(p, a[0], b[0]) != 0 then CompareParts(p, a[0], b[0])
    else CompareLists(p, a[1..], b[1..])
  }

  /** The loop over the dot-separated parts of two pre-release tags. */
  method ComparePreRelease(p: Platform, candidate: string, current: string) returns (order: int)
    ensures order == CompareLists(p, Split(candidate, '.'), Split(current, '.'))
  {
    var a, b := Split(candidate, '.'), Split(current, '.');
    var index := 0;
    assert a[0..] == a && b[0..] == b;
    while index < |a| && index < |b|
      invariant index <= |a| && index <= |b|
      invariant CompareLists(p, a, b) == CompareLists(p, a[index..], b[index..])
    {
      var x, y := p.parseInt(a[index]), p.parseInt(b[index]);
      assert a[index..][1..] == a[index + 1..] && b[index..][1..] == b[index + 1..];
      if x.Some? && y.Some? {
        var numeric := CompareInts(x.value, y.value);
        if numeric != 0 {
          return numeric;
        }
        index := index + 1;
        continue;
      }
      if x.Some? != y.Some? {
        return if x.Some? then -1 else 1;
      }
      var text := Ordinal.Compare(Fold(p, a[index]), Fold(p, b[index]));
      if text != 0 {
        return text;
      }
      index := index + 1;
    }
    return CompareInts(|a|, |b|);
  }

  method IsNewerVersion(p: Platform, candidate: string, current: string) returns (newer: bool)
    ensures newer == Newer(p, candidate, current)
  {
    var a, b := TryParseVersion(p, candidate), TryParseVersion(p, current);
    if a.None? || b.None? {
      return false;
    }
    var core := CompareCores(a.value.core, b.value.core);
    if core != 0 {
      return core > 0;
    }
    if a.value.preRelease == "" || b.value.preRelease == "" {
      return a.value.preRelease == "" && b.value.preRelease != "";
    }
    var order := ComparePreRelease(p, a.value.preRelease, b.value.preRelease);
    return order > 0;
  }

  // ---- The order.

  function ComparePreReleases(p: Platform, a: string, b: string): int {
    if a == "" || b == "" then CompareInts(if a == "" then 1 else 0, if b == "" then 1 else 0)
    else CompareLists(p, Split(a, '.'), Split(b, '.'))
  }

  function CompareVersions(p: Platform, a: Version, b: Version): int
    requires |a.core| == |b.core|
  {
    if CompareCores(a.core, b.core) != 0 then CompareCores(a.core, b.core)
    else ComparePreReleases(p, a.preRelease, b.preRelease)
  }

  predicate Newer(p: Platform, candidate: string, current: string) {
    && TryParseVersion(p, candidate).Some? && TryParseVersion(p, current).Some?
    && CompareVersions(p, TryParseVersion(p, candidate).value, TryParseVersion(p, current).value) > 0
  }

  /** Both parse, and neither is newer. */
  predicate Tied(p: Platform, a: string, b: string) {
    && TryParseVersion(p, a).Some? && TryParseVersion(p, b).Some?
    && !Newer(p, a, b) && !Newer(p, b, a)
  }

  lemma {:induction false} CoresAntisymmetric(a: seq<int>, b: seq<int>)
    requires |a| == |b|
    ensures CompareCores(a, b) == -CompareCores(b, a)
  {
    if a != [] && a[0] == b[0] {
      CoresAntisymmetric(a[1..], b[1..]);
    }
  }

  lemma {:induction false} CoresTransitive(a: seq<int>, b: seq<int>, c: seq<int>)
    requires |a| == |b| == |c| && CompareCores(a, b) <= 0 && CompareCores(b, c) <= 0
    ensures CompareCores(a, c) <= 0
    ensures CompareCores(a, c) == 0 ==> CompareCores(a, b) == 0 && CompareCores(b, c) == 0
    ensures CompareCores(a, b) == 0 && CompareCores(b, c) == 0 ==> CompareCores(a, c) == 0
  {
    if a != [] && a[0] == b[0] == c[0] {
      CoresTransitive(a[1..], b[1..], c[1..]);
    }
  }

  lemma PartsAntisymmetric(p: Platform, a: string, b: string)
    ensures CompareParts(p, a, b) == -CompareParts(p, b, a)
  {
    Ordinal.Antisymmetry(Fold(p, a), Fold(p, b));
  }

  lemma PartsTransitive(p: Platform, a: string, b: string, c: string)
    requires CompareParts(p, a, b) <= 0 && CompareParts(p, b, c) <= 0
    ensures CompareParts(p, a, c) <= 0
    ensures CompareParts(p, a, c) == 0 <==> CompareParts(p, a, b) == 0 && CompareParts(p, b, c) == 0
  {
    if p.parseInt(a).None? && p.parseInt(b).None? && p.parseInt(c).None? {
      var x, y, z := Fold(p, a), Fold(p, b), Fold(p, c);
      Ordinal.Transitivity(x, y, z);
      Ordinal.Antisymmetry(x, y);
      Ordinal.Antisymmetry(y, z);
      Ordinal.Antisymmetry(x, z);
    }
  }

  lemma {:induction false} ListsAntisymmetric(p: Platform, a: seq<string>, b: seq<string>)
    ensures CompareLists(p, a, b) == -CompareLists(p, b, a)
  {
    if a != [] && b != [] {
      PartsAntisymmetric(p, a[0], b[0]);
      ListsAntisymmetric(p, a[1..], b[1..]);
    }
  }

  lemma {:induction false} ListsTransitive(p: Platform, a: seq<string>, b: seq<string>, c: seq<string>)
    requires CompareLists(p, a, b) <= 0 && CompareLists(p, b, c) <= 0
    ensures CompareLists(p, a, c) <= 0
    ensures CompareLists(p, a, c) == 0 <==> CompareLists(p, a, b) == 0 && CompareLists(p, b, c) == 0
  {
    if a != [] && b != [] && c != [] {
      PartsTransitive(p, a[0], b[0], c[0]);
      if CompareParts(p, a[0], b[0]) == 0 && CompareParts(p, b[0], c[0]) == 0 {
        ListsTransitive(p, a[1..], b[1..], c[1..]);
      }
    }
  }

  lemma VersionsAntisymmetric(p: Platform, a: Version, b: Version)
    requires |a.core| == |b.core|
    ensures CompareVersions(p, a, b) == -CompareVersions(p, b, a)
  {
    CoresAntisymmetric(a.core, b.core);
    ListsAntisymmetric(p, Split(a.preRelease, '.'), Split(b.preRelease, '.'));
  }

  lemma VersionsTransitive(p: Platform, a: Version, b: Version, c: Version)
    requires |a.core| == |b.core| == |c.core| && CompareVersions(p, a, b) <= 0 && CompareVersions(p, b, c) <= 0
    ensures CompareVersions(p, a, c) <= 0
    ensures CompareVersions(p, a, c) == 0 <==> CompareVersions(p, a, b) == 0 && CompareVersions(p, b, c) == 0
  {
    hide CompareCores, CompareLists, Split;
    CoresTransitive(a.core, b.core, c.core);
    if ComparePreReleases(p, a.preRelease, b.preRelease) <= 0 && ComparePreReleases(p, b.preRelease, c.preRelease) <= 0
       && a.preRelease != "" && b.preRelease != "" && c.preRelease != "" {
      ListsTransitive(p, Split(a.preRelease, '.'), Split(b.preRelease, '.'), Split(c.preRelease, '.'));
    }
  }

  /** Newer is a strict weak order: irreflexive, asymmetric and transitive, and so are its ties. */
  lemma NewerIsStrictWeakOrder(p: Platform, a: string, b: string, c: string)
    ensures !Newer(p, a, a)
    ensures Newer(p, a, b) ==> !Newer(p, b, a)
    ensures Newer(p, a, b) && Newer(p, b, c) ==> Newer(p, a, c)
    ensures Tied(p, a, b) && Tied(p, b, c) ==> Tied(p, a, c)
  {
    hide CompareVersions, TryParseVersion;
    var u, v, w := TryParseVersion(p, a), TryParseVersion(p, b), TryParseVersion(p, c);
    CoreLengths(p, a);
    CoreLengths(p, b);
    CoreLengths(p, c);
    if u.Some? {
      VersionsAntisymmetric(p, u.value, u.value);
    }
    if u.Some? && v.Some? {
      VersionsAntisymmetric(p, u.value, v.value);
    }
    if u.Some? && v.Some? && w.Some? {
      VersionsAntisymmetric(p, v.value, w.value);
      VersionsAntisymmetric(p, u.value, w.value);
      if Newer(p, a, b) && Newer(p, b, c) {
        VersionsTransitive(p, w.value, v.value, u.value);
      }
      if Tied(p, a, b) && Tied(p, b, c) {
        VersionsTransitive(p, u.value, v.value, w.value);
      }
    }
  }

  lemma CoreLengths(p: Platform, a: string)
    ensures TryParseVersion(p, a).Some? ==> |TryParseVersion(p, a).value.core| == 4
  {
  }

  // ---- Section 11 of Semantic Versioning 2.0.0, stated on its own.

  datatype Identifier = Numeric(n: int) | Textual(text: string)

  function IdentifierOf(p: Platform, part: string): Identifier {
    match p.parseInt(part)
    case Some(n) => Numeric(n)
    case None => Textual(seq(|part|, k requires 0 <= k < |part| => p.fold(part[k])))
  }

  function IdentifiersOf(p: Platform, parts: seq<string>): seq<Identifier> {
    seq(|parts|, k requires 0 <= k < |parts| => IdentifierOf(p, parts[k]))
  }

  ghost predicate IdentifierBelow(a: Identifier, b: Identifier) {
    match (a, b)
    case (Numeric(x), Numeric(y)) => x < y
    case (Numeric(_), Textual(_)) => true
    case (Textual(_), Numeric(_)) => false
    case (Textual(x), Textual(y)) => Ordinal.Below(x, y)
  }

  /** The first difference decides, and a proper prefix comes first. */
  ghost predicate PreReleaseBelow(a: seq<Identifier>, b: seq<Identifier>) {
    || a < b
    || exists k | 0 <= k < |a| && k < |b| :: a[..k] == b[..k] && IdentifierBelow(a[k], b[k])
  }

  lemma SamePartSameIdentifier(p: Platform, a: string, b: string)
    ensures CompareParts(p, a, b) == 0 <==> IdentifierOf(p, a) == IdentifierOf(p, b)
    ensures CompareParts(p, a, b) < 0 <==> IdentifierBelow(IdentifierOf(p, a), IdentifierOf(p, b))
  {
    assert Fold(p, a) == seq(|a|, k requires 0 <= k < |a| => p.fold(a[k]));
    assert Fold(p, b) == seq(|b|, k requires 0 <= k < |b| => p.fold(b[k]));
    Ordinal.CompareMeans(Fold(p, a), Fold(p, b));
  }

  lemma PreReleaseBelowStep(a: seq<Identifier>, b: seq<Identifier>)
    requires a != [] && b != []
    ensures PreReleaseBelow(a, b) <==> IdentifierBelow(a[0], b[0]) || (a[0] == b[0] && PreReleaseBelow(a[1..], b[1..]))
  {
    if IdentifierBelow(a[0], b[0]) {
      assert a[..0] == b[..0];
    } else if a[0] == b[0] {
      assert a == [a[0]] + a[1..] && b == [b[0]] + b[1..];
      forall k | 0 <= k < |a[1..]| && k < |b[1..]| && a[1..][..k] == b[1..][..k] &&
          IdentifierBelow(a[1..][k], b[1..][k])
        ensures PreReleaseBelow(a, b) {
        assert a[..k + 1] == [a[0]] + a[1..][..k] && b[..k + 1] == [b[0]] + b[1..][..k];
        assert IdentifierBelow(a[k + 1], b[k + 1]);
      }
      forall k | 0 < k < |a| && k < |b| && a[..k] == b[..k] && IdentifierBelow(a[k], b[k])
        ensures PreReleaseBelow(a[1..], b[1..]) {
        assert a[1..][..k - 1] == a[..k][1..] && b[1..][..k - 1] == b[..k][1..];
        assert IdentifierBelow(a[1..][k - 1], b[1..][k - 1]);
      }
      if a < b {
        assert a[1..] < b[1..];
      }
      if a[1..] < b[1..] {
        assert a < b;
      }
    } else {
      forall k | 0 < k < |a| && k < |b| ensures a[..k] != b[..k] {
        assert a[..k][0] == a[0] && b[..k][0] == b[0];
      }
    }
  }

  /** The comparison loop computes the order of section 11 on the identifiers, with text compared after folding. */
  lemma {:induction false} FollowsSection11(p: Platform, a: seq<string>, b: seq<string>)
    ensures CompareLists(p, a, b) < 0 <==> PreReleaseBelow(IdentifiersOf(p, a), IdentifiersOf(p, b))
  {
    var x, y := IdentifiersOf(p, a), IdentifiersOf(p, b);
    if a != [] && b != [] {
      SamePartSameIdentifier(p, a[0], b[0]);
      PartsAntisymmetric(p, a[0], b[0]);
      FollowsSection11(p, a[1..], b[1..]);
      assert x[1..] == IdentifiersOf(p, a[1..]) && y[1..] == IdentifiersOf(p, b[1..]);
      PreReleaseBelowStep(x, y);
      if IdentifierBelow(x[0], y[0]) {
        assert x[0] != y[0];
      }
    }
  }

  /** The first number that differs decides. */
  lemma {:induction false} FirstDifferenceDecides(a: seq<int>, b: seq<int>)
    requires |a| == |b|
    ensures CompareCores(a, b) < 0 <==> exists k :: 0 <= k < |a| && a[..k] == b[..k] && a[k] < b[k]
    ensures CompareCores(a, b) == 0 <==> a == b
  {
    if a == [] {
    } else {
      assert a[..0] == b[..0];
      if a[0] == b[0] {
        FirstDifferenceDecides(a[1..], b[1..]);
        assert a == [a[0]] + a[1..] && b == [b[0]] + b[1..];
        forall k | 0 <= k < |a| - 1 && a[1..][..k] == b[1..][..k] && a[1..][k] < b[1..][k]
          ensures a[..k + 1] == b[..k + 1] && a[k + 1] < b[k + 1] {
          assert a[..k + 1] == [a[0]] + a[1..][..k] && b[..k + 1] == [b[0]] + b[1..][..k];
        }
        forall k | 0 < k < |a| && a[..k] == b[..k] && a[k] < b[k]
          ensures a[1..][..k - 1] == b[1..][..k - 1] && a[1..][k - 1] < b[1..][k - 1] {
          assert a[1..][..k - 1] == a[..k][1..] && b[1..][..k - 1] == b[..k][1..];
        }
      } else {
        forall k | 0 < k < |a| ensures a[..k] != b[..k] {
          assert a[..k][0] == a[0] && b[..k][0] == b[0];
        }
      }
    }
  }

  /** The whole of section 11: the core numbers, then a pre-release before its release, then the identifiers. */
  ghost predicate VersionBelow(p: Platform, a: Version, b: Version) {
    || (exists k | 0 <= k < |a.core| && k < |b.core| :: a.core[..k] == b.core[..k] && a.core[k] < b.core[k])
    || (a.core == b.core && a.preRelease != "" &&
          (b.preRelease == "" ||
           PreReleaseBelow(IdentifiersOf(p, Split(a.preRelease, '.')), IdentifiersOf(p, Split(b.preRelease, '.')))))
  }

  /** Which release is newer than which, for all texts. */
  lemma NewerMeans(p: Platform, candidate: string, current: string)
    ensures Newer(p, candidate, current) <==>
              && TryParseVersion(p, candidate).Some? && TryParseVersion(p, current).Some?
              && VersionBelow(p, TryParseVersion(p, current).value, TryParseVersion(p, candidate).value)
  {
    hide TryParseVersion, CompareCores, CompareLists, PreReleaseBelow, Split;
    CoreLengths(p, candidate);
    CoreLengths(p, current);
    if TryParseVersion(p, candidate).Some? && TryParseVersion(p, current).Some? {
      var a, b := TryParseVersion(p, current).value, TryParseVersion(p, candidate).value;
      VersionsAntisymmetric(p, b, a);
      FirstDifferenceDecides(a.core, b.core);
      FollowsSection11(p, Split(a.preRelease, '.'), Split(b.preRelease, '.'));
    }
  }

  // ---- What is parsed.

  function Join(parts: seq<string>, c: char): string {
    if parts == [] then [] else if |parts| == 1 then parts[0] else parts[0] + [c] + Join(parts[1..], c)
  }

  lemma {:induction false} IndexOfFirst(before: string, c: char, after: string)
    requires c !in before
    ensures IndexOf(before + [c] + after, c) == Some(|before|)
  {
    var s := before + [c] + after;
    if before == [] {
      assert s[0] == c;
    } else {
      IndexOfFirst(before[1..], c, after);
      assert s[1..] == before[1..] + [c] + after && s[0] == before[0];
    }
  }

  /** Splitting at a character undoes joining with it, in both directions. */
  lemma {:induction false} SplitsJoined(parts: seq<string>, c: char)
    requires parts != [] && forall part | part in parts :: c !in part
    ensures Split(Join(parts, c), c) == parts
  {
    var s := Join(parts, c);
    if |parts| == 1 {
      assert s == parts[0] && parts[0] in parts;
      assert IndexOf(s, c).None?;
      assert parts == [s];
    } else {
      SplitsJoined(parts[1..], c);
      IndexOfFirst(parts[0], c, Join(parts[1..], c));
      assert s[..|parts[0]|] == parts[0] && s[|parts[0]| + 1..] == Join(parts[1..], c);
    }
  }

  lemma {:induction false} JoinsSplit(s: string, c: char)
    ensures Join(Split(s, c), c) == s && forall part | part in Split(s, c) :: c !in part
    decreases |s|
  {
    hide IndexOf;
    match IndexOf(s, c) {
      case None =>
      case Some(i) =>
        var first, rest := s[..i], Split(s[i + 1..], c);
        JoinsSplit(s[i + 1..], c);
        assert s == first + [c] + s[i + 1..];
        assert Split(s, c) == [first] + rest;
        JoinOneMore(first, rest, c);
    }
  }

  lemma JoinOneMore(first: string, rest: seq<string>, c: char)
    requires rest != []
    ensures Join([first] + rest, c) == first + [c] + Join(rest, c)
  {
    assert ([first] + rest)[1..] == rest;
  }

  lemma {:induction false} TrimsStart(lead: string, rest: string, drop: char -> bool)
    requires (forall c | c in lead :: drop(c)) && rest != [] && !drop(rest[0])
    ensures TrimStart(lead + rest, drop) == rest
  {
    if lead == [] {
      assert lead + rest == rest;
    } else {
      assert (lead + rest)[1..] == lead[1..] + rest && (lead + rest)[0] in lead;
      TrimsStart(lead[1..], rest, drop);
    }
  }

  lemma {:induction false} TrimsEnd(rest: string, trail: string, drop: char -> bool)
    requires (forall c | c in trail :: drop(c)) && rest != [] && !drop(rest[|rest| - 1])
    ensures TrimEnd(rest + trail, drop) == rest
  {
    if trail == [] {
      assert rest + trail == rest;
    } else {
      var shorter := trail[..|trail| - 1];
      assert (rest + trail)[..|rest + trail| - 1] == rest + shorter && (rest + trail)[|rest + trail| - 1] in trail;
      TrimsEnd(rest, shorter, drop);
    }
  }

  lemma {:induction false} AllKept(parts: seq<string>)
    requires forall part | part in parts :: part != []
    ensures NonEmpty(parts) == parts
  {
    if parts == [] {
    } else {
      assert parts[0] in parts && forall part | part in parts[1..] :: part in parts;
      AllKept(parts[1..]);
    }
  }

  lemma {:induction false} JoinHasNo(parts: seq<string>, c: char, other: char)
    requires other != c && forall part | part in parts :: other !in part
    ensures other !in Join(parts, c)
  {
    if parts == [] {
    } else {
      assert parts[0] in parts;
      JoinHasNo(parts[1..], c, other);
    }
  }

  lemma NotBefore(s: string, c: char)
    requires c !in s
    ensures IndexOf(s, c) == None
  {
  }

  /** A release text: one to four numbers with dots between, then perhaps a pre-release, then perhaps build data. */
  function Spelled(parts: seq<string>, preRelease: Option<string>, build: Option<string>): string {
    Join(parts, '.')
    + (match preRelease case None => "" case Some(text) => "-" + text)
    + (match build case None => "" case Some(text) => "+" + text)
  }

  /** Parts between dots, none empty and none with a mark in it. */
  predicate PlainParts(parts: seq<string>) {
    && parts != []
    && forall k | 0 <= k < |parts| :: parts[k] != [] && '.' !in parts[k] && '-' !in parts[k] && '+' !in parts[k]
  }

  predicate NumberParts(p: Platform, parts: seq<string>) {
    && |parts| <= 4
    && forall k | 0 <= k < |parts| :: p.parseInt(parts[k]).Some? && p.parseInt(parts[k]).value >= 0
  }

  /** Four numbers, the missing ones zero. */
  function CoreOf(p: Platform, parts: seq<string>): seq<int>
    requires NumberParts(p, parts)
  {
    seq(4, k requires 0 <= k < 4 => if k < |parts| then p.parseInt(parts[k]).value else 0)
  }

  /** Build data is cut off. */
  lemma CutsBuild(normalized: string, build: Option<string>)
    requires '+' !in normalized
    ensures
      var text := normalized + match build case None => "" case Some(data) => "+" + data;
      (match IndexOf(text, '+') case None => text case Some(i) => text[..i]) == normalized
  {
    hide IndexOf;
    match build {
      case None =>
        NotBefore(normalized, '+');
        assert normalized + "" == normalized;
      case Some(data) =>
        assert normalized + ("+" + data) == normalized + ['+'] + data;
        IndexOfFirst(normalized, '+', data);
    }
  }

  /** What follows the first dash is the pre-release. */
  lemma CutsPreRelease(core: string, preRelease: Option<string>)
    requires '-' !in core
    ensures
      var normalized := core + match preRelease case None => "" case Some(tag) => "-" + tag;
      match preRelease
      case None => IndexOf(normalized, '-') == None && normalized == core
      case Some(tag) =>
        && IndexOf(normalized, '-') == Some(|core|) && normalized[..|core|] == core && normalized[|core| + 1..] == tag
  {
    hide IndexOf;
    match preRelease {
      case None =>
        NotBefore(core, '-');
        assert core + "" == core;
      case Some(tag) =>
        assert core + ("-" + tag) == core + ['-'] + tag;
        IndexOfFirst(core, '-', tag);
    }
  }

  /**
   * White space around the text and any v before the numbers are ignored, and missing numbers are zero. There may be up
   * to four numbers, none negative, and a pre-release that is announced may not be empty.
   */
  lemma ParsesRelease(p: Platform, lead: string, vs: string, parts: seq<string>, preRelease: Option<string>,
                      build: Option<string>, trail: string)
    requires PlainParts(parts) && (preRelease.Some? ==> '+' !in preRelease.value)
    requires (forall c | c in lead + trail :: p.isSpace(c)) && (forall c | c in vs :: c == 'v' || c == 'V')
    requires
      var text := vs + Spelled(parts, preRelease, build);
      && text != [] && !p.isSpace(text[0]) && !p.isSpace(text[|text| - 1])
      && parts[0][0] != 'v' && parts[0][0] != 'V'
    ensures
      TryParseVersion(p, lead + (vs + Spelled(parts, preRelease, build)) + trail) ==
        if NumberParts(p, parts) && preRelease != Some("") then
          Some(Version(CoreOf(p, parts), match preRelease case None => "" case Some(tag) => tag))
        else None
  {
    hide IndexOf, Split, Join, TrimStart, TrimEnd, NonEmpty, IsNumber, ParseTrimmed, NumberParts;
    var spelled := Spelled(parts, preRelease, build);
    var text := vs + spelled;
    CoreOfParts(parts);
    assert lead + text + trail == lead + (text + trail) && (text + trail)[0] == text[0];
    TrimsStart(lead, text + trail, p.isSpace);
    TrimsEnd(text, trail, p.isSpace);
    assert spelled[0] == Join(parts, '.')[0];
    TrimsStart(vs, spelled, c => c == 'v' || c == 'V');
    ParsesSpelled(p, parts, preRelease, build);
  }

  lemma ParsesSpelled(p: Platform, parts: seq<string>, preRelease: Option<string>, build: Option<string>)
    requires PlainParts(parts) && (preRelease.Some? ==> '+' !in preRelease.value)
    ensures
      ParseTrimmed(p, Spelled(parts, preRelease, build)) ==
        if NumberParts(p, parts) && preRelease != Some("") then
          Some(Version(CoreOf(p, parts), match preRelease case None => "" case Some(tag) => tag))
        else None
  {
    hide IndexOf, Split, Join, NonEmpty, IsNumber, NumberAt, CoreOf, NumberParts;
    var core := Join(parts, '.');
    CoreOfParts(parts);
    var normalized := core + match preRelease case None => "" case Some(tag) => "-" + tag;
    CutsBuild(normalized, build);
    CutsPreRelease(core, preRelease);
    FourNumbers(p, parts);
  }

  lemma FourNumbers(p: Platform, parts: seq<string>)
    ensures NumberParts(p, parts) <==> |parts| <= 4 && forall part | part in parts :: IsNumber(p, part)
    ensures NumberParts(p, parts) ==>
              [NumberAt(p, parts, 0), NumberAt(p, parts, 1), NumberAt(p, parts, 2), NumberAt(p, parts, 3)] ==
              CoreOf(p, parts)
  {
    forall k | 0 <= k < |parts| && (forall part | part in parts :: IsNumber(p, part)) ensures IsNumber(p, parts[k]) {
      assert parts[k] in parts;
    }
  }

  lemma CoreOfParts(parts: seq<string>)
    requires PlainParts(parts)
    ensures
      var core := Join(parts, '.');
      && core != [] && core[0] == parts[0][0] && '-' !in core && '+' !in core && NonEmpty(Split(core, '.')) == parts
  {
    hide Split, NonEmpty;
    JoinHasNo(parts, '.', '-');
    JoinHasNo(parts, '.', '+');
    SplitsJoined(parts, '.');
    AllKept(parts);
  }
}
