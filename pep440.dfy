/** The part of PEP 440 ("Version Identification and Dependency Specification") that the
    header's application versions use: a numeric release `N(.N)*` and an optional
    developmental release `.devN`, with the ordering of `packaging.version.Version`. */
module Pep440 {
  import opened Wrappers
  import opened Text
  import opened Numbers

  datatype Version = Version(release: seq<nat>, dev: Option<nat>)

  predicate WellFormed(v: Version) {
    |v.release| > 0
  }

  // ---------------------------------------------------------------- parsing

  predicate IsSeparator(c: char) {
    c == '.' || c == '-' || c == '_'
  }

  /** Reads the release `[0-9]+(\.[0-9]+)*` greedily from the start of `s`; yields its
      segments and the number of characters it spans. */
  function ParseRelease(s: string): (r: (seq<nat>, nat))
    requires |s| > 0 && IsDecimal(s[0])
    ensures |r.0| > 0 && 0 < r.1 <= |s|
    decreases |s|
  {
    var n := Run(Digit, s);
    RunChars(Digit, s);
    var segment := DigitsValue(s[..n]);
    if n + 1 < |s| && s[n] == '.' && IsDecimal(s[n + 1]) then
      var more := ParseRelease(s[n + 1..]);
      ([segment] + more.0, n + 1 + more.1)
    else
      ([segment], n)
  }

  predicate IsDevWord(s: string)
    requires |s| == 3
  {
    (s[0] == 'd' || s[0] == 'D') && (s[1] == 'e' || s[1] == 'E') && (s[2] == 'v' || s[2] == 'V')
  }

  /** The developmental-release suffix `[-_.]?dev[-_.]?[0-9]*` (any letter case), which must
      make up all of `s`; a missing number stands for 0. */
  function DevSuffix(s: string): Option<nat> {
    var a := if |s| > 0 && IsSeparator(s[0]) then 1 else 0;
    if |s| < a + 3 || !IsDevWord(s[a..a + 3]) then None
    else
      var b := if |s| > a + 3 && IsSeparator(s[a + 3]) then a + 4 else a + 3;
      if AllDigits(s[b..]) then Some(DigitsValue(s[b..])) else None
  }

  /** A version written without surrounding whitespace or `v` prefix. */
  function ParseBare(u: string): (r: Option<Version>)
    ensures r.Some? ==> WellFormed(r.value)
  {
    if |u| == 0 || !IsDecimal(u[0]) then None
    else
      var release := ParseRelease(u);
      if release.1 == |u| then Some(Version(release.0, None))
      else
        match DevSuffix(u[release.1..])
        case Some(d) => Some(Version(release.0, Some(d)))
        case None => None
  }

  /** `Version(s)`: surrounding whitespace and a leading `v` are ignored; `None` where the
      constructor raises `InvalidVersion` (and for the PEP 440 forms outside this subset). */
  function Parse(s: string): (r: Option<Version>)
    ensures r.Some? ==> WellFormed(r.value)
  {
    ParseBare(DropV(Strip(s)))
  }

  /** A leading `v` or `V` is ignored. */
  function DropV(t: string): string {
    if |t| > 0 && (t[0] == 'v' || t[0] == 'V') then t[1..] else t
  }

  // -------------------------------------------------------------- rendering

  function JoinSegments(release: seq<nat>): (s: string)
    requires |release| > 0
    ensures |s| > 0 && IsDecimal(s[0]) && IsDecimal(s[|s| - 1])
  {
    if |release| == 1 then NatToString(release[0])
    else NatToString(release[0]) + "." + JoinSegments(release[1..])
  }

  /** A rendered release holds only digits and dots. */
  lemma {:induction false} JoinSegmentsChars(release: seq<nat>)
    requires |release| > 0
    ensures forall k :: 0 <= k < |JoinSegments(release)| ==> IsDecimal(JoinSegments(release)[k]) || JoinSegments(release)[k] == '.'
  {
    if |release| > 1 {
      JoinSegmentsChars(release[1..]);
    }
  }

  /** `str(v)`: segments in decimal joined by dots, then `.devN`. */
  function ToString(v: Version): string
    requires WellFormed(v)
  {
    JoinSegments(v.release) + match v.dev
      case None => ""
      case Some(d) => ".dev" + NatToString(d)
  }

  /** The text that can follow a release without extending it. */
  predicate StopsRelease(suffix: string) {
    && (suffix == [] || !IsDecimal(suffix[0]))
    && !(|suffix| > 1 && suffix[0] == '.' && IsDecimal(suffix[1]))
  }

  /** The last segment of a release: the greedy parse stops before `suffix`. */
  lemma {:induction false} ParseReleaseLast(n: nat, suffix: string)
    requires StopsRelease(suffix)
    ensures ParseRelease(NatToString(n) + suffix) == ([n], |NatToString(n)|)
  {
    var first := NatToString(n);
    var s := first + suffix;
    RunOfPrefix(Digit, first, suffix);
    assert s[..|first|] == first;
    NatToStringRoundTrip(n);
    assert |suffix| > 1 ==> s[|first|] == suffix[0] && s[|first| + 1] == suffix[1];
  }

  /** A run of digits followed by a dot and a digit: the greedy parse continues after the dot. */
  lemma {:induction false} ParseReleaseAfter(first: string, tail: string)
    requires |first| > 0 && AllDigits(first) && |tail| > 0 && IsDecimal(tail[0])
    ensures ParseRelease(first + "." + tail)
      == ([DigitsValue(first)] + ParseRelease(tail).0, |first| + 1 + ParseRelease(tail).1)
  {
    var s := first + "." + tail;
    assert s == first + ("." + tail);
    RunOfPrefix(Digit, first, "." + tail);
    assert s[..|first|] == first;
    assert s[|first|] == '.' && s[|first| + 1] == tail[0];
    assert s[|first| + 1..] == tail;
  }

  /** A segment followed by a dot and a digit: the greedy parse continues after the dot. */
  lemma {:induction false} ParseReleaseNext(n: nat, tail: string)
    requires |tail| > 0 && IsDecimal(tail[0])
    ensures ParseRelease(NatToString(n) + "." + tail)
      == ([n] + ParseRelease(tail).0, |NatToString(n)| + 1 + ParseRelease(tail).1)
  {
    ParseReleaseAfter(NatToString(n), tail);
    NatToStringRoundTrip(n);
  }

  lemma {:induction false} ParseReleaseOfJoin(release: seq<nat>, suffix: string)
    requires |release| > 0 && StopsRelease(suffix)
    ensures ParseRelease(JoinSegments(release) + suffix) == (release, |JoinSegments(release)|)
  {
    if |release| == 1 {
      ParseReleaseLast(release[0], suffix);
      assert [release[0]] == release;
    } else {
      ParseReleaseOfJoin(release[1..], suffix);
      ParseReleaseOfJoinStep(release, suffix);
    }
  }

  lemma {:induction false} ParseReleaseOfJoinStep(release: seq<nat>, suffix: string)
    requires |release| > 1 && StopsRelease(suffix)
    requires ParseRelease(JoinSegments(release[1..]) + suffix) == (release[1..], |JoinSegments(release[1..])|)
    ensures ParseRelease(JoinSegments(release) + suffix) == (release, |JoinSegments(release)|)
  {
    var rest := JoinSegments(release[1..]);
    ParseReleaseNext(release[0], rest + suffix);
    assert NatToString(release[0]) + "." + (rest + suffix) == JoinSegments(release) + suffix;
    assert [release[0]] + release[1..] == release;
  }

  lemma {:induction false} DevSuffixOfRendered(d: nat)
    ensures DevSuffix(".dev" + NatToString(d)) == Some(d)
  {
    var s := ".dev" + NatToString(d);
    assert s[1..4] == "dev";
    assert s[4..] == NatToString(d);
    NatToStringRoundTrip(d);
  }

  /** Text that starts with a digit and ends with no whitespace is parsed as it stands. */
  lemma {:induction false} ParseUnspaced(s: string)
    requires |s| > 0 && IsDecimal(s[0]) && !IsSpace(s[|s| - 1])
    ensures Parse(s) == ParseBare(s)
  {
    StripUnspaced(s);
    assert DropV(Strip(s)) == s;
  }

  /** Parsing undoes rendering. */
  lemma ParseToString(v: Version)
    requires WellFormed(v)
    ensures Parse(ToString(v)) == Some(v)
  {
    if v.dev.None? {
      assert ToString(v) == JoinSegments(v.release);
      ParseReleaseToString(v.release);
    } else {
      ParseDevToString(v.release, v.dev.value);
    }
  }

  lemma ParseReleaseToString(r: seq<nat>)
    requires |r| > 0
    ensures Parse(JoinSegments(r)) == Some(Version(r, None))
  {
    var s := JoinSegments(r);
    ParseUnspaced(s);
    assert s + "" == s;
    ParseReleaseOfJoin(r, "");
  }

  lemma ParseDevToString(r: seq<nat>, d: nat)
    requires |r| > 0
    ensures Parse(JoinSegments(r) + (".dev" + NatToString(d))) == Some(Version(r, Some(d)))
  {
    var joined := JoinSegments(r);
    var suffix := ".dev" + NatToString(d);
    var s := joined + suffix;
    ParseUnspaced(s);
    ParseReleaseOfJoin(r, suffix);
    assert s[|joined|..] == suffix;
    DevSuffixOfRendered(d);
  }

  // -------------------------------------------------------------- ordering

  /** Release segment `i`, zero-padded beyond the end. */
  function Segment(r: seq<nat>, i: nat): nat {
    if i < |r| then r[i] else 0
  }

  function Tail(r: seq<nat>): seq<nat> {
    if r == [] then [] else r[1..]
  }

  /** Three-way comparison of releases, lexicographic on the zero-padded segments. */
  function CompareRelease(a: seq<nat>, b: seq<nat>): (c: int)
    ensures -1 <= c <= 1
    decreases |a| + |b|
  {
    if a == [] && b == [] then 0
    else if Segment(a, 0) < Segment(b, 0) then -1
    else if Segment(a, 0) > Segment(b, 0) then 1
    else CompareRelease(Tail(a), Tail(b))
  }

  /** A developmental release sorts before the release; two of them by their numbers. */
  function CompareDev(a: Option<nat>, b: Option<nat>): int {
    match (a, b)
    case (None, None) => 0
    case (Some(_), None) => -1
    case (None, Some(_)) => 1
    case (Some(m), Some(n)) => if m < n then -1 else if m > n then 1 else 0
  }

  function Compare(a: Version, b: Version): (c: int)
    ensures -1 <= c <= 1
  {
    var c := CompareRelease(a.release, b.release);
    if c != 0 then c else CompareDev(a.dev, b.dev)
  }

  predicate Lt(a: Version, b: Version) { Compare(a, b) < 0 }
  predicate Le(a: Version, b: Version) { Compare(a, b) <= 0 }
  /** `a == b` of `packaging`: equal after zero padding. */
  predicate Eq(a: Version, b: Version) { Compare(a, b) == 0 }

  lemma {:induction false} SegmentOfTail(r: seq<nat>, i: nat)
    ensures Segment(Tail(r), i) == Segment(r, i + 1)
  {
  }

  /** Releases compare equal exactly when their zero-padded segments agree. */
  lemma {:induction false} CompareReleaseZeroPadded(a: seq<nat>, b: seq<nat>)
    ensures CompareRelease(a, b) == 0 <==> forall i: nat :: Segment(a, i) == Segment(b, i)
    decreases |a| + |b|
  {
    if a == [] && b == [] {
    } else if Segment(a, 0) != Segment(b, 0) {
    } else {
      CompareReleaseZeroPadded(Tail(a), Tail(b));
      if CompareRelease(a, b) == 0 {
        forall i: nat ensures Segment(a, i) == Segment(b, i) {
          if i > 0 {
            SegmentOfTail(a, i - 1);
            SegmentOfTail(b, i - 1);
          }
        }
      } else {
        var i: nat :| Segment(Tail(a), i) != Segment(Tail(b), i);
        SegmentOfTail(a, i);
        SegmentOfTail(b, i);
      }
    }
  }

  /** Releases compare below exactly at the first zero-padded segment where they differ. */
  lemma {:induction false} CompareReleaseFirstDifference(a: seq<nat>, b: seq<nat>)
    ensures CompareRelease(a, b) < 0 <==>
      exists i: nat :: Segment(a, i) < Segment(b, i) && forall j: nat :: j < i ==> Segment(a, j) == Segment(b, j)
    decreases |a| + |b|
  {
    if a == [] && b == [] {
    } else if Segment(a, 0) < Segment(b, 0) {
      assert Segment(a, 0) < Segment(b, 0) && forall j: nat :: j < 0 ==> Segment(a, j) == Segment(b, j);
    } else if Segment(a, 0) > Segment(b, 0) {
    } else {
      CompareReleaseFirstDifference(Tail(a), Tail(b));
      if CompareRelease(a, b) < 0 {
        var i: nat :| Segment(Tail(a), i) < Segment(Tail(b), i)
          && forall j: nat :: j < i ==> Segment(Tail(a), j) == Segment(Tail(b), j);
        SegmentOfTail(a, i);
        SegmentOfTail(b, i);
        forall j: nat | j < i + 1 ensures Segment(a, j) == Segment(b, j) {
          if j > 0 {
            SegmentOfTail(a, j - 1);
            SegmentOfTail(b, j - 1);
          }
        }
      } else if exists i: nat :: Segment(a, i) < Segment(b, i) && forall j: nat :: j < i ==> Segment(a, j) == Segment(b, j) {
        var i: nat :| Segment(a, i) < Segment(b, i) && forall j: nat :: j < i ==> Segment(a, j) == Segment(b, j);
        assert i > 0;
        SegmentOfTail(a, i - 1);
        SegmentOfTail(b, i - 1);
        forall j: nat | j < i - 1 ensures Segment(Tail(a), j) == Segment(Tail(b), j) {
          SegmentOfTail(a, j);
          SegmentOfTail(b, j);
        }
        assert false;
      }
    }
  }

  lemma {:induction false} CompareReleaseAntisymmetric(a: seq<nat>, b: seq<nat>)
    ensures CompareRelease(a, b) == -CompareRelease(b, a)
    decreases |a| + |b|
  {
    if !(a == [] && b == []) && Segment(a, 0) == Segment(b, 0) {
      CompareReleaseAntisymmetric(Tail(a), Tail(b));
    }
  }

  lemma {:induction false} CompareReleaseTransitive(a: seq<nat>, b: seq<nat>, c: seq<nat>)
    requires CompareRelease(a, b) <= 0 && CompareRelease(b, c) <= 0
    ensures CompareRelease(a, c) <= 0
    ensures CompareRelease(a, b) < 0 || CompareRelease(b, c) < 0 ==> CompareRelease(a, c) < 0
    decreases |a| + |b| + |c|
  {
    if a == [] && b == [] && c == [] {
    } else if Segment(a, 0) == Segment(b, 0) && Segment(b, 0) == Segment(c, 0) {
      assert CompareRelease(a, b) == CompareRelease(Tail(a), Tail(b)) by {
        if a == [] && b == [] {}
      }
      assert CompareRelease(b, c) == CompareRelease(Tail(b), Tail(c)) by {
        if b == [] && c == [] {}
      }
      assert !(a == [] && c == []) || CompareRelease(Tail(a), Tail(c)) == 0;
      CompareReleaseTransitive(Tail(a), Tail(b), Tail(c));
    }
  }

  /** The ordering of versions is a total preorder: antisymmetric ... */
  lemma CompareAntisymmetric(a: Version, b: Version)
    ensures Compare(a, b) == -Compare(b, a)
  {
    CompareReleaseAntisymmetric(a.release, b.release);
  }

  /** ... and transitive, strictly so when either step is strict. */
  lemma CompareTransitive(a: Version, b: Version, c: Version)
    requires Le(a, b) && Le(b, c)
    ensures Le(a, c)
    ensures Lt(a, b) || Lt(b, c) ==> Lt(a, c)
  {
    CompareReleaseTransitive(a.release, b.release, c.release);
    var ab := CompareRelease(a.release, b.release);
    var bc := CompareRelease(b.release, c.release);
    if ab == 0 && bc == 0 {
      CompareReleaseZeroPadded(a.release, b.release);
      CompareReleaseZeroPadded(b.release, c.release);
      CompareReleaseZeroPadded(a.release, c.release);
    }
  }

  /** Zero padding: `2` equals `2.0` (PEP 440, "Final releases"). */
  lemma TrailingZeroEqual(r: seq<nat>, d: Option<nat>)
    ensures Eq(Version(r, d), Version(r + [0], d))
  {
    CompareReleaseZeroPadded(r, r + [0]);
    assert forall i: nat :: Segment(r, i) == Segment(r + [0], i);
    CompareReleaseZeroPadded(r, r);
  }

  /** `X.devN` sorts before `X` (PEP 440, "Developmental releases"), and developmental
      releases of one release sort by their numbers. */
  lemma DevPrecedesRelease(r: seq<nat>, m: nat, n: nat)
    ensures Lt(Version(r, Some(n)), Version(r, None))
    ensures Lt(Version(r, Some(m)), Version(r, Some(n))) <==> m < n
  {
    CompareReleaseZeroPadded(r, r);
  }

  // ------------------------------------------------- development builds

  /** Cheetah writes development builds as `X Development`. */
  const DEVELOPMENT := " Development"

  /** `app_version.replace(" Development", ".dev0")` when the marker occurs. */
  function NormaliseDevelopment(t: string): string {
    if Contains(t, DEVELOPMENT) then Replace(t, DEVELOPMENT, ".dev0") else t
  }

  lemma {:induction false} ContainsSuffix(x: string, p: string)
    ensures Contains(x + p, p)
  {
    if x != [] {
      assert (x + p)[1..] == x[1..] + p;
      ContainsSuffix(x[1..], p);
    } else {
      assert (x + p)[..|p|] == p;
    }
  }

  /** A development build of release `X` becomes the version `X.dev0`, which sorts before
      the release `X` itself. */
  lemma DevelopmentBuildPrecedesRelease(v: Version)
    requires WellFormed(v) && v.dev.None?
    ensures Parse(NormaliseDevelopment(ToString(v) + DEVELOPMENT)) == Some(Version(v.release, Some(0)))
    ensures Lt(Version(v.release, Some(0)), v)
  {
    var x := ToString(v);
    JoinSegmentsChars(v.release);
    ContainsSuffix(x, DEVELOPMENT);
    ReplaceSuffix(x, DEVELOPMENT, ".dev0");
    var dev := Version(v.release, Some(0));
    assert ToString(dev) == x + ".dev0";
    ParseToString(dev);
    DevPrecedesRelease(v.release, 0, 0);
  }
}
