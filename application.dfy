/** `setApplicationAndVersion`: which program wrote the file, and its version. */
module Application {
  import opened Wrappers
  import opened Text
  import opened Numbers
  import opened Values
  import opened Pep440

  // ---------------------------------------------- the name and version pattern

  /** A match of `(\S*) "([\S ]*)"`: where it starts and ends, and its two groups. */
  datatype AppMatch = AppMatch(start: nat, name: string, version: string, end: nat)

  /** Text that stays on one line: `[\S ]*`. */
  predicate IsLine(s: string) {
    forall k :: 0 <= k < |s| ==> In(LineChar, s[k])
  }

  /** The position of the last `"` in `s`. */
  function LastQuote(s: string): (r: Option<nat>)
    ensures r.Some? ==> r.value < |s| && s[r.value] == '"' && forall k :: r.value < k < |s| ==> s[k] != '"'
    ensures r.None? ==> forall k :: 0 <= k < |s| ==> s[k] != '"'
  {
    if s == [] then None
    else if s[|s| - 1] == '"' then Some(|s| - 1)
    else LastQuote(s[..|s| - 1])
  }

  /** The match of `(\S*) "([\S ]*)"` at position `i`. The name run must be followed by a
      space, which it cannot hold, so only its longest run can match. */
  function AppMatchAt(s: string, i: nat): (r: Option<AppMatch>)
    requires i <= |s|
    ensures r.Some? ==> r.value.start == i < r.value.end <= |s| && s[r.value.end - 1] == '"'
    ensures r.Some? && IsLine(s) ==> forall k :: r.value.end <= k < |s| ==> s[k] != '"'
  {
    AppQuoteAt(s, i, i + Run(NonSpace, s[i..]))
  }

  /** The rest of the match once the name ends at `q`: a space and a `"`, then the version
      run, which gives characters back until a `"` follows, so the version ends at the
      line's last `"`. */
  function AppQuoteAt(s: string, i: nat, q: nat): (r: Option<AppMatch>)
    requires i <= q <= |s|
    ensures r.Some? ==> r.value.start == i < r.value.end <= |s| && s[r.value.end - 1] == '"'
    ensures r.Some? && IsLine(s) ==> forall k :: r.value.end <= k < |s| ==> s[k] != '"'
  {
    if q + 1 < |s| && s[q] == ' ' && s[q + 1] == '"' then
      var v := Run(LineChar, s[q + 2..]);
      match LastQuote(s[q + 2..q + 2 + v])
      case None => None
      case Some(c) =>
        assert forall k :: q + 3 + c <= k < q + 2 + v ==> s[k] == s[q + 2..q + 2 + v][k - q - 2];
        Some(AppMatch(i, s[i..q], s[q + 2..q + 2 + c], q + 3 + c))
    else None
  }

  /** `re.findall(r'(\S*) "([\S ]*)"', s)` from position `i`. */
  function FindAppFrom(s: string, i: nat): (ms: seq<AppMatch>)
    requires i <= |s|
    ensures forall k :: 0 <= k < |ms| ==> i <= ms[k].start < ms[k].end <= |s|
    ensures forall k :: 0 < k < |ms| ==> ms[k - 1].end <= ms[k].start
    decreases |s| - i
  {
    if i == |s| then []
    else match AppMatchAt(s, i)
      case None => FindAppFrom(s, i + 1)
      case Some(m) => [m] + FindAppFrom(s, m.end)
  }

  /** The groups of a match once the name ends at `q`: the name is the text before `q`,
      then come a space and a `"`, and the version is the `[\S ]` text up to the closing
      `"`, which ends the match. */
  lemma AppQuoteAtGroups(s: string, i: nat, q: nat)
    requires i <= q <= |s| && AppQuoteAt(s, i, q).Some?
    ensures var m := AppQuoteAt(s, i, q).value;
      && m.end == q + 3 + |m.version| && m.name == s[i..q]
      && s[q] == ' ' && s[q + 1] == '"'
      && m.version == s[q + 2..m.end - 1] && IsLine(m.version)
  {
    var v := Run(LineChar, s[q + 2..]);
    RunChars(LineChar, s[q + 2..]);
    var c := LastQuote(s[q + 2..q + 2 + v]).value;
    var version := AppQuoteAt(s, i, q).value.version;
    assert version == s[q + 2..q + 2 + c];
    assert forall k :: 0 <= k < |version| ==> version[k] == s[q + 2..][k];
  }

  /** The groups of a match: the name is the longest run of non-whitespace at the start,
      followed by a space and a `"`; the version is the `[\S ]` text between the quotes. */
  lemma AppMatchAtGroups(s: string, i: nat)
    requires i <= |s| && AppMatchAt(s, i).Some?
    ensures var m := AppMatchAt(s, i).value; var q := i + |m.name|;
      && m.end == q + 3 + |m.version| && m.name == s[i..q]
      && (forall k :: 0 <= k < |m.name| ==> !IsSpace(m.name[k]))
      && s[q] == ' ' && s[q + 1] == '"'
      && m.version == s[q + 2..m.end - 1] && IsLine(m.version)
  {
    var q := i + Run(NonSpace, s[i..]);
    assert AppMatchAt(s, i) == AppQuoteAt(s, i, q);
    var m := AppQuoteAt(s, i, q).value;
    AppQuoteAtGroups(s, i, q);
    RunChars(NonSpace, s[i..]);
    forall k | 0 <= k < |m.name|
      ensures !IsSpace(m.name[k])
    {
      assert m.name[k] == s[i..][k];
    }
  }

  /** Every match found is the pattern's match at its start. */
  lemma {:induction false} FindAppSound(s: string, i: nat, k: nat)
    requires i <= |s| && k < |FindAppFrom(s, i)|
    ensures AppMatchAt(s, FindAppFrom(s, i)[k].start) == Some(FindAppFrom(s, i)[k])
    decreases |s| - i
  {
    var here := AppMatchAt(s, i);
    if here.None? {
      assert FindAppFrom(s, i) == FindAppFrom(s, i + 1);
      FindAppSound(s, i + 1, k);
    } else if k > 0 {
      var rest := FindAppFrom(s, here.value.end);
      assert FindAppFrom(s, i) == [here.value] + rest;
      assert FindAppFrom(s, i)[k] == rest[k - 1];
      FindAppSound(s, here.value.end, k - 1);
    }
  }

  /** Position `j` lies inside one of the matches `ms`. */
  predicate CoversApp(ms: seq<AppMatch>, j: nat) {
    exists k :: 0 <= k < |ms| && ms[k].start <= j < ms[k].end
  }

  /** No match is missed: every position where the pattern matches lies inside one of the
      matches found. */
  lemma {:induction false} FindAppComplete(s: string, i: nat, j: nat)
    requires i <= j <= |s| && AppMatchAt(s, j).Some?
    ensures CoversApp(FindAppFrom(s, i), j)
    decreases |s| - i
  {
    match AppMatchAt(s, i)
    case None =>
      FindAppComplete(s, i + 1, j);
    case Some(m) =>
      if m.end <= j {
        FindAppComplete(s, m.end, j);
        CoversAppCons(m, FindAppFrom(s, m.end), j);
      } else {
        CoversAppHead(m, FindAppFrom(s, m.end), j);
      }
  }

  lemma CoversAppHead(m: AppMatch, rest: seq<AppMatch>, j: nat)
    requires m.start <= j < m.end
    ensures CoversApp([m] + rest, j)
  {
    assert ([m] + rest)[0] == m;
  }

  lemma CoversAppCons(m: AppMatch, rest: seq<AppMatch>, j: nat)
    requires CoversApp(rest, j)
    ensures CoversApp([m] + rest, j)
  {
    var k :| 0 <= k < |rest| && rest[k].start <= j < rest[k].end;
    assert ([m] + rest)[k + 1] == rest[k];
  }

  function FindApp(s: string): seq<AppMatch> {
    FindAppFrom(s, 0)
  }

  /** Without a `"` there is no match. */
  lemma {:induction false} NoQuoteNoMatch(s: string, i: nat)
    requires i <= |s| && forall k :: i <= k < |s| ==> s[k] != '"'
    ensures FindAppFrom(s, i) == []
    decreases |s| - i
  {
    if i < |s| {
      assert AppMatchAt(s, i).None?;
      NoQuoteNoMatch(s, i + 1);
    }
  }

  /** On the text of one header line the pattern matches at most once: the first match runs
      to the line's last `"`. */
  lemma {:induction false} AtMostOneOnLine(s: string, i: nat)
    requires i <= |s| && IsLine(s)
    ensures |FindAppFrom(s, i)| <= 1
    decreases |s| - i
  {
    if i < |s| {
      match AppMatchAt(s, i)
      case None =>
        AtMostOneOnLine(s, i + 1);
      case Some(m) =>
        NoQuoteNoMatch(s, m.end);
    }
  }

  /** `N "V"` yields the name `N` and the version `V` when the name holds no whitespace and
      the version stays on the line. */
  lemma {:induction false} NameAndVersion(name: string, version: string)
    requires forall k :: 0 <= k < |name| ==> !IsSpace(name[k])
    requires IsLine(version)
    ensures FindApp(name + " \"" + version + "\"") == [AppMatch(0, name, version, |name| + |version| + 3)]
  {
    var s := name + " \"" + version + "\"";
    var m := AppMatch(0, name, version, |s|);
    MatchOfNameAndVersion(name, version);
    assert FindAppFrom(s, 0) == [m] + FindAppFrom(s, |s|);
  }

  lemma {:induction false} MatchOfNameAndVersion(name: string, version: string)
    requires forall k :: 0 <= k < |name| ==> !IsSpace(name[k])
    requires IsLine(version)
    ensures var s := name + " \"" + version + "\""; AppMatchAt(s, 0) == Some(AppMatch(0, name, version, |s|))
  {
    var s := name + " \"" + version + "\"";
    var q := |name|;
    assert s[..q] == name;
    assert s[q + 2..|s| - 1] == version;
    assert forall k :: q + 2 <= k < |s| - 1 ==> s[k] == version[k - q - 2];
    AppMatchAtLaidOut(s, q);
  }

  /** Text laid out as a name without whitespace, a space, a `"`, a version on one line and
      a closing `"` is one match of the whole text. */
  lemma AppMatchAtLaidOut(s: string, q: nat)
    requires q + 3 <= |s| && s[q] == ' ' && s[q + 1] == '"' && s[|s| - 1] == '"'
    requires forall k :: 0 <= k < q ==> !IsSpace(s[k])
    requires forall k :: q + 2 <= k < |s| - 1 ==> In(LineChar, s[k])
    ensures AppMatchAt(s, 0) == Some(AppMatch(0, s[..q], s[q + 2..|s| - 1], |s|))
  {
    RunOfPrefix(NonSpace, s[..q], s[q..]);
    assert s[0..] == s[..q] + s[q..];
    var tail := s[q + 2..];
    assert forall k :: 0 <= k < |tail| ==> tail[k] == s[q + 2 + k];
    RunOfPrefix(LineChar, tail, []);
    assert tail + [] == tail;
    AppMatchAtRuns(s, q);
  }

  /** The same, once the two runs are known to end at the space and at the end. */
  lemma AppMatchAtRuns(s: string, q: nat)
    requires q + 3 <= |s| && s[q] == ' ' && s[q + 1] == '"' && s[|s| - 1] == '"'
    requires Run(NonSpace, s[0..]) == q && Run(LineChar, s[q + 2..]) == |s| - q - 2
    ensures AppMatchAt(s, 0) == Some(AppMatch(0, s[..q], s[q + 2..|s| - 1], |s|))
  {
    var tail := s[q + 2..];
    assert s[q + 2..q + 2 + |tail|] == tail;
    assert LastQuote(tail) == Some(|tail| - 1);
    AppQuoteAtOf(s, 0, q, |tail|, |tail| - 1);
    assert s[0..q] == s[..q];
  }

  /** The match after the name, laid out: a space, a `"`, a version run and its last `"`. */
  lemma AppQuoteAtOf(s: string, i: nat, q: nat, v: nat, c: nat)
    requires i <= q && q + 1 < |s| && s[q] == ' ' && s[q + 1] == '"'
    requires v == Run(LineChar, s[q + 2..]) && LastQuote(s[q + 2..q + 2 + v]) == Some(c)
    ensures AppQuoteAt(s, i, q) == Some(AppMatch(i, s[i..q], s[q + 2..q + 2 + c], q + 3 + c))
  {
  }

  // --------------------------------------------------------------- the step

  /** The version text, with a development build written `X.dev0`, becomes
      `ApplicationVersion`; text that is not a version raises. */
  function SetVersion(m: Props, text: string): (r: Step<()>)
    ensures OnlyChanged(m, r.props, {"ApplicationVersion"})
    ensures r.result.Success? <==> Parse(NormaliseDevelopment(text)).Some?
    ensures r.result.Success? ==> r.props == m["ApplicationVersion" := Ver(Parse(NormaliseDevelopment(text)).value)]
  {
    var t := NormaliseDevelopment(text);
    match Parse(t)
    case Some(v) =>
      UpdateOnlyChanged(m, "ApplicationVersion", Ver(v), {"ApplicationVersion"});
      Step(m["ApplicationVersion" := Ver(v)], Success(()))
    case None => Step(m, Failure(InvalidVersion(t)))
  }

  /** `setApplicationAndVersion`: the first of four sources that applies gives the name and
      the version text. */
  function ApplicationAndVersion(m: Props): (r: Step<()>)
    ensures OnlyChanged(m, r.props, {"ApplicationName", "ApplicationVersion"})
    ensures r.result.Success? ==> && "ApplicationName" in r.props && r.props["ApplicationName"].Str?
                                  && "ApplicationVersion" in r.props && r.props["ApplicationVersion"].Ver?
  {
    if "CheetahRev" in m then
      if "ApplicationName" in m then Step(m, Failure(CheetahRevWithApplicationName))
      else
        var named := m["ApplicationName" := Str("Cheetah")];
        match m["CheetahRev"]
        case Str(t) => SetVersion(named, t)
        case _ => Step(named, Failure(WrongType("CheetahRev")))
    else if "ApplicationName" in m then
      match m["ApplicationName"]
      case Str(t) =>
        var found := FindApp(t);
        if |found| != 1 then Step(m, Failure(ApplicationNameUnmatched(t)))
        else SetVersion(m["ApplicationName" := Str(found[0].name)], found[0].version)
      case _ => Step(m, Failure(WrongType("ApplicationName")))
    else if "NLX_Base_Class_Type" in m then SetVersion(m["ApplicationName" := Str("BML")], "2.0")
    else SetVersion(m["ApplicationName" := Str("Neuraview")], "2")
  }

  // ------------------------------------------------------------- the cascade

  /** First branch: `CheetahRev` names Cheetah and gives the version, and may not come with
      an `ApplicationName`. */
  lemma CheetahRevBranch(m: Props, t: string)
    requires "CheetahRev" in m && m["CheetahRev"] == Str(t)
    ensures "ApplicationName" in m ==> ApplicationAndVersion(m) == Step(m, Failure(CheetahRevWithApplicationName))
    ensures "ApplicationName" !in m ==> ApplicationAndVersion(m).props["ApplicationName"] == Str("Cheetah")
    ensures "ApplicationName" !in m ==>
      (ApplicationAndVersion(m).result.Success? <==> Parse(NormaliseDevelopment(t)).Some?)
    ensures "ApplicationName" !in m && ApplicationAndVersion(m).result.Success? ==>
      ApplicationAndVersion(m).props["ApplicationVersion"] == Ver(Parse(NormaliseDevelopment(t)).value)
  {
  }

  /** Second branch: an `ApplicationName` of the form `N "V"` gives the name `N` and the
      version `V`. */
  lemma ApplicationNameBranch(m: Props, name: string, version: string)
    requires "CheetahRev" !in m
    requires forall k :: 0 <= k < |name| ==> !IsSpace(name[k])
    requires IsLine(version)
    requires "ApplicationName" in m && m["ApplicationName"] == Str(name + " \"" + version + "\"")
    ensures ApplicationAndVersion(m).props["ApplicationName"] == Str(name)
    ensures ApplicationAndVersion(m).result.Success? <==> Parse(NormaliseDevelopment(version)).Some?
    ensures ApplicationAndVersion(m).result.Success? ==>
      ApplicationAndVersion(m).props["ApplicationVersion"] == Ver(Parse(NormaliseDevelopment(version)).value)
  {
    NameAndVersion(name, version);
  }

  /** A header line's `ApplicationName` either yields its one name and version or raises:
      there is never more than one match to choose from. */
  lemma ApplicationNameOnLine(m: Props, t: string)
    requires "CheetahRev" !in m && "ApplicationName" in m && m["ApplicationName"] == Str(t) && IsLine(t)
    ensures |FindApp(t)| == 0 <==> ApplicationAndVersion(m) == Step(m, Failure(ApplicationNameUnmatched(t)))
  {
    AtMostOneOnLine(t, 0);
  }

  /** The default version text `2` is read as the release `2`. */
  lemma DefaultVersionTwo()
    ensures Parse(NormaliseDevelopment("2")) == Some(Version([2], None))
  {
    ShortNotContains("2", DEVELOPMENT);
    assert ToString(Version([2], None)) == "2" by {
      assert NatToString(2) == "2";
    }
    ParseToString(Version([2], None));
  }

  /** The default version text `2.0` is read as the release `2.0`. */
  lemma DefaultVersionTwoZero()
    ensures Parse(NormaliseDevelopment("2.0")) == Some(Version([2, 0], None))
  {
    ShortNotContains("2.0", DEVELOPMENT);
    assert ToString(Version([2, 0], None)) == "2.0" by {
      assert NatToString(2) == "2";
      assert NatToString(0) == "0";
      assert JoinSegments([2, 0]) == NatToString(2) + "." + JoinSegments([0]);
    }
    ParseToString(Version([2, 0], None));
  }

  /** Third and fourth branches: files without a name are BML files, version `2.0`, when they
      carry `NLX_Base_Class_Type`, and Neuraview files, version `2`, otherwise. */
  lemma DefaultBranches(m: Props)
    requires "CheetahRev" !in m && "ApplicationName" !in m
    ensures ApplicationAndVersion(m).result.Success?
    ensures "NLX_Base_Class_Type" in m ==>
      ApplicationAndVersion(m).props == m["ApplicationName" := Str("BML")]["ApplicationVersion" := Ver(Version([2, 0], None))]
    ensures "NLX_Base_Class_Type" !in m ==>
      ApplicationAndVersion(m).props == m["ApplicationName" := Str("Neuraview")]["ApplicationVersion" := Ver(Version([2], None))]
  {
    if "NLX_Base_Class_Type" in m {
      DefaultVersionTwoZero();
      assert ApplicationAndVersion(m) == SetVersion(m["ApplicationName" := Str("BML")], "2.0");
    } else {
      DefaultVersionTwo();
      assert ApplicationAndVersion(m) == SetVersion(m["ApplicationName" := Str("Neuraview")], "2");
    }
  }

  /** The two default versions, `2.0` and `2`, are equal. */
  lemma DefaultVersionsEqual()
    ensures Eq(Version([2, 0], None), Version([2], None))
  {
    TrailingZeroEqual([2], None);
    CompareAntisymmetric(Version([2, 0], None), Version([2], None));
  }

  /** A Cheetah development build `X Development` gets the version `X.dev0`, which sorts
      below the release `X`. */
  lemma DevelopmentBuildBranch(m: Props, v: Version)
    requires WellFormed(v) && v.dev.None?
    requires "CheetahRev" in m && "ApplicationName" !in m && m["CheetahRev"] == Str(ToString(v) + DEVELOPMENT)
    ensures ApplicationAndVersion(m).result.Success?
    ensures ApplicationAndVersion(m).props["ApplicationVersion"] == Ver(Version(v.release, Some(0)))
    ensures Lt(Version(v.release, Some(0)), v)
  {
    DevelopmentBuildPrecedesRelease(v);
    CheetahRevBranch(m, ToString(v) + DEVELOPMENT);
  }
}
