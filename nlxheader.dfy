/** The header of a Neuralynx file as the reader builds it: the text of the first 16 KiB,
    and a property table filled and normalised in place, step by step. */
module NlxHeader {
  import opened Wrappers
  import opened Text
  import opened Numbers
  import opened Values
  import Rules
  import Channels
  import Application
  import Dialects

  /** Neuralynx files start with a text header of 16 KiB. */
  const HEADER_SIZE: nat := 16384

  newtype Byte = x: int | 0 <= x < 256

  type Rule = Rules.Rule

  // -------------------------------------------------------------- header text

  /** `b.lstrip(b"\x00")`. */
  function DropLeadingNul(b: seq<Byte>): (r: seq<Byte>)
    ensures |r| <= |b| && r == b[|b| - |r|..]
    ensures r == [] || r[0] != 0
    ensures forall k :: 0 <= k < |b| - |r| ==> b[k] == 0
  {
    if b != [] && b[0] == 0 then DropLeadingNul(b[1..]) else b
  }

  /** `b.rstrip(b"\x00")`. */
  function DropTrailingNul(b: seq<Byte>): (r: seq<Byte>)
    ensures |r| <= |b| && r == b[..|r|]
    ensures r == [] || r[|r| - 1] != 0
    ensures forall k :: |r| <= k < |b| ==> b[k] == 0
  {
    if b != [] && b[|b| - 1] == 0 then DropTrailingNul(b[..|b| - 1]) else b
  }

  /** Latin-1 decoding: each byte is the character with that code. */
  function Latin1(b: seq<Byte>): (s: string)
    ensures |s| == |b| && forall k :: 0 <= k < |b| ==> s[k] as int == b[k] as int
  {
    seq(|b|, k requires 0 <= k < |b| => b[k] as int as char)
  }

  /** Latin-1 encoding of a text whose characters all have codes below 256. */
  function Latin1Bytes(s: string): (b: seq<Byte>)
    requires forall k :: 0 <= k < |s| ==> s[k] as int < 256
    ensures |b| == |s| && forall k :: 0 <= k < |s| ==> b[k] as int == s[k] as int
  {
    seq(|s|, k requires 0 <= k < |s| => s[k] as int as Byte)
  }

  /** The header text: the first `HEADER_SIZE` bytes of the file, without the NUL bytes at
      either end, decoded as Latin-1. */
  function HeaderText(file: seq<Byte>): (s: string)
    ensures |s| <= HEADER_SIZE
    ensures s == [] || (s[0] != '\0' && s[|s| - 1] != '\0')
    ensures forall k :: 0 <= k < |s| ==> s[k] as int < 256
  {
    var head := if |file| <= HEADER_SIZE then file else file[..HEADER_SIZE];
    Latin1(DropTrailingNul(DropLeadingNul(head)))
  }

  /** Trailing NUL padding is dropped, and nothing else. */
  lemma {:induction false} DropTrailingPadding(b: seq<Byte>, n: nat)
    requires b == [] || b[|b| - 1] != 0
    ensures DropTrailingNul(b + seq(n, k => 0 as Byte)) == b
  {
    if n > 0 {
      var padded := b + seq(n, k => 0 as Byte);
      assert padded[..|padded| - 1] == b + seq(n - 1, k => 0 as Byte);
      DropTrailingPadding(b, n - 1);
    } else {
      assert b + seq(n, k => 0 as Byte) == b;
    }
  }

  /** A header written as Latin-1 text padded with NUL bytes to 16 KiB reads back as that
      text, whatever data follows it. */
  lemma HeaderTextOfPadded(s: string, data: seq<Byte>)
    requires |s| <= HEADER_SIZE && s != [] && s[0] != '\0' && s[|s| - 1] != '\0'
    requires forall k :: 0 <= k < |s| ==> s[k] as int < 256
    ensures HeaderText(Latin1Bytes(s) + seq(HEADER_SIZE - |s|, k => 0 as Byte) + data) == s
  {
    var b := Latin1Bytes(s);
    var head := b + seq(HEADER_SIZE - |s|, k => 0 as Byte);
    var file := head + data;
    assert file[..HEADER_SIZE] == head;
    assert head[0] == b[0] != 0;
    assert DropLeadingNul(head) == head;
    DropTrailingPadding(b, HEADER_SIZE - |s|);
    assert Latin1(b) == s;
  }

  // ------------------------------------------------------ conversions of lists

  /** Converts each text in turn; fails with the position of the first text `f` rejects. */
  method ConvertEach<T>(ts: seq<string>, f: string -> Option<T>) returns (r: Result<seq<T>, nat>)
    ensures r.Success? <==> ConvertAll(ts, f).Some?
    ensures r.Success? ==> r.value == ConvertAll(ts, f).value
    ensures r.Failure? ==> r.error == FirstRejected(ts, f)
  {
    var xs: seq<T> := [];
    var i := 0;
    while i < |ts|
      invariant i <= |ts| && |xs| == i
      invariant forall k :: 0 <= k < i ==> f(ts[k]) == Some(xs[k])
    {
      var x := f(ts[i]);
      if x.None? {
        return Failure(i);
      }
      xs := xs + [x.value];
      i := i + 1;
    }
    return Success(xs);
  }

  /** `[int(t) for t in ts]`, raising at the first text that is not an integer. */
  method ConvertInts(ts: seq<string>) returns (r: Result<seq<Value>, Error>)
    ensures r == IntsOf(ts)
  {
    var xs := ConvertEach(ts, ParseInt);
    if xs.Failure? {
      return Failure(NotInt(ts[xs.error]));
    }
    return Success(seq(|xs.value|, k requires 0 <= k < |xs.value| => Int(xs.value[k])));
  }

  /** `[float(e) * 1e6 for e in entries]`, raising at the first text that is not a number. */
  method ToMicroVolts(entries: seq<string>, parseFloat: string -> Option<real>) returns (r: Result<seq<Value>, Error>)
    ensures r.Success? <==> ConvertAll(entries, parseFloat).Some?
    ensures r.Success? ==> r.value == Channels.MicroVolts(ConvertAll(entries, parseFloat).value)
    ensures r.Failure? ==> r.error == NotFloat(entries[FirstRejected(entries, parseFloat)])
  {
    var xs: seq<Value> := [];
    var i := 0;
    while i < |entries|
      invariant i <= |entries| && |xs| == i
      invariant forall k :: 0 <= k < i ==> parseFloat(entries[k]).Some? && xs[k] == Float(parseFloat(entries[k]).value * 1000000.0)
    {
      var x := parseFloat(entries[i]);
      if x.None? {
        return Failure(NotFloat(entries[i]));
      }
      xs := xs + [Float(x.value * 1000000.0)];
      i := i + 1;
    }
    return Success(xs);
  }

  // ------------------------------------------------- read_properties, as lists

  /** The assignments of the first rules come first. */
  lemma {:induction false} AssignmentsPrefix(rules: seq<Rule>, i: nat, s: string)
    requires i <= |rules|
    ensures Rules.Assignments(rules[..i], s) <= Rules.Assignments(rules, s)
    decreases |rules|
  {
    if i < |rules| {
      var init := rules[..|rules| - 1];
      assert init[..i] == rules[..i];
      AssignmentsPrefix(init, i, s);
    } else {
      assert rules[..i] == rules;
    }
  }

  /** One more rule appends its matches' assignments. */
  lemma AssignmentsStep(rules: seq<Rule>, i: nat, s: string)
    requires i < |rules|
    ensures Rules.Assignments(rules[..i + 1], s)
      == Rules.Assignments(rules[..i], s) + Rules.RuleAssignments(rules[i], Rules.FindAll(rules[i].pattern, s))
  {
    assert rules[..i + 1][..i] == rules[..i];
  }

  /** Once a prefix of the assignments raises, the whole run raises the same way. */
  lemma ApplyPrefixFailure(m: Props, xs: seq<Rules.Assignment>, ys: seq<Rules.Assignment>, pf: string -> Option<real>)
    requires xs <= ys && Rules.Apply(m, xs, pf).result.Failure?
    ensures Rules.Apply(m, ys, pf) == Rules.Apply(m, xs, pf)
  {
    assert ys == xs + ys[|xs|..];
    Rules.ApplyAppend(m, xs, ys[|xs|..], pf);
  }

  /** One more assignment after a run that did not raise. */
  lemma ApplyExtend(m: Props, xs: seq<Rules.Assignment>, a: Rules.Assignment, pf: string -> Option<real>)
    requires Rules.Apply(m, xs, pf).result.Success?
    ensures var before := Rules.Apply(m, xs, pf).props;
      Rules.Apply(m, xs + [a], pf) == match Rules.Convert(a.convert, a.text, pf)
        case Failure(e) => Step(before, Failure(e))
        case Success(v) => Step(before[a.name := v], Success(()))
  {
    assert (xs + [a])[..|xs|] == xs;
  }

  /** The assignments made up to the `j`-th match of the `i`-th rule, and the next one. */
  lemma MatchStep(rules: seq<Rule>, i: nat, j: nat, s: string)
    requires i < |rules| && j < |Rules.FindAll(rules[i].pattern, s)|
    ensures var ms := Rules.FindAll(rules[i].pattern, s);
      var xs := Rules.Assignments(rules[..i], s) + Rules.RuleAssignments(rules[i], ms[..j]);
      && Rules.Assignments(rules[..i], s) + Rules.RuleAssignments(rules[i], ms[..j + 1])
         == xs + [Rules.AssignmentOf(rules[i], ms[j])]
      && xs + [Rules.AssignmentOf(rules[i], ms[j])] <= Rules.Assignments(rules, s)
  {
    var ms := Rules.FindAll(rules[i].pattern, s);
    var done := Rules.Assignments(rules[..i], s);
    assert Rules.RuleAssignments(rules[i], ms[..j + 1])
      == Rules.RuleAssignments(rules[i], ms[..j]) + [Rules.AssignmentOf(rules[i], ms[j])];
    assert Rules.RuleAssignments(rules[i], ms[..j + 1]) <= Rules.RuleAssignments(rules[i], ms);
    AssignmentsStep(rules, i, s);
    AssignmentsPrefix(rules, i + 1, s);
  }

  // ----------------------------------------------------------- the whole parse

  /** The header `__init__` builds from the header text: the properties, then the channel
      ids and names, the application, the conversion factors, the input ranges and, unless
      only the properties are wanted, the opening and closing times. A step that raises ends
      the parse, with the table as that step left it. */
  function HeaderOf(text: string, propsOnly: bool, pf: string -> Option<real>,
                    sp: (string, string) -> Option<DateTime>): (r: Step<()>)
  {
    var s1 := Rules.Apply(map[], Rules.Assignments(Rules.HeaderKeys, text), pf);
    if s1.result.Failure? then s1
    else
      var s2 := Channels.ConvertIdsNames(s1.props);
      if s2.result.Failure? then Step(s2.props, Failure(s2.result.error))
      else
        var s3 := Application.ApplicationAndVersion(s2.props);
        if s3.result.Failure? then s3
        else
          var s4 := Channels.BitToMicroVolt(s3.props, pf);
          if s4.result.Failure? then s4
          else
            var s5 := Channels.InputRanges(s4.props, s2.result.value);
            if s5.result.Failure? || propsOnly then s5
            else Dialects.ReadTimeDate(s5.props, text, sp)
  }

  /** The number of id tokens behind a list of ids: none behind `["unknown"]`. */
  function IdTokens(ids: seq<Value>): nat {
    if ids == [Channels.UNKNOWN] then 0 else |ids|
  }

  /** The number `convert_channel_ids_names` returns is the number of ids, or 0 when the
      header had none and the ids are `["unknown"]`. */
  lemma IdCount(m: Props)
    requires Channels.ConvertIdsNames(m).result.Success?
    ensures var ids := Channels.ConvertIdsNames(m).props["channel_ids"].items;
      Channels.ConvertIdsNames(m).result.value == IdTokens(ids)
  {
    Channels.ConvertIdsNamesIds(m);
    if "channel_ids" in m {
      var tokens := Tokens(NonSpace, m["channel_ids"].text);
      var ids := Channels.ConvertIdsNames(m).props["channel_ids"].items;
      assert |ids| == |tokens|;
      if |ids| == 1 {
        assert ids[0].Int?;
      }
    }
  }

  /** Ids as a list, and as many names. */
  predicate IdsAndNames(p: Props) {
    && "channel_ids" in p && p["channel_ids"].List? && "channel_names" in p
    && Len(p["channel_names"]) == Some(|p["channel_ids"].items|)
  }

  /** An application name and a version. */
  predicate AppNamed(p: Props) {
    "ApplicationName" in p && p["ApplicationName"].Str? && "ApplicationVersion" in p && p["ApplicationVersion"].Ver?
  }

  /** One conversion factor per id, if there are factors. */
  predicate FactorPerId(p: Props)
    requires IdsAndNames(p)
  {
    "bit_to_microVolt" in p ==> p["bit_to_microVolt"].List? && |p["bit_to_microVolt"].items| == |p["channel_ids"].items|
  }

  /** One input range per id token, if there are ranges. */
  predicate RangePerIdToken(p: Props)
    requires IdsAndNames(p)
  {
    "InputRange" in p ==> p["InputRange"].List? && |p["InputRange"].items| == IdTokens(p["channel_ids"].items)
  }

  /** After the ids and names step: ids and names agree, and the returned count is the
      number of id tokens. */
  lemma IdsStage(m: Props)
    requires Channels.ConvertIdsNames(m).result.Success?
    ensures IdsAndNames(Channels.ConvertIdsNames(m).props)
    ensures Channels.ConvertIdsNames(m).result.value == IdTokens(Channels.ConvertIdsNames(m).props["channel_ids"].items)
  {
    IdCount(m);
  }

  /** The application step adds a name and a version and leaves ids, names, factors and
      ranges alone. */
  lemma ApplicationStage(m: Props)
    requires IdsAndNames(m) && Application.ApplicationAndVersion(m).result.Success?
    ensures var p := Application.ApplicationAndVersion(m).props;
      IdsAndNames(p) && AppNamed(p) && p["channel_ids"] == m["channel_ids"]
      && ("bit_to_microVolt" in p <==> "bit_to_microVolt" in m) && ("InputRange" in p <==> "InputRange" in m)
  {
    NamingKeeps(m, Application.ApplicationAndVersion(m).props);
  }

  /** Setting only the application name and version keeps ids, names, factors and ranges. */
  lemma NamingKeeps(m: Props, p: Props)
    requires OnlyChanged(m, p, {"ApplicationName", "ApplicationVersion"})
    ensures ("channel_ids" in p <==> "channel_ids" in m) && ("channel_names" in p <==> "channel_names" in m)
    ensures ("bit_to_microVolt" in p <==> "bit_to_microVolt" in m) && ("InputRange" in p <==> "InputRange" in m)
    ensures "channel_ids" in m ==> p["channel_ids"] == m["channel_ids"]
    ensures "channel_names" in m ==> p["channel_names"] == m["channel_names"]
  {
    var keys := {"ApplicationName", "ApplicationVersion"};
    OnlyChangedKeeps(m, p, keys, "channel_ids");
    OnlyChangedKeeps(m, p, keys, "channel_names");
    OnlyChangedKeeps(m, p, keys, "bit_to_microVolt");
    OnlyChangedKeeps(m, p, keys, "InputRange");
  }

  /** The conversion factor step leaves one factor per id. */
  lemma FactorStage(m: Props, pf: string -> Option<real>)
    requires IdsAndNames(m) && AppNamed(m) && Channels.BitToMicroVolt(m, pf).result.Success?
    ensures var p := Channels.BitToMicroVolt(m, pf).props;
      IdsAndNames(p) && AppNamed(p) && FactorPerId(p) && p["channel_ids"] == m["channel_ids"]
      && ("InputRange" in p <==> "InputRange" in m)
  {
    assert Channels.ChannelCount(m) == Success(|m["channel_ids"].items|);
  }

  /** The input range step, given the count of id tokens, leaves one range per id token. */
  lemma RangeStage(m: Props, count: nat)
    requires IdsAndNames(m) && AppNamed(m) && FactorPerId(m) && count == IdTokens(m["channel_ids"].items)
    requires Channels.InputRanges(m, count).result.Success?
    ensures var p := Channels.InputRanges(m, count).props;
      IdsAndNames(p) && AppNamed(p) && FactorPerId(p) && RangePerIdToken(p)
  {
  }

  /** A step that changes only other keys keeps all four properties. */
  lemma Preserved(m: Props, p: Props, keys: set<string>)
    requires IdsAndNames(m) && AppNamed(m) && FactorPerId(m) && RangePerIdToken(m)
    requires OnlyChanged(m, p, keys)
    requires keys !! {"channel_ids", "channel_names", "ApplicationName", "ApplicationVersion", "bit_to_microVolt", "InputRange"}
    ensures IdsAndNames(p) && AppNamed(p) && FactorPerId(p) && RangePerIdToken(p)
  {
    forall k | k in {"channel_ids", "channel_names", "ApplicationName", "ApplicationVersion", "bit_to_microVolt", "InputRange"}
      ensures (k in p <==> k in m) && (k in m ==> p[k] == m[k])
    {
      assert k !in keys;
    }
  }

  /** The times are stored under keys no earlier step sets. */
  lemma TimeKeysApart()
    ensures {"recording_opened", "recording_closed"}
      !! {"channel_ids", "channel_names", "ApplicationName", "ApplicationVersion", "bit_to_microVolt", "InputRange"}
  {
  }

  /** Reading the times keeps all of that and adds an opening time. */
  lemma TimeStage(m: Props, text: string, sp: (string, string) -> Option<DateTime>)
    requires IdsAndNames(m) && AppNamed(m) && FactorPerId(m) && RangePerIdToken(m)
    requires Dialects.ReadTimeDate(m, text, sp).result.Success?
    ensures var p := Dialects.ReadTimeDate(m, text, sp).props;
      IdsAndNames(p) && AppNamed(p) && FactorPerId(p) && RangePerIdToken(p) && "recording_opened" in p
  {
    var p := Dialects.ReadTimeDate(m, text, sp).props;
    var keys := {"recording_opened", "recording_closed"};
    assert OnlyChanged(m, p, keys);
    TimeKeysApart();
    Preserved(m, p, keys);
  }

  /** What a header that parsed holds: ids as a list and as many names; an application name
      and version; one conversion factor per id; one input range per id token; and, when the
      times were read, an opening time. */
  lemma HeaderInvariants(text: string, propsOnly: bool, pf: string -> Option<real>, sp: (string, string) -> Option<DateTime>)
    requires HeaderOf(text, propsOnly, pf, sp).result.Success?
    ensures var p := HeaderOf(text, propsOnly, pf, sp).props;
      && IdsAndNames(p) && AppNamed(p) && FactorPerId(p) && RangePerIdToken(p)
      && (!propsOnly ==> "recording_opened" in p)
  {
    var s1 := Rules.Apply(map[], Rules.Assignments(Rules.HeaderKeys, text), pf);
    var s2 := Channels.ConvertIdsNames(s1.props);
    IdsStage(s1.props);
    var s3 := Application.ApplicationAndVersion(s2.props);
    ApplicationStage(s2.props);
    var s4 := Channels.BitToMicroVolt(s3.props, pf);
    FactorStage(s3.props, pf);
    var s5 := Channels.InputRanges(s4.props, s2.result.value);
    RangeStage(s4.props, s2.result.value);
    if !propsOnly {
      TimeStage(s5.props, text, sp);
    }
  }

  // ------------------------------------------------------------- the header

  /** `NlxHeader`: the property table, filled and normalised in place. Number parsing and
      date parsing are the library's, given as functions. */
  class Header {
    var props: Props
    const parseFloat: string -> Option<real>
    const strptime: (string, string) -> Option<DateTime>

    constructor (parseFloat: string -> Option<real>, strptime: (string, string) -> Option<DateTime>)
      ensures props == map[]
      ensures this.parseFloat == parseFloat && this.strptime == strptime
    {
      props := map[];
      this.parseFloat := parseFloat;
      this.strptime := strptime;
    }

    /** `read_properties`: for each rule of the table in order, every match in the text,
        converted and stored under its name; a conversion that raises stops the loop. */
    method ReadProperties(text: string) returns (r: Result<(), Error>)
      modifies this
      ensures Step(props, r) == Rules.Apply(old(props), Rules.Assignments(Rules.HeaderKeys, text), parseFloat)
    {
      r := ReadRules(Rules.HeaderKeys, text);
    }

    /** The loops of `read_properties`, over any rule table. */
    method ReadRules(rules: seq<Rule>, text: string) returns (r: Result<(), Error>)
      modifies this
      ensures Step(props, r) == Rules.Apply(old(props), Rules.Assignments(rules, text), parseFloat)
    {
      ghost var m0 := props;
      ghost var all := Rules.Assignments(rules, text);
      var i := 0;
      while i < |rules|
        invariant i <= |rules|
        invariant Rules.Apply(m0, Rules.Assignments(rules[..i], text), parseFloat) == Step(props, Success(()))
      {
        var rule := rules[i];
        var matches := Rules.FindAll(rule.pattern, text);
        ghost var done := Rules.Assignments(rules[..i], text);
        var j := 0;
        assert done + Rules.RuleAssignments(rule, matches[..0]) == done;
        while j < |matches|
          invariant j <= |matches|
          invariant Rules.Apply(m0, done + Rules.RuleAssignments(rule, matches[..j]), parseFloat) == Step(props, Success(()))
        {
          var a := Rules.AssignmentOf(rule, matches[j]);
          var v := Rules.Convert(a.convert, a.text, parseFloat);
          ghost var xs := done + Rules.RuleAssignments(rule, matches[..j]);
          MatchStep(rules, i, j, text);
          ApplyExtend(m0, xs, a, parseFloat);
          if v.Failure? {
            ApplyPrefixFailure(m0, xs + [a], all, parseFloat);
            return Failure(v.error);
          }
          assert Rules.Apply(m0, xs + [a], parseFloat) == Step(props[a.name := v.value], Success(()));
          props := props[a.name := v.value];
          j := j + 1;
          assert done + Rules.RuleAssignments(rule, matches[..j]) == xs + [a];
        }
        assert matches[..j] == matches;
        AssignmentsStep(rules, i, text);
        i := i + 1;
      }
      assert rules[..i] == rules;
      return Success(());
    }

    /** `convert_channel_ids_names`: returns the number of id tokens. */
    method ConvertChannelIdsNames() returns (r: Result<nat, Error>)
      modifies this
      ensures Step(props, r) == Channels.ConvertIdsNames(old(props))
    {
      var count: nat;
      if "channel_ids" in props {
        if !props["channel_ids"].Str? {
          return Failure(WrongType("channel_ids"));
        }
        var entries := Tokens(NonSpace, props["channel_ids"].text);
        var ids := ConvertInts(entries);
        if ids.Failure? {
          return Failure(ids.error);
        }
        props := props["channel_ids" := List(ids.value)];
        count := |entries|;
      } else {
        props := props["channel_ids" := List([Channels.UNKNOWN])];
        count := 0;
      }
      var n := |props["channel_ids"].items|;
      if "channel_names" in props {
        if !props["channel_names"].Str? {
          return Failure(WrongType("channel_names"));
        }
        var names := Tokens(NonSpace, props["channel_names"].text);
        if |names| == 1 {
          props := props["channel_names" := List(Repeat(Str(names[0]), n))];
        }
        if Len(props["channel_names"]) != Some(n) {
          return Failure(ChannelNamesMismatch);
        }
      } else {
        props := props["channel_names" := List(Repeat(Channels.UNKNOWN, n))];
      }
      return Success(count);
    }

    /** `setApplicationAndVersion`. */
    method SetApplicationAndVersion() returns (r: Result<(), Error>)
      modifies this
      ensures Step(props, r) == Application.ApplicationAndVersion(old(props))
    {
      var appVersion: Value;
      if "CheetahRev" in props {
        if "ApplicationName" in props {
          return Failure(CheetahRevWithApplicationName);
        }
        props := props["ApplicationName" := Str("Cheetah")];
        appVersion := props["CheetahRev"];
      } else if "ApplicationName" in props {
        if !props["ApplicationName"].Str? {
          return Failure(WrongType("ApplicationName"));
        }
        var t := props["ApplicationName"].text;
        var found := Application.FindApp(t);
        if |found| != 1 {
          return Failure(ApplicationNameUnmatched(t));
        }
        props := props["ApplicationName" := Str(found[0].name)];
        appVersion := Str(found[0].version);
      } else if "NLX_Base_Class_Type" in props {
        props := props["ApplicationName" := Str("BML")];
        appVersion := Str("2.0");
      } else {
        props := props["ApplicationName" := Str("Neuraview")];
        appVersion := Str("2");
      }
      if !appVersion.Str? {
        return Failure(WrongType("CheetahRev"));
      }
      var t := Pep440.NormaliseDevelopment(appVersion.text);
      var v := Pep440.Parse(t);
      if v.None? {
        return Failure(InvalidVersion(t));
      }
      props := props["ApplicationVersion" := Ver(v.value)];
      return Success(());
    }

    /** `setBitToMicroVolt`. */
    method SetBitToMicroVolt() returns (r: Result<(), Error>)
      modifies this
      ensures Step(props, r) == Channels.BitToMicroVolt(old(props), parseFloat)
    {
      if "bit_to_microVolt" !in props {
        return Success(());
      }
      if !props["bit_to_microVolt"].Str? {
        return Failure(WrongType("bit_to_microVolt"));
      }
      var entries := Tokens(NonSpace, props["bit_to_microVolt"].text);
      if |entries| == 1 {
        var n := Channels.ChannelCount(props);
        if n.Failure? {
          return Failure(n.error);
        }
        entries := Repeat(entries[0], n.value);
      }
      var volts := ToMicroVolts(entries, parseFloat);
      if volts.Failure? {
        return Failure(volts.error);
      }
      props := props["bit_to_microVolt" := List(volts.value)];
      var n := Channels.ChannelCount(props);
      if n.Failure? {
        return Failure(n.error);
      }
      if |volts.value| != n.value {
        return Failure(BitToMicroVoltMismatch);
      }
      return Success(());
    }

    /** `setInputRanges(count)`. */
    method SetInputRanges(count: nat) returns (r: Result<(), Error>)
      modifies this
      ensures Step(props, r) == Channels.InputRanges(old(props), count)
    {
      if "InputRange" !in props {
        return Success(());
      }
      if !props["InputRange"].Str? {
        return Failure(WrongType("InputRange"));
      }
      var entries := Tokens(Word, props["InputRange"].text);
      var ranges: seq<Value>;
      if |entries| == 1 {
        var x := ParseInt(entries[0]);
        if x.None? {
          return Failure(NotInt(entries[0]));
        }
        ranges := Repeat(Int(x.value), count);
      } else {
        var rs := ConvertInts(entries);
        if rs.Failure? {
          return Failure(rs.error);
        }
        ranges := rs.value;
      }
      props := props["InputRange" := List(ranges)];
      if |ranges| != count {
        return Failure(InputRangeMismatch);
      }
      return Success(());
    }

    /** `readTimeDate`: the dialect is chosen from the table, which it leaves as it is; then
        the opening time, and the closing time where the dialect has one. */
    method ReadTimeDate(text: string) returns (r: Result<(), Error>)
      modifies this
      ensures Step(props, r) == Dialects.ReadTimeDate(old(props), text, strptime)
    {
      var sel := Dialects.Select(props);
      if sel.Failure? {
        return Failure(sel.error);
      }
      var d := Dialects.DialectOf(sel.value.dialect);
      var opening := Dialects.Search(d.open, text);
      if opening.None? {
        return Failure(NoOpenTime(sel.value.app, sel.value.version));
      }
      props := props["recording_opened" := Dialects.OpenedValue(opening.value, d, strptime)];
      if d.close.Some? {
        var closing := Dialects.Search(d.close.value, text);
        if closing.None? {
          return Failure(NoCloseTime(sel.value.app, sel.value.version));
        }
        props := props["recording_closed" := Dialects.ClosedValue(closing.value, d, strptime)];
      }
      return Success(());
    }

    /** `__init__`: reads the header of `file` into a fresh table. */
    method Load(file: seq<Byte>, propsOnly: bool) returns (r: Result<(), Error>)
      modifies this
      ensures Step(props, r) == HeaderOf(HeaderText(file), propsOnly, parseFloat, strptime)
    {
      props := map[];
      var text := HeaderText(file);
      r := ReadProperties(text);
      if r.Failure? {
        return;
      }
      var count := ConvertChannelIdsNames();
      if count.Failure? {
        return Failure(count.error);
      }
      r := SetApplicationAndVersion();
      if r.Failure? {
        return;
      }
      r := SetBitToMicroVolt();
      if r.Failure? {
        return;
      }
      r := SetInputRanges(count.value);
      if r.Failure? || propsOnly {
        return;
      }
      r := ReadTimeDate(text);
    }
  }
}
