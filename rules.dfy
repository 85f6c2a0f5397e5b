/** The rule table of the header parser and what `read_properties` makes of a header text:
    each rule's pattern `-(?P<name>k1)\s+(?P<value>[\S ]*)` is found throughout the text, and
    every match becomes one assignment to the property table. */
module Rules {
  import opened Wrappers
  import opened Text
  import opened Numbers
  import opened Values

  /** The key part `k1` of a rule: a literal property name, or the one pattern
      `Feature \w+ \d+`. */
  datatype KeyPattern = Literal(key: string) | FeatureKey

  /** What is applied to a matched value: nothing, `float`, `int` or `_to_bool`. */
  datatype Converter = Keep | ToFloat | ToInt | ToBool

  /** `(k1, k2, type_)`: the key pattern, the canonical name (`""` keeps the key as matched)
      and the converter. */
  datatype Rule = Rule(pattern: KeyPattern, canonical: string, convert: Converter)

  /** `txt_header_keys`, in order. */
  const HeaderKeys: seq<Rule> := [
    Rule(Literal("AcqEntName"), "channel_names", Keep),
    Rule(Literal("FileType"), "", Keep),
    Rule(Literal("FileVersion"), "", Keep),
    Rule(Literal("RecordSize"), "", Keep),
    Rule(Literal("HardwareSubSystemName"), "", Keep),
    Rule(Literal("HardwareSubSystemType"), "", Keep),
    Rule(Literal("SamplingFrequency"), "sampling_rate", ToFloat),
    Rule(Literal("ADMaxValue"), "", Keep),
    Rule(Literal("ADBitVolts"), "bit_to_microVolt", Keep),
    Rule(Literal("NumADChannels"), "", Keep),
    Rule(Literal("ADChannel"), "channel_ids", Keep),
    Rule(Literal("InputRange"), "", Keep),
    Rule(Literal("InputInverted"), "input_inverted", ToBool),
    Rule(Literal("DSPLowCutFilterEnabled"), "", Keep),
    Rule(Literal("DspLowCutFrequency"), "", Keep),
    Rule(Literal("DspLowCutNumTaps"), "", Keep),
    Rule(Literal("DspLowCutFilterType"), "", Keep),
    Rule(Literal("DSPHighCutFilterEnabled"), "", Keep),
    Rule(Literal("DspHighCutFrequency"), "", Keep),
    Rule(Literal("DspHighCutNumTaps"), "", Keep),
    Rule(Literal("DspHighCutFilterType"), "", Keep),
    Rule(Literal("DspDelayCompensation"), "", Keep),
    Rule(Literal("DspFilterDelay_\U{B5}s"), "", Keep),
    Rule(Literal("DisabledSubChannels"), "", Keep),
    Rule(Literal("WaveformLength"), "", ToInt),
    Rule(Literal("AlignmentPt"), "", Keep),
    Rule(Literal("ThreshVal"), "", Keep),
    Rule(Literal("MinRetriggerSamples"), "", Keep),
    Rule(Literal("SpikeRetriggerTime"), "", Keep),
    Rule(Literal("DualThresholding"), "", Keep),
    Rule(FeatureKey, "", Keep),
    Rule(Literal("SessionUUID"), "", Keep),
    Rule(Literal("FileUUID"), "", Keep),
    Rule(Literal("CheetahRev"), "", Keep),
    Rule(Literal("ProbeName"), "", Keep),
    Rule(Literal("OriginalFileName"), "", Keep),
    Rule(Literal("TimeCreated"), "", Keep),
    Rule(Literal("TimeClosed"), "", Keep),
    Rule(Literal("ApplicationName"), "", Keep),
    Rule(Literal("AcquisitionSystem"), "", Keep),
    Rule(Literal("ReferenceChannel"), "", Keep),
    Rule(Literal("NLX_Base_Class_Type"), "", Keep)
  ]

  // ------------------------------------------------------------- conversions

  /** `_to_bool`: exactly `True` and `False` are booleans; any other text raises. */
  function ToBoolean(text: string): (r: Result<bool, Error>)
    ensures r == Success(true) <==> text == "True"
    ensures r == Success(false) <==> text == "False"
    ensures r.Failure? ==> r.error == NotBool(text)
  {
    if text == "True" then Success(true)
    else if text == "False" then Success(false)
    else Failure(NotBool(text))
  }

  /** `type_(value)`; `float` is the parser's parameter `parseFloat`. */
  function Convert(c: Converter, text: string, parseFloat: string -> Option<real>): Result<Value, Error> {
    match c
    case Keep => Success(Str(text))
    case ToFloat =>
      (match parseFloat(text)
       case Some(x) => Success(Float(x))
       case None => Failure(NotFloat(text)))
    case ToInt =>
      (match ParseInt(text)
       case Some(i) => Success(Int(i))
       case None => Failure(NotInt(text)))
    case ToBool =>
      (match ToBoolean(text)
       case Success(b) => Success(Bool(b))
       case Failure(e) => Failure(e))
  }

  // ---------------------------------------------------------------- matching

  /** `Feature \w+ \d+`: the words `Feature`, a word and a number, single-spaced. */
  predicate IsFeatureName(n: string) {
    StartsWith(n, "Feature ") && IsWordSpaceNumber(n[8..])
  }

  /** `\w+ \d+`: a word, one space and a number. A word character is never a space, so the
      first space ends the word. */
  predicate IsWordSpaceNumber(t: string)
    decreases |t|
  {
    && |t| >= 3 && IsWordChar(t[0])
    && if t[1] == ' ' then AllDigits(t[2..]) else IsWordSpaceNumber(t[1..])
  }

  /** A run of `w` word characters, a space and one or more digits spell `\w+ \d+`. */
  lemma {:induction false} WordSpaceNumberOf(t: string, w: nat)
    requires 0 < w && w + 1 < |t| && t[w] == ' '
    requires forall k :: 0 <= k < w ==> IsWordChar(t[k])
    requires forall k :: w + 1 <= k < |t| ==> IsDecimal(t[k])
    ensures IsWordSpaceNumber(t)
    decreases w
  {
    if w == 1 {
      assert forall k :: 0 <= k < |t[2..]| ==> t[2..][k] == t[k + 2];
    } else {
      assert t[1] != ' ' by { assert IsWordChar(t[1]); }
      WordSpaceNumberOf(t[1..], w - 1);
    }
  }

  /** A greedy run of `w` word characters, a space and a greedy run of `d` digits spell
      `\w+ \d+`. */
  lemma WordSpaceNumberPrefix(v: string, w: nat, d: nat)
    requires 0 < w < |v| && w == Run(Word, v) && v[w] == ' '
    requires 0 < d && d == Run(Digit, v[w + 1..])
    ensures IsWordSpaceNumber(v[..w + 1 + d])
  {
    var t := v[..w + 1 + d];
    RunChars(Word, v);
    RunChars(Digit, v[w + 1..]);
    forall k | 0 <= k < w ensures IsWordChar(t[k]) { assert In(Word, v[k]); }
    forall k | w + 1 <= k < |t| ensures IsDecimal(t[k]) {
      assert t[k] == v[w + 1..][k - w - 1];
      assert In(Digit, v[w + 1..][k - w - 1]);
    }
    WordSpaceNumberOf(t, w);
  }

  /** The length of the `Feature \w+ \d+` key at the start of `u`, if there is one. */
  function FeatureKeyLength(u: string): (n: Option<nat>)
    ensures n.Some? ==> n.value <= |u| && IsFeatureName(u[..n.value])
  {
    if !StartsWith(u, "Feature ") then None
    else
      var w := Run(Word, u[8..]);
      if w == 0 || 8 + w >= |u| || u[8 + w] != ' ' then None
      else
        var d := Run(Digit, u[9 + w..]);
        if d == 0 then None
        else
          assert u[8..][w + 1..] == u[9 + w..];
          WordSpaceNumberPrefix(u[8..], w, d);
          assert u[..9 + w + d][8..] == u[8..][..w + 1 + d];
          assert u[..9 + w + d][..8] == u[..8];
          Some(9 + w + d)
  }

  /** The key group of a rule's pattern matched at `i`: its length, or `None`. The runs of
      `\w+` and `\d+` are greedy and followed by a character outside their class, so
      backtracking never gives another match. */
  function KeyAt(p: KeyPattern, s: string, i: nat): (n: Option<nat>)
    requires i <= |s|
    ensures n.Some? ==> i + n.value <= |s|
    ensures n.Some? && p.Literal? ==> s[i..i + n.value] == p.key
    ensures n.Some? && p.FeatureKey? ==> IsFeatureName(s[i..i + n.value])
  {
    match p
    case Literal(k) => if StartsWith(s[i..], k) then Some(|k|) else None
    case FeatureKey =>
      var n := FeatureKeyLength(s[i..]);
      if n.Some? then assert s[i..][..n.value] == s[i..i + n.value]; n else n
  }

  /** A match of `-(?P<name>k1)\s+(?P<value>[\S ]*)`: where it starts and ends, and its groups. */
  datatype Match = Match(start: nat, name: string, value: string, end: nat)

  /** The rest of a match after a key that spans `s[i + 1..j]`: `\s+` and the value. */
  function TailAt(s: string, i: nat, j: nat): (r: Option<Match>)
    requires i < j <= |s|
    ensures r.Some? ==> r.value.start == i && j < r.value.end <= |s| && r.value.name == s[i + 1..j]
  {
    var sp := Run(Space, s[j..]);
    if sp == 0 then None
    else
      var v := Run(LineChar, s[j + sp..]);
      Some(Match(i, s[i + 1..j], s[j + sp..j + sp + v], j + sp + v))
  }

  /** The value of a match is the longest run of characters other than line breaks and
      non-space whitespace that ends the match. */
  lemma TailAtValue(s: string, i: nat, j: nat)
    requires i < j <= |s| && TailAt(s, i, j).Some?
    ensures var m := TailAt(s, i, j).value;
      && (forall k :: 0 <= k < |m.value| ==> In(LineChar, m.value[k]))
      && |m.value| <= m.end && m.value == s[m.end - |m.value|..m.end]
      && (m.end == |s| || !In(LineChar, s[m.end]))
  {
    var a := j + Run(Space, s[j..]);
    var u := s[a..];
    RunChars(LineChar, u);
    var n := Run(LineChar, u);
    assert s[a..a + n] == u[..n];
    assert a + n < |s| ==> s[a + n] == u[n];
  }

  /** The match of a rule's pattern at position `i`, if there is one. The whitespace run is
      greedy and the value may be empty, so the first attempt succeeds whenever any does. */
  function MatchAt(p: KeyPattern, s: string, i: nat): (r: Option<Match>)
    requires i <= |s|
    ensures r.Some? ==> r.value.start == i < r.value.end <= |s| && s[i] == '-'
    ensures r.Some? ==> p.Literal? ==> r.value.name == p.key
    ensures r.Some? ==> p.FeatureKey? ==> IsFeatureName(r.value.name)
  {
    if i == |s| || s[i] != '-' then None
    else
      var key := KeyAt(p, s, i + 1);
      if key.None? then None
      else
        var j := i + 1 + key.value;
        assert p.FeatureKey? ==> IsFeatureName(s[i + 1..j]);
        TailAt(s, i, j)
  }

  /** The value of a match is the longest run of characters other than line breaks and
      non-space whitespace that ends the match. */
  lemma MatchAtValue(p: KeyPattern, s: string, i: nat)
    requires i <= |s| && MatchAt(p, s, i).Some?
    ensures var m := MatchAt(p, s, i).value;
      && (forall k :: 0 <= k < |m.value| ==> In(LineChar, m.value[k]))
      && |m.value| <= m.end && m.value == s[m.end - |m.value|..m.end]
      && (m.end == |s| || !In(LineChar, s[m.end]))
  {
    var j := i + 1 + KeyAt(p, s, i + 1).value;
    assert MatchAt(p, s, i) == TailAt(s, i, j);
    TailAtValue(s, i, j);
  }

  /** `re.findall` from position `i`: the leftmost match, then the search resumes where it
      ended. */
  function FindFrom(p: KeyPattern, s: string, i: nat): (ms: seq<Match>)
    requires i <= |s|
    ensures forall k :: 0 <= k < |ms| ==> i <= ms[k].start < ms[k].end <= |s|
    ensures forall k :: 0 < k < |ms| ==> ms[k - 1].end <= ms[k].start
    decreases |s| - i
  {
    if i == |s| then []
    else match MatchAt(p, s, i)
      case None => FindFrom(p, s, i + 1)
      case Some(m) => [m] + FindFrom(p, s, m.end)
  }

  /** Every match found is the pattern's match at its start. */
  lemma {:induction false} FindFromSound(p: KeyPattern, s: string, i: nat, k: nat)
    requires i <= |s| && k < |FindFrom(p, s, i)|
    ensures MatchAt(p, s, FindFrom(p, s, i)[k].start) == Some(FindFrom(p, s, i)[k])
    decreases |s| - i
  {
    var here := MatchAt(p, s, i);
    if here.None? {
      assert FindFrom(p, s, i) == FindFrom(p, s, i + 1);
      FindFromSound(p, s, i + 1, k);
    } else if k > 0 {
      var rest := FindFrom(p, s, here.value.end);
      assert FindFrom(p, s, i) == [here.value] + rest;
      assert FindFrom(p, s, i)[k] == rest[k - 1];
      FindFromSound(p, s, here.value.end, k - 1);
    }
  }

  function FindAll(p: KeyPattern, s: string): seq<Match> {
    FindFrom(p, s, 0)
  }

  /** Position `j` lies inside one of the matches `ms`. */
  predicate Covers(ms: seq<Match>, j: nat) {
    exists k :: 0 <= k < |ms| && ms[k].start <= j < ms[k].end
  }

  /** No match is missed: every position where the pattern matches lies inside one of the
      matches found (at its start, unless an earlier match already covers it). */
  lemma {:induction false} FindFromComplete(p: KeyPattern, s: string, i: nat, j: nat)
    requires i <= j <= |s| && MatchAt(p, s, j).Some?
    ensures Covers(FindFrom(p, s, i), j)
    decreases |s| - i
  {
    match MatchAt(p, s, i)
    case None =>
      FindFromComplete(p, s, i + 1, j);
    case Some(m) =>
      if m.end <= j {
        FindFromComplete(p, s, m.end, j);
        CoversCons(m, FindFrom(p, s, m.end), j);
      } else {
        CoversHead(m, FindFrom(p, s, m.end), j);
      }
  }

  lemma CoversHead(m: Match, rest: seq<Match>, j: nat)
    requires m.start <= j < m.end
    ensures Covers([m] + rest, j)
  {
    assert ([m] + rest)[0] == m;
  }

  lemma CoversCons(m: Match, rest: seq<Match>, j: nat)
    requires Covers(rest, j)
    ensures Covers([m] + rest, j)
  {
    var k :| 0 <= k < |rest| && rest[k].start <= j < rest[k].end;
    assert ([m] + rest)[k + 1] == rest[k];
  }

  // ------------------------------------------------------------- assignments

  /** One `self[name] = value` of `read_properties`, before conversion. */
  datatype Assignment = Assignment(name: string, text: string, convert: Converter)

  /** The name is the canonical one, or the key as matched when that is empty; the value is
      right-trimmed of spaces. */
  function AssignmentOf(r: Rule, m: Match): Assignment {
    Assignment(if r.canonical == "" then m.name else r.canonical, RStripSpaces(m.value), r.convert)
  }

  function RuleAssignments(r: Rule, ms: seq<Match>): seq<Assignment> {
    seq(|ms|, k requires 0 <= k < |ms| => AssignmentOf(r, ms[k]))
  }

  /** Every assignment `read_properties` makes, in order: rule by rule, match by match. */
  function Assignments(rules: seq<Rule>, s: string): seq<Assignment> {
    if rules == [] then []
    else
      var r := rules[|rules| - 1];
      Assignments(rules[..|rules| - 1], s) + RuleAssignments(r, FindAll(r.pattern, s))
  }

  /** The table after the assignments `xs`, stopping at the first conversion that raises. */
  function Apply(m: Props, xs: seq<Assignment>, parseFloat: string -> Option<real>): Step<()> {
    if xs == [] then Step(m, Success(()))
    else
      var before := Apply(m, xs[..|xs| - 1], parseFloat);
      var a := xs[|xs| - 1];
      if before.result.Failure? then before
      else match Convert(a.convert, a.text, parseFloat)
        case Failure(e) => Step(before.props, Failure(e))
        case Success(v) => Step(before.props[a.name := v], Success(()))
  }

  // ------------------------------------------------------------------ lemmas

  /** Applying two runs of assignments is applying the second to the table the first left,
      unless the first raised, which ends the parse. */
  lemma {:induction false} ApplyAppend(m: Props, xs: seq<Assignment>, ys: seq<Assignment>, pf: string -> Option<real>)
    ensures Apply(m, xs + ys, pf) ==
      var first := Apply(m, xs, pf);
      if first.result.Failure? then first else Apply(first.props, ys, pf)
  {
    if ys == [] {
      assert xs + ys == xs;
    } else {
      assert (xs + ys)[..|xs + ys| - 1] == xs + ys[..|ys| - 1];
      ApplyAppend(m, xs, ys[..|ys| - 1], pf);
    }
  }

  /** The assignments never touch a key none of them names. */
  lemma {:induction false} ApplyOnlyNamed(m: Props, xs: seq<Assignment>, pf: string -> Option<real>)
    ensures OnlyChanged(m, Apply(m, xs, pf).props, set k | 0 <= k < |xs| :: xs[k].name)
  {
    if xs != [] {
      ApplyOnlyNamed(m, xs[..|xs| - 1], pf);
    }
  }

  /** A successful parse leaves under each assigned name the converted value of the last
      assignment to that name. */
  lemma {:induction false} ApplyLastWins(m: Props, xs: seq<Assignment>, pf: string -> Option<real>, k: nat)
    requires k < |xs| && Apply(m, xs, pf).result.Success?
    requires forall j :: k < j < |xs| ==> xs[j].name != xs[k].name
    ensures Convert(xs[k].convert, xs[k].text, pf).Success?
    ensures xs[k].name in Apply(m, xs, pf).props
    ensures Apply(m, xs, pf).props[xs[k].name] == Convert(xs[k].convert, xs[k].text, pf).value
  {
    var before := Apply(m, xs[..|xs| - 1], pf);
    if k < |xs| - 1 {
      ApplyLastWins(m, xs[..|xs| - 1], pf, k);
    }
  }

  /** A failed parse raises the error of the first assignment whose conversion fails. */
  lemma {:induction false} ApplyFirstError(m: Props, xs: seq<Assignment>, pf: string -> Option<real>)
    requires Apply(m, xs, pf).result.Failure?
    ensures exists k :: (0 <= k < |xs| && Convert(xs[k].convert, xs[k].text, pf) == Failure(Apply(m, xs, pf).result.error)
      && forall j :: 0 <= j < k ==> Convert(xs[j].convert, xs[j].text, pf).Success?)
  {
    var init := xs[..|xs| - 1];
    var before := Apply(m, init, pf);
    var k: nat;
    if before.result.Failure? {
      assert Apply(m, xs, pf) == before;
      ApplyFirstError(m, init, pf);
      k :| 0 <= k < |init| && Convert(init[k].convert, init[k].text, pf) == Failure(before.result.error)
        && forall j :: 0 <= j < k ==> Convert(init[j].convert, init[j].text, pf).Success?;
      assert xs[k] == init[k];
    } else {
      ApplyNoError(m, init, pf);
      k := |init|;
    }
    forall j | 0 <= j < k ensures Convert(xs[j].convert, xs[j].text, pf).Success? {
      assert xs[j] == init[j];
    }
    assert Convert(xs[k].convert, xs[k].text, pf) == Failure(Apply(m, xs, pf).result.error);
  }

  /** A successful parse converted every assignment. */
  lemma {:induction false} ApplyNoError(m: Props, xs: seq<Assignment>, pf: string -> Option<real>)
    requires Apply(m, xs, pf).result.Success?
    ensures forall j :: 0 <= j < |xs| ==> Convert(xs[j].convert, xs[j].text, pf).Success?
  {
    if xs != [] {
      var init := xs[..|xs| - 1];
      ApplyNoError(m, init, pf);
      forall j | 0 <= j < |xs| ensures Convert(xs[j].convert, xs[j].text, pf).Success? {
        if j < |init| {
          assert xs[j] == init[j];
        }
      }
    }
  }

  /** Every assignment comes from a rule of the table and one of its pattern's matches. */
  lemma {:induction false} AssignmentsFromRules(rules: seq<Rule>, s: string, k: nat)
    requires k < |Assignments(rules, s)|
    ensures exists i, j :: (0 <= i < |rules| && 0 <= j < |FindAll(rules[i].pattern, s)|
      && Assignments(rules, s)[k] == AssignmentOf(rules[i], FindAll(rules[i].pattern, s)[j]))
  {
    var init := rules[..|rules| - 1];
    var r := rules[|rules| - 1];
    var prefix := Assignments(init, s);
    if k < |prefix| {
      AssignmentsFromRules(init, s, k);
      var i, j :| 0 <= i < |init| && 0 <= j < |FindAll(init[i].pattern, s)|
        && prefix[k] == AssignmentOf(init[i], FindAll(init[i].pattern, s)[j]);
      assert rules[i] == init[i];
    } else {
      assert Assignments(rules, s)[k] == AssignmentOf(r, FindAll(r.pattern, s)[k - |prefix|]);
    }
  }

  /** The name a rule gives to a property: its canonical name, or a key its pattern matches. */
  predicate NamedBy(r: Rule, name: string) {
    if r.canonical != "" then name == r.canonical
    else match r.pattern
      case Literal(k) => name == k
      case FeatureKey => IsFeatureName(name)
  }

  lemma AssignmentOfNamed(r: Rule, m: Match, s: string)
    requires m.start <= |s| && MatchAt(r.pattern, s, m.start) == Some(m)
    ensures NamedBy(r, AssignmentOf(r, m).name)
    ensures AssignmentOf(r, m).convert == r.convert
  {
  }

  /** Keys that match no rule never appear: a table parsed from nothing holds only names the
      rules give. */
  lemma KeysNamedByRules(rules: seq<Rule>, s: string, pf: string -> Option<real>)
    ensures forall key :: key in Apply(map[], Assignments(rules, s), pf).props ==>
      exists i :: 0 <= i < |rules| && NamedBy(rules[i], key)
  {
    var xs := Assignments(rules, s);
    ApplyOnlyNamed(map[], xs, pf);
    forall key | key in Apply(map[], xs, pf).props
      ensures exists i :: 0 <= i < |rules| && NamedBy(rules[i], key)
    {
      var k :| 0 <= k < |xs| && xs[k].name == key;
      AssignmentsFromRules(rules, s, k);
      var i, j :| 0 <= i < |rules| && 0 <= j < |FindAll(rules[i].pattern, s)|
        && xs[k] == AssignmentOf(rules[i], FindAll(rules[i].pattern, s)[j]);
      FindFromSound(rules[i].pattern, s, 0, j);
      AssignmentOfNamed(rules[i], FindAll(rules[i].pattern, s)[j], s);
    }
  }

  /** An assignment leaves text under its name unless its rule converts. */
  lemma {:induction false} ApplyKeepsText(m: Props, xs: seq<Assignment>, pf: string -> Option<real>, key: string)
    requires key in m ==> m[key].Str?
    requires forall k :: 0 <= k < |xs| && xs[k].name == key ==> xs[k].convert == Keep
    ensures key in Apply(m, xs, pf).props ==> Apply(m, xs, pf).props[key].Str?
  {
    if xs != [] {
      ApplyKeepsText(m, xs[..|xs| - 1], pf, key);
    }
  }

  /** Exactly three rules of the table convert their values. */
  lemma ConvertingPositions()
    ensures forall i :: 0 <= i < |HeaderKeys| ==> (HeaderKeys[i].convert != Keep <==> i == 6 || i == 12 || i == 24)
  {
  }

  /** The converter of each of the three: `float` stores `sampling_rate`, `_to_bool` stores
      `input_inverted` and `int` stores `WaveformLength` under its own key. */
  lemma ConverterOfEach()
    ensures HeaderKeys[6] == Rule(Literal("SamplingFrequency"), "sampling_rate", ToFloat)
    ensures HeaderKeys[12] == Rule(Literal("InputInverted"), "input_inverted", ToBool)
    ensures HeaderKeys[24] == Rule(Literal("WaveformLength"), "", ToInt)
  {
  }

  /** The only rules of the table that convert their values. */
  lemma ConvertingRules()
    ensures forall i :: 0 <= i < |HeaderKeys| && HeaderKeys[i].convert != Keep ==>
      HeaderKeys[i].canonical in {"sampling_rate", "input_inverted"}
      || (HeaderKeys[i].canonical == "" && HeaderKeys[i].pattern == Literal("WaveformLength"))
  {
    ConvertingPositions();
    ConverterOfEach();
  }

  /** After `read_properties`, every property is still text except `sampling_rate`,
      `input_inverted` and `WaveformLength`, the three the table converts. */
  lemma ParsedValuesText(s: string, pf: string -> Option<real>, key: string)
    requires key != "sampling_rate" && key != "input_inverted" && key != "WaveformLength"
    ensures key in Apply(map[], Assignments(HeaderKeys, s), pf).props ==>
      Apply(map[], Assignments(HeaderKeys, s), pf).props[key].Str?
  {
    var xs := Assignments(HeaderKeys, s);
    forall k | 0 <= k < |xs| && xs[k].name == key
      ensures xs[k].convert == Keep
    {
      AssignmentsFromRules(HeaderKeys, s, k);
      var i, j :| 0 <= i < |HeaderKeys| && 0 <= j < |FindAll(HeaderKeys[i].pattern, s)|
        && xs[k] == AssignmentOf(HeaderKeys[i], FindAll(HeaderKeys[i].pattern, s)[j]);
      var r := HeaderKeys[i];
      FindFromSound(r.pattern, s, 0, j);
      AssignmentOfNamed(r, FindAll(r.pattern, s)[j], s);
      assert NamedBy(r, key) && xs[k].convert == r.convert;
      ConvertingRules();
    }
    ApplyKeepsText(map[], xs, pf, key);
  }
}
