/** `readTimeDate`: the header dialect chosen from the application's name and version, and
    the opening and closing times read with that dialect's patterns and formats. */
module Dialects {
  import opened Wrappers
  import opened Text
  import opened Values
  import opened Pep440

  // ------------------------------------------------------------------ dialects

  /** A date and time pattern `<prefix>(?P<date>\S+)<middle>(?P<time>\S+)`, given by its two
      literal parts with the regular expression's escapes resolved. */
  datatype DatePattern = DatePattern(prefix: string, middle: string)

  /** The keys of `header_pattern_dicts`. */
  datatype DialectName = Bml | V540 | Bv564 | Neuraview2 | InProps | InHeader

  /** One entry of `header_pattern_dicts`: the opening pattern, the closing pattern if any,
      the date format and the second format if any (the file-name pattern is unused). */
  datatype Dialect = Dialect(open: DatePattern, close: Option<DatePattern>, format: string, format2: Option<string>)

  function DialectOf(d: DialectName): Dialect {
    match d
    case Bml =>
      Dialect(DatePattern("## Time Opened: (m/d/y): ", "  At Time: "), None, "%m/%d/%y %H:%M:%S.%f", None)
    case V540 =>
      Dialect(DatePattern("## Time Opened (m/d/y): ", "  At Time: "),
              Some(DatePattern("## Time Closed (m/d/y): ", "  At Time: ")), "%m/%d/%Y %H:%M:%S.%f", None)
    case Bv564 =>
      Dialect(DatePattern("## Time Opened (m/d/y): ", "  (h:m:s.ms) "),
              Some(DatePattern("## Time Closed (m/d/y): ", "  (h:m:s.ms) ")), "%m/%d/%Y %H:%M:%S.%f", None)
    case Neuraview2 =>
      Dialect(DatePattern("## Date Opened: (mm/dd/yyy): ", " At Time: "),
              Some(DatePattern("## Date Closed: (mm/dd/yyy): ", " At Time: ")), "%m/%d/%Y %H:%M:%S", None)
    case InProps =>
      Dialect(DatePattern("-TimeCreated ", " "), Some(DatePattern("-TimeClosed ", " ")),
              "%Y/%m/%d %H:%M:%S", Some("%Y/%m/%d %H:%M:%S.%f"))
    case InHeader =>
      Dialect(DatePattern("## Time Opened: (m/d/y): ", "  At Time: "), None, "%m/%d/%y %H:%M:%S.%f", None)
  }

  // ------------------------------------------------------------------ matching

  /** Every middle part starts with a space, which the date run cannot hold: only the longest
      date run can be followed by the middle, so a greedy match is the only one. */
  lemma MiddlesStartWithSpace(d: DialectName)
    ensures var p := DialectOf(d); |p.open.middle| > 0 && IsSpace(p.open.middle[0])
    ensures var p := DialectOf(d); p.close.Some? ==> |p.close.value.middle| > 0 && IsSpace(p.close.value.middle[0])
  {
  }

  /** The date and the time text a pattern captures at position `i`, if it matches there. */
  function DateAt(p: DatePattern, s: string, i: nat): (r: Option<(string, string)>)
    requires i <= |s|
    ensures r.Some? ==> |r.value.0| > 0 && |r.value.1| > 0
    ensures r.Some? ==> forall k :: 0 <= k < |r.value.0| ==> !IsSpace(r.value.0[k])
  {
    var t := s[i..];
    if !StartsWith(t, p.prefix) then None else DateTimeAt(p.middle, t[|p.prefix|..])
  }

  /** `(\S+)` + `middle` + `(\S+)` matched at the start of `u`. */
  function DateTimeAt(middle: string, u: string): (r: Option<(string, string)>)
    ensures r.Some? ==> |r.value.0| > 0 && |r.value.1| > 0
    ensures r.Some? ==> forall k :: 0 <= k < |r.value.0| ==> !IsSpace(r.value.0[k])
  {
    var d := Run(NonSpace, u);
    if d == 0 || !StartsWith(u[d..], middle) then None
    else
      var w := u[d..][|middle|..];
      var e := Run(NonSpace, w);
      if e == 0 then None
      else
        RunChars(NonSpace, u);
        assert forall k :: 0 <= k < d ==> u[..d][k] == u[k] && In(NonSpace, u[k]);
        Some((u[..d], w[..e]))
  }

  /** A pattern whose middle starts with a space matches a text laid out as prefix, date,
      middle, time, and a rest that does not continue the time, and captures exactly that
      date and time. */
  lemma DateAtOf(p: DatePattern, pre: string, date: string, time: string, rest: string)
    requires |p.middle| > 0 && IsSpace(p.middle[0])
    requires |date| > 0 && forall k :: 0 <= k < |date| ==> !IsSpace(date[k])
    requires |time| > 0 && forall k :: 0 <= k < |time| ==> !IsSpace(time[k])
    requires rest == [] || IsSpace(rest[0])
    ensures var s := pre + p.prefix + date + p.middle + time + rest;
      DateAt(p, s, |pre|) == Some((date, time))
  {
    var u := date + p.middle + time + rest;
    var t := p.prefix + u;
    var s := pre + p.prefix + date + p.middle + time + rest;
    assert s[|pre|..] == t;
    assert t[..|p.prefix|] == p.prefix && t[|p.prefix|..] == u;
    DateTimeAtOf(p.middle, date, time, rest);
  }

  /** The date and time part alone: a greedy date run stops at the middle's space, and a
      greedy time run stops where the rest starts. */
  lemma DateTimeAtOf(middle: string, date: string, time: string, rest: string)
    requires |middle| > 0 && IsSpace(middle[0])
    requires |date| > 0 && forall k :: 0 <= k < |date| ==> !IsSpace(date[k])
    requires |time| > 0 && forall k :: 0 <= k < |time| ==> !IsSpace(time[k])
    requires rest == [] || IsSpace(rest[0])
    ensures DateTimeAt(middle, date + middle + time + rest) == Some((date, time))
  {
    var w := time + rest;
    var u := date + middle + time + rest;
    assert u == date + (middle + w);
    RunOfPrefix(NonSpace, date, middle + w);
    assert u[|date|..] == middle + w && u[..|date|] == date;
    assert (middle + w)[..|middle|] == middle && (middle + w)[|middle|..] == w;
    RunOfPrefix(NonSpace, time, rest);
    assert w[..|time|] == time;
  }

  /** `re.search`: the match at the leftmost position where the pattern matches. */
  function SearchFrom(p: DatePattern, s: string, i: nat): (r: Option<(string, string)>)
    requires i <= |s|
    ensures r.Some? <==> exists j :: i <= j <= |s| && DateAt(p, s, j).Some?
    ensures r.Some? ==> exists j :: (i <= j <= |s| && DateAt(p, s, j) == r
      && forall k :: i <= k < j ==> DateAt(p, s, k).None?)
    decreases |s| - i
  {
    match DateAt(p, s, i)
    case Some(x) => Some(x)
    case None =>
      if i == |s| then None
      else
        var r := SearchFrom(p, s, i + 1);
        assert forall j :: i <= j <= |s| && DateAt(p, s, j).Some? ==> i + 1 <= j;
        r
  }

  function Search(p: DatePattern, s: string): Option<(string, string)> {
    SearchFrom(p, s, 0)
  }

  // ----------------------------------------------------------------- selection

  /** `Version(text)` for a release without a developmental part. */
  function Release(segments: seq<nat>): Version {
    Version(segments, None)
  }

  /** The dialect of a Cheetah file, from the version bands of `readTimeDate`. */
  function CheetahDialect(v: Version): DialectName {
    if Le(v, Release([2])) then Bv564
    else if Lt(v, Release([5])) then InHeader
    else if Le(v, Release([5, 4, 0])) then V540
    else if Eq(v, Release([5, 6, 0])) then InHeader
    else if Le(v, Release([5, 6, 4])) then Bv564
    else InProps
  }

  /** The dialect chosen, with the application name and version the error messages use
      (`None` stands for `"NA"`). These are local to `readTimeDate`: the table is not changed. */
  datatype Selection = Selection(dialect: DialectName, app: string, version: Option<Version>)

  function Select(m: Props): (r: Result<Selection, Error>)
    ensures r.Success? ==> r.value.dialect != Bml
    ensures r.Failure? <==> ("ApplicationName" !in m
      || (m["ApplicationName"] == Str("Cheetah") && !("ApplicationVersion" in m && m["ApplicationVersion"].Ver?)))
    ensures r.Success? && m["ApplicationName"] == Str("Cheetah") ==>
      r.value == Selection(CheetahDialect(m["ApplicationVersion"].version), "Cheetah", Some(m["ApplicationVersion"].version))
    ensures r.Success? && m["ApplicationName"] == Str("BML") ==> r.value.dialect == InHeader
    ensures r.Success? && m["ApplicationName"] == Str("Neuraview") ==> r.value.dialect == Neuraview2
    ensures r.Success? && m["ApplicationName"] !in {Str("Cheetah"), Str("BML"), Str("Neuraview")} ==>
      r.value.dialect == InProps && r.value.app == (if m["ApplicationName"] == Str("Pegasus") then "Pegasus" else "Unknown")
    ensures r.Success? && m["ApplicationName"] != Str("Cheetah") ==>
      r.value.version == (if r.value.app == "Unknown" then None else Some(Release([2])))
  {
    if "ApplicationName" !in m then Failure(MissingKey("ApplicationName"))
    else
      var an := m["ApplicationName"];
      if an == Str("Cheetah") then
        if "ApplicationVersion" !in m then Failure(MissingKey("ApplicationVersion"))
        else match m["ApplicationVersion"]
          case Ver(v) => Success(Selection(CheetahDialect(v), "Cheetah", Some(v)))
          case _ => Failure(WrongType("ApplicationVersion"))
      else if an == Str("BML") then Success(Selection(InHeader, "BML", Some(Release([2]))))
      else if an == Str("Neuraview") then Success(Selection(Neuraview2, "Neuraview", Some(Release([2]))))
      else if an == Str("Pegasus") then Success(Selection(InProps, "Pegasus", Some(Release([2]))))
      else Success(Selection(InProps, "Unknown", None))
  }

  /** Comparisons between the band limits. */
  lemma BandLimits()
    ensures Lt(Release([2]), Release([5])) && Lt(Release([5]), Release([5, 4, 0]))
    ensures Lt(Release([5, 4, 0]), Release([5, 6, 0])) && Lt(Release([5, 6, 0]), Release([5, 6, 4]))
  {
  }

  /** `Le(a, b)` fails exactly when `b` sorts below `a`. */
  lemma NotLe(a: Version, b: Version)
    ensures !Le(a, b) <==> Lt(b, a)
    ensures !Lt(a, b) <==> Le(b, a)
  {
    CompareAntisymmetric(a, b);
  }

  /** The bands of Cheetah versions: at most 2, and the releases above 5.4.0 up to 5.6.4
      except 5.6.0, use the `bv5.6.4` dialect; above 2 and below 5, and exactly 5.6.0, the
      `inHeader` dialect; from 5 to 5.4.0 the `v5.4.0` dialect; above 5.6.4 `inProps`. */
  lemma CheetahBands(v: Version)
    ensures CheetahDialect(v) == Bv564 <==>
      Le(v, Release([2])) || (Lt(Release([5, 4, 0]), v) && Le(v, Release([5, 6, 4])) && !Eq(v, Release([5, 6, 0])))
    ensures CheetahDialect(v) == InHeader <==>
      (Lt(Release([2]), v) && Lt(v, Release([5]))) || Eq(v, Release([5, 6, 0]))
    ensures CheetahDialect(v) == V540 <==> Le(Release([5]), v) && Le(v, Release([5, 4, 0]))
    ensures CheetahDialect(v) == InProps <==> Lt(Release([5, 6, 4]), v)
  {
    var r2, r5, r540, r560, r564 := Release([2]), Release([5]), Release([5, 4, 0]), Release([5, 6, 0]), Release([5, 6, 4]);
    BandLimits();
    NotLe(v, r2); NotLe(v, r5); NotLe(v, r540); NotLe(v, r564);
    NotLe(r2, v); NotLe(r5, v); NotLe(r540, v); NotLe(r564, v);
    if Le(v, r2) {
      CompareTransitive(v, r2, r5);
      CompareTransitive(v, r5, r540);
      CompareTransitive(v, r540, r560);
      CompareTransitive(v, r560, r564);
    } else if Lt(v, r5) {
      CompareTransitive(v, r5, r540);
      CompareTransitive(v, r540, r560);
      CompareTransitive(v, r560, r564);
    } else if Le(v, r540) {
      CompareTransitive(v, r540, r560);
      CompareTransitive(v, r560, r564);
    } else if Eq(v, r560) {
      CompareAntisymmetric(v, r560);
      CompareTransitive(r540, r560, v);
      CompareTransitive(v, r560, r564);
    } else if Le(v, r564) {
    } else {
      CompareTransitive(r540, r564, v);
      CompareTransitive(r560, r564, v);
      assert !Eq(v, r560) by {
        if Eq(v, r560) {
          CompareAntisymmetric(v, r560);
          CompareTransitive(r564, v, r560);
        }
      }
    }
  }

  /** Version 5.6.0 takes the `inHeader` dialect, not `v5.4.0`. */
  lemma Cheetah560()
    ensures CheetahDialect(Release([5, 6, 0])) == InHeader
  {
    CompareReleaseZeroPadded([5, 6, 0], [5, 6, 0]);
  }

  // ---------------------------------------------------------------- timestamps

  /** The opening time: the first format, then the second one if the dialect has it, and
      `None` when neither parses. */
  function OpenedValue(found: (string, string), d: Dialect, strptime: (string, string) -> Option<DateTime>): (v: Value)
    ensures v.Time? || v == NoneValue
    ensures strptime(found.0 + " " + found.1, d.format).Some? ==> v == Time(strptime(found.0 + " " + found.1, d.format).value)
    ensures (strptime(found.0 + " " + found.1, d.format).None? && d.format2.Some?
      && strptime(found.0 + " " + found.1, d.format2.value).Some?) ==>
      v == Time(strptime(found.0 + " " + found.1, d.format2.value).value)
    ensures v == NoneValue <==> (strptime(found.0 + " " + found.1, d.format).None?
      && (d.format2.None? || strptime(found.0 + " " + found.1, d.format2.value).None?))
  {
    var text := found.0 + " " + found.1;
    if strptime(text, d.format).Some? then Time(strptime(text, d.format).value)
    else if d.format2.Some? && strptime(text, d.format2.value).Some? then Time(strptime(text, d.format2.value).value)
    else NoneValue
  }

  /** The closing time: the first format only, and `None` when it does not parse. */
  function ClosedValue(found: (string, string), d: Dialect, strptime: (string, string) -> Option<DateTime>): (v: Value)
    ensures v.Time? <==> strptime(found.0 + " " + found.1, d.format).Some?
    ensures !v.Time? ==> v == NoneValue
  {
    var text := found.0 + " " + found.1;
    if strptime(text, d.format).Some? then Time(strptime(text, d.format).value) else NoneValue
  }

  /** `readTimeDate`: the opening time must be found; the closing time is looked for only in
      a dialect with a closing pattern, and must then be found too. */
  function ReadTimeDate(m: Props, text: string, strptime: (string, string) -> Option<DateTime>): (r: Step<()>)
    ensures OnlyChanged(m, r.props, {"recording_opened", "recording_closed"})
    ensures r.result.Success? ==> "recording_opened" in r.props
  {
    match Select(m)
    case Failure(e) => Step(m, Failure(e))
    case Success(sel) =>
      var d := DialectOf(sel.dialect);
      var opening := Search(d.open, text);
      if opening.None? then Step(m, Failure(NoOpenTime(sel.app, sel.version)))
      else
        ReadClosing(m["recording_opened" := OpenedValue(opening.value, d, strptime)], d, sel, text, strptime)
  }

  /** The second half of `readTimeDate`, once the opening time is stored: only the closing
      time may change, and the only error is a closing pattern that matches nowhere. */
  function ReadClosing(m: Props, d: Dialect, sel: Selection, text: string, strptime: (string, string) -> Option<DateTime>): (r: Step<()>)
    ensures OnlyChanged(m, r.props, {"recording_closed"})
    ensures r.result.Failure? ==> r.result == Failure(NoCloseTime(sel.app, sel.version))
    ensures r.result.Failure? <==> d.close.Some? && Search(d.close.value, text).None?
    ensures d.close.Some? && Search(d.close.value, text).Some? ==>
      && "recording_closed" in r.props
      && r.props["recording_closed"] == ClosedValue(Search(d.close.value, text).value, d, strptime)
  {
    if d.close.None? then Step(m, Success(()))
    else
      var closing := Search(d.close.value, text);
      if closing.None? then Step(m, Failure(NoCloseTime(sel.app, sel.version)))
      else Step(m["recording_closed" := ClosedValue(closing.value, d, strptime)], Success(()))
  }

  /** Without an opening time anywhere in the text the step raises and changes nothing. */
  lemma NoOpeningTime(m: Props, text: string, strptime: (string, string) -> Option<DateTime>)
    requires Select(m).Success?
    requires forall i :: 0 <= i <= |text| ==> DateAt(DialectOf(Select(m).value.dialect).open, text, i).None?
    ensures ReadTimeDate(m, text, strptime) == Step(m, Failure(NoOpenTime(Select(m).value.app, Select(m).value.version)))
  {
  }

  /** Once an opening time is found it is recorded, as its parsed value, whatever happens
      to the closing time; the only error left is a missing closing time. */
  lemma OpeningRecorded(m: Props, text: string, strptime: (string, string) -> Option<DateTime>)
    requires Select(m).Success? && Search(DialectOf(Select(m).value.dialect).open, text).Some?
    ensures var d := DialectOf(Select(m).value.dialect); var r := ReadTimeDate(m, text, strptime);
      && "recording_opened" in r.props
      && r.props["recording_opened"] == OpenedValue(Search(d.open, text).value, d, strptime)
      && (r.result.Failure? ==> r.result.error.NoCloseTime?)
  {
    var sel := Select(m).value;
    var d := DialectOf(sel.dialect);
    var m1 := m["recording_opened" := OpenedValue(Search(d.open, text).value, d, strptime)];
    assert ReadTimeDate(m, text, strptime) == ReadClosing(m1, d, sel, text, strptime);
    OnlyChangedKeeps(m1, ReadClosing(m1, d, sel, text, strptime).props, {"recording_closed"}, "recording_opened");
  }

  /** A dialect with a closing pattern that matches succeeds and records the closing time,
      parsed with the first format only. */
  lemma ClosingRecorded(m: Props, text: string, strptime: (string, string) -> Option<DateTime>)
    requires Select(m).Success?
    requires var d := DialectOf(Select(m).value.dialect);
      && Search(d.open, text).Some? && d.close.Some? && Search(d.close.value, text).Some?
    ensures var d := DialectOf(Select(m).value.dialect); var r := ReadTimeDate(m, text, strptime);
      && r.result.Success?
      && "recording_closed" in r.props
      && r.props["recording_closed"] == ClosedValue(Search(d.close.value, text).value, d, strptime)
  {
    var sel := Select(m).value;
    var d := DialectOf(sel.dialect);
    var m1 := m["recording_opened" := OpenedValue(Search(d.open, text).value, d, strptime)];
    assert ReadTimeDate(m, text, strptime) == ReadClosing(m1, d, sel, text, strptime);
  }

  /** An opening time found but parsed by neither format is recorded as `None`, not raised. */
  lemma UnparsedOpeningTime(m: Props, text: string, strptime: (string, string) -> Option<DateTime>)
    requires Select(m).Success?
    requires var d := DialectOf(Select(m).value.dialect); var found := Search(d.open, text);
      && found.Some?
      && strptime(found.value.0 + " " + found.value.1, d.format).None?
      && (d.format2.None? || strptime(found.value.0 + " " + found.value.1, d.format2.value).None?)
    ensures "recording_opened" in ReadTimeDate(m, text, strptime).props
    ensures ReadTimeDate(m, text, strptime).props["recording_opened"] == NoneValue
    ensures !ReadTimeDate(m, text, strptime).result.Failure?
      || ReadTimeDate(m, text, strptime).result.error.NoCloseTime?
  {
    var d := DialectOf(Select(m).value.dialect);
    assert OpenedValue(Search(d.open, text).value, d, strptime) == NoneValue;
    OpeningRecorded(m, text, strptime);
  }

  /** A dialect with a closing pattern that matches nowhere raises, after recording the
      opening time; unlike the opening time's parse failure, this is an error. */
  lemma NoClosingTime(m: Props, text: string, strptime: (string, string) -> Option<DateTime>)
    requires Select(m).Success?
    requires var d := DialectOf(Select(m).value.dialect);
      && Search(d.open, text).Some? && d.close.Some?
      && forall i :: 0 <= i <= |text| ==> DateAt(d.close.value, text, i).None?
    ensures ReadTimeDate(m, text, strptime).result == Failure(NoCloseTime(Select(m).value.app, Select(m).value.version))
    ensures "recording_opened" in ReadTimeDate(m, text, strptime).props
    ensures "recording_closed" in ReadTimeDate(m, text, strptime).props <==> "recording_closed" in m
  {
  }

  /** A dialect without a closing pattern (`inHeader`, which BML files and some Cheetah
      versions use) never sets the closing time. */
  lemma InHeaderNeverCloses(m: Props, text: string, strptime: (string, string) -> Option<DateTime>)
    requires Select(m).Success? && Select(m).value.dialect == InHeader
    ensures "recording_closed" in ReadTimeDate(m, text, strptime).props <==> "recording_closed" in m
  {
  }

  /** The opening and closing times are read asymmetrically: in the `inProps` dialect a time
      with fractional seconds, which only the second format accepts, opens the recording but
      closes it with `None`. */
  lemma OpenLenientCloseStrict(found: (string, string), strptime: (string, string) -> Option<DateTime>, t: DateTime)
    requires strptime(found.0 + " " + found.1, DialectOf(InProps).format).None?
    requires strptime(found.0 + " " + found.1, DialectOf(InProps).format2.value) == Some(t)
    ensures OpenedValue(found, DialectOf(InProps), strptime) == Time(t)
    ensures ClosedValue(found, DialectOf(InProps), strptime) == NoneValue
  {
  }
}
