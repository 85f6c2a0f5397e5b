/** The per-channel steps of the header parser. Each turns the text of one property into a
    list with one entry per channel, replicating a single entry across the channels, and
    checks the list's length. Each is a function from the table before the step to the
    table after it and what the step returned or raised. */
module Channels {
  import opened Wrappers
  import opened Text
  import opened Numbers
  import opened Values

  const UNKNOWN := Str("unknown")

  // ------------------------------------------------------------ ids and names

  /** The channel ids as `convert_channel_ids_names` makes them, with the number of id tokens:
      the integers of the whitespace-separated tokens, or `["unknown"]` and no tokens when
      the header has no ids. */
  function ChannelIds(m: Props): Result<(seq<Value>, nat), Error> {
    if "channel_ids" !in m then Success(([UNKNOWN], 0))
    else match m["channel_ids"]
      case Str(t) =>
        var tokens := Tokens(NonSpace, t);
        (match IntsOf(tokens)
         case Success(ids) => Success((ids, |tokens|))
         case Failure(e) => Failure(e))
      case _ => Failure(WrongType("channel_ids"))
  }

  /** `convert_channel_ids_names`: converts the ids, then the names, and returns the number
      of id tokens. A single name is replicated to every channel; absent names become
      `"unknown"` for every channel; several names leave the text as it was, and the length
      check then compares the text's length in characters with the number of ids. */
  function ConvertIdsNames(m: Props): (r: Step<nat>)
    ensures OnlyChanged(m, r.props, {"channel_ids", "channel_names"})
    ensures r.result.Success? ==> ("channel_ids" in r.props && "channel_names" in r.props
      && r.props["channel_ids"].List? && Len(r.props["channel_names"]) == Len(r.props["channel_ids"]))
  {
    match ChannelIds(m)
    case Failure(e) => Step(m, Failure(e))
    case Success(idsCount) =>
      var ids := idsCount.0;
      var m1 := m["channel_ids" := List(ids)];
      if "channel_names" !in m then
        Step(m1["channel_names" := List(Repeat(UNKNOWN, |ids|))], Success(idsCount.1))
      else match m["channel_names"]
        case Str(t) =>
          var names := Tokens(NonSpace, t);
          var m2 := if |names| == 1 then m1["channel_names" := List(Repeat(Str(names[0]), |ids|))] else m1;
          if Len(m2["channel_names"]) == Some(|ids|) then Step(m2, Success(idsCount.1))
          else Step(m2, Failure(ChannelNamesMismatch))
        case _ => Step(m1, Failure(WrongType("channel_names")))
  }

  /** The ids: the integers of the id tokens, and their number is returned; `["unknown"]`
      and 0 without ids. */
  lemma ConvertIdsNamesIds(m: Props)
    requires ConvertIdsNames(m).result.Success?
    ensures "channel_ids" !in m ==>
      ConvertIdsNames(m).props["channel_ids"] == List([UNKNOWN]) && ConvertIdsNames(m).result.value == 0
    ensures "channel_ids" in m ==> (m["channel_ids"].Str? &&
      var tokens := Tokens(NonSpace, m["channel_ids"].text);
      && ConvertIdsNames(m).result.value == |tokens|
      && IntsOf(tokens) == Success(ConvertIdsNames(m).props["channel_ids"].items))
  {
    var ids := ChannelIds(m);
    assert ids.Success?;
    assert ConvertIdsNames(m).props["channel_ids"] == List(ids.value.0);
    assert ConvertIdsNames(m).result.value == ids.value.1;
  }

  /** The names: one name is repeated for every channel, no names become `"unknown"` for
      every channel, and several names stay text whose length must equal the number of ids. */
  lemma ConvertIdsNamesNames(m: Props)
    requires ConvertIdsNames(m).result.Success?
    ensures var r := ConvertIdsNames(m).props; var n := |r["channel_ids"].items|;
      && ("channel_names" !in m ==> r["channel_names"] == List(Repeat(UNKNOWN, n)))
      && ("channel_names" in m ==> (m["channel_names"].Str? &&
            var names := Tokens(NonSpace, m["channel_names"].text);
            && (|names| == 1 ==> r["channel_names"] == List(Repeat(Str(names[0]), n)))
            && (|names| != 1 ==> r["channel_names"] == m["channel_names"] && |m["channel_names"].text| == n)))
  {
  }

  /** With integer ids, the names raise exactly when there are several (or no) name tokens
      and the names' text is not as long, in characters, as the ids are many. */
  lemma ConvertIdsNamesMismatchIff(m: Props)
    requires ChannelIds(m).Success?
    ensures ConvertIdsNames(m).result == Failure(ChannelNamesMismatch) <==>
      ("channel_names" in m && m["channel_names"].Str?
       && |Tokens(NonSpace, m["channel_names"].text)| != 1
       && |m["channel_names"].text| != |ChannelIds(m).value.0|)
  {
  }

  // --------------------------------------------------------- shared by the rest

  /** `len(self["channel_ids"])`. */
  function ChannelCount(m: Props): (r: Result<nat, Error>)
    ensures r.Success? <==> "channel_ids" in m && Len(m["channel_ids"]).Some?
    ensures r.Success? ==> r.value == Len(m["channel_ids"]).value
  {
    if "channel_ids" !in m then Failure(MissingKey("channel_ids"))
    else match Len(m["channel_ids"])
      case None => Failure(WrongType("channel_ids"))
      case Some(n) => Success(n)
  }

  // ---------------------------------------------------------- bit to microvolt

  /** `float(e) * 1e6` for each entry. */
  function MicroVolts(volts: seq<real>): (r: seq<Value>)
    ensures |r| == |volts|
    ensures forall k :: 0 <= k < |r| ==> r[k] == Float(volts[k] * 1000000.0)
  {
    seq(|volts|, k requires 0 <= k < |volts| => Float(volts[k] * 1000000.0))
  }

  /** `setBitToMicroVolt`: the whitespace-separated conversion factors, in microvolts, one per
      channel id; a single factor is replicated to every channel. */
  function BitToMicroVolt(m: Props, parseFloat: string -> Option<real>): (r: Step<()>)
    ensures OnlyChanged(m, r.props, {"bit_to_microVolt"})
    ensures "bit_to_microVolt" !in m ==> r == Step(m, Success(()))
    ensures r.result.Success? && "bit_to_microVolt" in m ==> ("bit_to_microVolt" in r.props
      && r.props["bit_to_microVolt"].List?
      && Success(|r.props["bit_to_microVolt"].items|) == ChannelCount(m))
  {
    if "bit_to_microVolt" !in m then Step(m, Success(()))
    else match m["bit_to_microVolt"]
      case Str(t) =>
        var tokens := Tokens(NonSpace, t);
        var entries: Result<seq<string>, Error> :=
          if |tokens| == 1 then
            (match ChannelCount(m)
             case Success(n) => Success(Repeat(tokens[0], n))
             case Failure(e) => Failure(e))
          else Success(tokens);
        (match entries
         case Failure(e) => Step(m, Failure(e))
         case Success(es) =>
           match ConvertAll(es, parseFloat)
           case None => Step(m, Failure(NotFloat(es[FirstRejected(es, parseFloat)])))
           case Some(volts) =>
             var m1 := m["bit_to_microVolt" := List(MicroVolts(volts))];
             assert ChannelCount(m1) == ChannelCount(m);
             match ChannelCount(m1)
             case Failure(e) => Step(m1, Failure(e))
             case Success(n) =>
               if |volts| == n then Step(m1, Success(())) else Step(m1, Failure(BitToMicroVoltMismatch)))
      case _ => Step(m, Failure(WrongType("bit_to_microVolt")))
  }

  /** The length check fails exactly when the number of factors is neither one nor the
      number of channel ids. */
  lemma BitToMicroVoltMismatchIff(m: Props, parseFloat: string -> Option<real>, t: string, n: nat)
    requires "bit_to_microVolt" in m && m["bit_to_microVolt"] == Str(t) && ChannelCount(m) == Success(n)
    requires forall k :: 0 <= k < |Tokens(NonSpace, t)| ==> parseFloat(Tokens(NonSpace, t)[k]).Some?
    ensures BitToMicroVolt(m, parseFloat).result == Failure(BitToMicroVoltMismatch)
      <==> |Tokens(NonSpace, t)| != 1 && |Tokens(NonSpace, t)| != n
    ensures BitToMicroVolt(m, parseFloat).result.Success?
      <==> |Tokens(NonSpace, t)| == 1 || |Tokens(NonSpace, t)| == n
  {
    var tokens := Tokens(NonSpace, t);
    if |tokens| == 1 {
      var es := Repeat(tokens[0], n);
      assert forall k :: 0 <= k < |es| ==> parseFloat(es[k]).Some?;
    }
  }

  /** On success there is one factor per channel id, in microvolts: a single factor is
      replicated to every channel, and otherwise the k-th factor belongs to the k-th id. */
  lemma BitToMicroVoltValues(m: Props, parseFloat: string -> Option<real>, t: string, n: nat)
    requires "bit_to_microVolt" in m && m["bit_to_microVolt"] == Str(t) && ChannelCount(m) == Success(n)
    requires BitToMicroVolt(m, parseFloat).result.Success?
    ensures var tokens := Tokens(NonSpace, t); var v := BitToMicroVolt(m, parseFloat).props["bit_to_microVolt"];
      && v.List? && |v.items| == n
      && (|tokens| == 1 ==> forall k :: 0 <= k < n ==>
            parseFloat(tokens[0]).Some? && v.items[k] == Float(parseFloat(tokens[0]).value * 1000000.0))
      && (|tokens| != 1 ==> forall k :: 0 <= k < n ==>
            k < |tokens| && parseFloat(tokens[k]).Some? && v.items[k] == Float(parseFloat(tokens[k]).value * 1000000.0))
  {
    var tokens := Tokens(NonSpace, t);
    var es := if |tokens| == 1 then Repeat(tokens[0], n) else tokens;
    var volts := ConvertAll(es, parseFloat).value;
    assert BitToMicroVolt(m, parseFloat).props["bit_to_microVolt"] == List(MicroVolts(volts));
  }

  // --------------------------------------------------------------- input ranges

  /** The integers of the range tokens; a single one is converted once and repeated. */
  function Ranges(tokens: seq<string>, count: nat): (r: Result<seq<Value>, Error>)
    ensures r.Success? ==> |r.value| == if |tokens| == 1 then count else |tokens|
  {
    if |tokens| == 1 then
      match ParseInt(tokens[0])
      case None => Failure(NotInt(tokens[0]))
      case Some(x) => Success(Repeat(Int(x), count))
    else IntsOf(tokens)
  }

  /** `setInputRanges(count)`: the integers of the `\w+` tokens, one per channel id token; a
      single one is replicated `count` times. */
  function InputRanges(m: Props, count: nat): (r: Step<()>)
    ensures OnlyChanged(m, r.props, {"InputRange"})
    ensures "InputRange" !in m ==> r == Step(m, Success(()))
    ensures r.result.Success? && "InputRange" in m ==> ("InputRange" in r.props
      && r.props["InputRange"].List? && |r.props["InputRange"].items| == count)
  {
    if "InputRange" !in m then Step(m, Success(()))
    else match m["InputRange"]
      case Str(t) =>
        (match Ranges(Tokens(Word, t), count)
         case Failure(e) => Step(m, Failure(e))
         case Success(rs) =>
           var m1 := m["InputRange" := List(rs)];
           if |rs| == count then Step(m1, Success(())) else Step(m1, Failure(InputRangeMismatch)))
      case _ => Step(m, Failure(WrongType("InputRange")))
  }

  /** The length check fails exactly when the number of ranges is neither one nor `count`;
      a single range is converted even when it is repeated zero times. */
  lemma InputRangesMismatchIff(m: Props, count: nat, t: string)
    requires "InputRange" in m && m["InputRange"] == Str(t)
    requires forall k :: 0 <= k < |Tokens(Word, t)| ==> ParseInt(Tokens(Word, t)[k]).Some?
    ensures InputRanges(m, count).result == Failure(InputRangeMismatch)
      <==> |Tokens(Word, t)| != 1 && |Tokens(Word, t)| != count
    ensures InputRanges(m, count).result.Success? && |Tokens(Word, t)| == 1 ==>
      InputRanges(m, count).props["InputRange"] == List(Repeat(Int(ParseInt(Tokens(Word, t)[0]).value), count))
  {
  }
}
