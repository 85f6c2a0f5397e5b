/** The values a header's property table holds, and the errors its steps raise. */
module Values {
  import opened Wrappers
  import opened Numbers
  import Pep440

  /** `datetime.datetime`, as far as the header uses it. */
  datatype DateTime = DateTime(year: int, month: int, day: int, hour: int, minute: int, second: int, microsecond: int)

  /** A property value: the raw text of a header line, or what a conversion made of it. */
  datatype Value =
    | Str(text: string)
    | Float(number: real)
    | Int(integer: int)
    | Bool(truth: bool)
    | List(items: seq<Value>)
    | Ver(version: Pep440.Version)
    | Time(at: DateTime)
    | NoneValue

  /** The header itself: an ordered dictionary from property names to values (the
      insertion order is not modelled). */
  type Props = map<string, Value>

  /** The exceptions the header steps raise, one constructor per cause. */
  datatype Error =
    | NotBool(text: string)                       // `_to_bool` rejects the text
    | NotInt(text: string)                        // `int()` raises ValueError
    | NotFloat(text: string)                      // `float()` raises ValueError
    | MissingKey(key: string)                     // KeyError
    | WrongType(key: string)                      // TypeError: the value under `key` is not text
    | ChannelNamesMismatch                        // assertion in convert_channel_ids_names
    | BitToMicroVoltMismatch                      // assertion in setBitToMicroVolt
    | InputRangeMismatch                          // assertion in setInputRanges
    | CheetahRevWithApplicationName               // assertion in setApplicationAndVersion
    | ApplicationNameUnmatched(text: string)      // assertion: not exactly one name/version pair
    | InvalidVersion(text: string)                // packaging's InvalidVersion
    | NoOpenTime(app: string, version: Option<Pep440.Version>)   // IOError; `None` is "NA"
    | NoCloseTime(app: string, version: Option<Pep440.Version>)  // IOError
    | NoSecondToken(text: string)                 // IndexError on `split()[1]`
    | UnknownAcqType(name: string)                // KeyError of the enumeration lookup

  /** The table after a step, and what the step returned or raised. */
  datatype Step<+R> = Step(props: Props, result: Result<R, Error>)

  /** `len(v)`, or `None` where Python raises TypeError. */
  function Len(v: Value): Option<nat> {
    match v
    case Str(t) => Some(|t|)
    case List(xs) => Some(|xs|)
    case _ => None
  }

  /** `[x] * n`. */
  function Repeat<T>(x: T, n: nat): (r: seq<T>)
    ensures |r| == n
    ensures forall k :: 0 <= k < n ==> r[k] == x
  {
    if n == 0 then [] else Repeat(x, n - 1) + [x]
  }

  /** `[f(t) for t in ts]` for a conversion `f` that may fail: `None` when it fails on any text. */
  function ConvertAll<T>(ts: seq<string>, f: string -> Option<T>): (r: Option<seq<T>>)
    ensures r.Some? <==> forall k :: 0 <= k < |ts| ==> f(ts[k]).Some?
    ensures r.Some? ==> |r.value| == |ts| && forall k :: 0 <= k < |ts| ==> f(ts[k]) == Some(r.value[k])
  {
    if ts == [] then Some([])
    else match f(ts[0])
      case None => None
      case Some(x) =>
        match ConvertAll(ts[1..], f)
        case None =>
          assert exists k :: 0 <= k < |ts[1..]| && f(ts[1..][k]).None?;
          None
        case Some(rest) =>
          assert forall k :: 1 <= k < |ts| ==> ts[k] == ts[1..][k - 1];
          Some([x] + rest)
  }

  /** The text a comprehension over `ts` raises on: the first one `f` rejects. */
  function FirstRejected<T>(ts: seq<string>, f: string -> Option<T>): (k: nat)
    requires exists k :: 0 <= k < |ts| && f(ts[k]).None?
    ensures k < |ts| && f(ts[k]).None?
    ensures forall j :: 0 <= j < k ==> f(ts[j]).Some?
  {
    if f(ts[0]).None? then 0
    else
      assert exists k :: 0 <= k < |ts[1..]| && f(ts[1..][k]).None? by {
        var k :| 0 <= k < |ts| && f(ts[k]).None?;
        assert ts[1..][k - 1] == ts[k];
      }
      var k := FirstRejected(ts[1..], f);
      assert forall j :: 1 <= j < k + 1 ==> ts[j] == ts[1..][j - 1];
      k + 1
  }

  /** `[int(t) for t in ts]`: raises for the first text `int()` rejects. */
  function IntsOf(ts: seq<string>): (r: Result<seq<Value>, Error>)
    ensures r.Success? <==> forall k :: 0 <= k < |ts| ==> ParseInt(ts[k]).Some?
    ensures r.Success? ==> |r.value| == |ts| && forall k :: 0 <= k < |ts| ==> r.value[k] == Int(ParseInt(ts[k]).value)
    ensures r.Failure? ==> exists k :: (0 <= k < |ts| && ParseInt(ts[k]).None? && r.error == NotInt(ts[k])
      && forall j :: 0 <= j < k ==> ParseInt(ts[j]).Some?)
  {
    match ConvertAll(ts, ParseInt)
    case Some(xs) => Success(seq(|xs|, k requires 0 <= k < |xs| => Int(xs[k])))
    case None => Failure(NotInt(ts[FirstRejected(ts, ParseInt)]))
  }

  /** Only the keys in `keys` may differ between `m` and `m'`. */
  ghost predicate OnlyChanged(m: Props, m': Props, keys: set<string>) {
    forall k :: k !in keys ==> (k in m <==> k in m') && (k in m ==> m'[k] == m[k])
  }

  /** Storing under one of `keys` changes only `keys`. */
  lemma UpdateOnlyChanged(m: Props, key: string, v: Value, keys: set<string>)
    requires key in keys
    ensures OnlyChanged(m, m[key := v], keys)
  {
  }

  /** A key outside `keys` keeps its presence and its value. */
  lemma OnlyChangedKeeps(m: Props, m': Props, keys: set<string>, k: string)
    requires OnlyChanged(m, m', keys) && k !in keys
    ensures (k in m' <==> k in m) && (k in m ==> m'[k] == m[k])
  {
  }

  /** Changes confined to `keys`, then to `keys'`, are confined to both together. */
  lemma OnlyChangedTrans(m: Props, m': Props, m'': Props, keys: set<string>, keys': set<string>)
    requires OnlyChanged(m, m', keys) && OnlyChanged(m', m'', keys')
    ensures OnlyChanged(m, m'', keys + keys')
  {
  }
}
