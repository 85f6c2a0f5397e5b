/** Character classes and the small string operations the header parser relies on.
    The header is decoded as Latin-1, so every class is given exactly on that range. */
module Text {

  /** `str.isspace()`, which is also `\s` of Python's `re` on Latin-1 text. */
  predicate IsSpace(c: char) {
    c == ' ' || ('\t' <= c <= '\r') || ('\U{1C}' <= c <= '\U{1F}') || c == '\U{85}' || c == '\U{A0}'
  }

  /** `\d`: the only decimal digits of Latin-1 are the ASCII ones. */
  predicate IsDecimal(c: char) {
    '0' <= c <= '9'
  }

  /** `\w` of Python's `re` on Latin-1: a Unicode letter, digit or numeric character, or `_`. */
  predicate IsWordChar(c: char) {
    || ('a' <= c <= 'z') || ('A' <= c <= 'Z') || IsDecimal(c) || c == '_'
    || c == '\U{AA}' || c == '\U{B2}' || c == '\U{B3}' || c == '\U{B5}' || c == '\U{B9}' || c == '\U{BA}'
    || ('\U{BC}' <= c <= '\U{BE}') || ('\U{C0}' <= c <= '\U{D6}')
    || ('\U{D8}' <= c <= '\U{F6}') || ('\U{F8}' <= c <= '\U{FF}')
  }

  /** The regular-expression character classes used by the header patterns. */
  datatype CharClass =
    | NonSpace  // \S
    | Word      // \w
    | Digit     // \d
    | Space     // \s
    | LineChar  // [\S ]: anything but a line break, tab or other non-space whitespace

  predicate In(cls: CharClass, c: char) {
    match cls
    case NonSpace => !IsSpace(c)
    case Word => IsWordChar(c)
    case Digit => IsDecimal(c)
    case Space => IsSpace(c)
    case LineChar => !IsSpace(c) || c == ' '
  }

  /** The length of the longest prefix of `s` made of `cls` characters: what a greedy
      `cls*` consumes. */
  function Run(cls: CharClass, s: string): (n: nat)
    ensures n <= |s|
    ensures n == |s| || !In(cls, s[n])
  {
    if s == [] || !In(cls, s[0]) then 0 else 1 + Run(cls, s[1..])
  }

  /** Every character a greedy run consumes is in its class. */
  lemma {:induction false} RunChars(cls: CharClass, s: string)
    ensures forall k :: 0 <= k < Run(cls, s) ==> In(cls, s[k])
  {
    if s != [] && In(cls, s[0]) {
      RunChars(cls, s[1..]);
      forall k | 1 <= k < Run(cls, s) ensures In(cls, s[k]) {
        assert s[k] == s[1..][k - 1];
      }
    }
  }

  /** A greedy run stops exactly at the end of a prefix made of `cls` characters. */
  lemma {:induction false} RunOfPrefix(cls: CharClass, a: string, b: string)
    requires forall k :: 0 <= k < |a| ==> In(cls, a[k])
    requires b == [] || !In(cls, b[0])
    ensures Run(cls, a + b) == |a|
  {
    if a != [] {
      assert (a + b)[1..] == a[1..] + b;
      RunOfPrefix(cls, a[1..], b);
    }
  }

  /** The maximal runs of `cls` characters, left to right: `re.findall(r"\S+", s)` and
      `s.split()` for NonSpace, `re.findall(r"\w+", s)` for Word. */
  function Tokens(cls: CharClass, s: string): (ts: seq<string>)
    ensures forall i :: 0 <= i < |ts| ==> |ts[i]| > 0
    ensures forall i, k :: 0 <= i < |ts| && 0 <= k < |ts[i]| ==> In(cls, ts[i][k])
    decreases |s|
  {
    if s == [] then []
    else if !In(cls, s[0]) then Tokens(cls, s[1..])
    else
      var n := Run(cls, s);
      RunChars(cls, s);
      [s[..n]] + Tokens(cls, s[n..])
  }

  /** `" ".join(ts)`. */
  function JoinSpaces(ts: seq<string>): string {
    if |ts| == 0 then ""
    else if |ts| == 1 then ts[0]
    else ts[0] + " " + JoinSpaces(ts[1..])
  }

  /** Splitting undoes joining with single spaces when no word is empty or holds whitespace. */
  lemma {:induction false} TokensOfJoin(ts: seq<string>)
    requires forall i :: 0 <= i < |ts| ==> |ts[i]| > 0
    requires forall i, k :: 0 <= i < |ts| && 0 <= k < |ts[i]| ==> !IsSpace(ts[i][k])
    ensures Tokens(NonSpace, JoinSpaces(ts)) == ts
  {
    if |ts| == 1 {
      RunOfPrefix(NonSpace, ts[0], []);
      assert ts[0] + [] == ts[0];
      assert ts[0][|ts[0]|..] == [];
    } else if |ts| > 1 {
      var rest := JoinSpaces(ts[1..]);
      var s := ts[0] + " " + rest;
      assert s == ts[0] + (" " + rest);
      RunOfPrefix(NonSpace, ts[0], " " + rest);
      assert s[..|ts[0]|] == ts[0];
      assert s[|ts[0]|..] == " " + rest;
      assert (" " + rest)[1..] == rest;
      TokensOfJoin(ts[1..]);
    }
  }

  /** `s.rstrip(" ")`: only trailing spaces are removed. */
  function RStripSpaces(s: string): (r: string)
    ensures r <= s
    ensures r == [] || r[|r| - 1] != ' '
    ensures forall k :: |r| <= k < |s| ==> s[k] == ' '
  {
    if s != [] && s[|s| - 1] == ' ' then RStripSpaces(s[..|s| - 1]) else s
  }

  /** `s.lstrip()`: leading whitespace removed. */
  function StripLeft(s: string): (r: string)
    ensures |r| <= |s| && r == s[|s| - |r|..]
    ensures r == [] || !IsSpace(r[0])
    ensures forall k :: 0 <= k < |s| - |r| ==> IsSpace(s[k])
  {
    if s != [] && IsSpace(s[0]) then StripLeft(s[1..]) else s
  }

  /** `s.rstrip()`: trailing whitespace removed. */
  function StripRight(s: string): (r: string)
    ensures r <= s
    ensures r == [] || !IsSpace(r[|r| - 1])
    ensures forall k :: |r| <= k < |s| ==> IsSpace(s[k])
  {
    if s != [] && IsSpace(s[|s| - 1]) then StripRight(s[..|s| - 1]) else s
  }

  /** `s.strip()`. */
  function Strip(s: string): string {
    StripLeft(StripRight(s))
  }

  /** Text that neither starts nor ends with whitespace is left alone by `strip()`. */
  lemma StripUnspaced(s: string)
    requires s == [] || (!IsSpace(s[0]) && !IsSpace(s[|s| - 1]))
    ensures Strip(s) == s
  {
  }

  predicate StartsWith(s: string, p: string) {
    |p| <= |s| && s[..|p|] == p
  }

  /** `p in s` for strings. */
  predicate Contains(s: string, p: string)
    decreases |s|
  {
    StartsWith(s, p) || (s != [] && Contains(s[1..], p))
  }

  /** A text shorter than `p` does not contain it. */
  lemma {:induction false} ShortNotContains(s: string, p: string)
    requires |s| < |p|
    ensures !Contains(s, p)
    decreases |s|
  {
    if s != [] {
      ShortNotContains(s[1..], p);
    }
  }

  /** `s.replace(p, r)`: every non-overlapping occurrence of `p`, scanning left to right. */
  function Replace(s: string, p: string, r: string): string
    requires p != []
    decreases |s|
  {
    if |s| < |p| then s
    else if s[..|p|] == p then r + Replace(s[|p|..], p, r)
    else [s[0]] + Replace(s[1..], p, r)
  }

  /** Replacing a pattern that does not occur changes nothing. */
  lemma {:induction false} ReplaceAbsent(s: string, p: string, r: string)
    requires p != [] && !Contains(s, p)
    ensures Replace(s, p, r) == s
  {
    if |s| >= |p| {
      ReplaceAbsent(s[1..], p, r);
      assert [s[0]] + s[1..] == s;
    }
  }

  /** A pattern that starts with a space, appended to text without spaces, is the only
      occurrence and is replaced as a suffix. */
  lemma {:induction false} ReplaceSuffix(x: string, p: string, r: string)
    requires p != [] && p[0] == ' '
    requires forall k :: 0 <= k < |x| ==> x[k] != ' '
    ensures Replace(x + p, p, r) == x + r
  {
    if x == [] {
      assert x + p == p;
      assert p[|p|..] == [];
      assert Replace([], p, r) == [];
      assert r + [] == r;
    } else {
      var s := x + p;
      assert s[0] == x[0] && s[0] != p[0];
      assert s[..|p|] != p;
      assert s[1..] == x[1..] + p;
      ReplaceSuffix(x[1..], p, r);
      assert [x[0]] + (x[1..] + r) == x + r;
    }
  }

  /** `c.upper()` for a Latin-1 character (full Unicode case mapping: `ß` becomes `SS`,
      `ÿ` and `µ` leave the Latin-1 range). */
  function UpperChar(c: char): string {
    if 'a' <= c <= 'z' then [(c as int - 32) as char]
    else if c == '\U{DF}' then "SS"
    else if '\U{E0}' <= c <= '\U{FE}' && c != '\U{F7}' then [(c as int - 32) as char]
    else if c == '\U{FF}' then ['\U{178}']
    else if c == '\U{B5}' then ['\U{39C}']
    else [c]
  }

  /** `s.upper()`. */
  function Upper(s: string): string {
    if s == [] then [] else UpperChar(s[0]) + Upper(s[1..])
  }

  predicate IsUpperAlnum(s: string) {
    forall k :: 0 <= k < |s| ==> ('A' <= s[k] <= 'Z' || IsDecimal(s[k]))
  }

  /** Upper-casing leaves upper-case ASCII letters and digits alone. */
  lemma {:induction false} UpperFixesUpperAlnum(s: string)
    requires IsUpperAlnum(s)
    ensures Upper(s) == s
  {
    if s != [] {
      UpperFixesUpperAlnum(s[1..]);
      assert [s[0]] + s[1..] == s;
    }
  }

  /** Upper-casing only yields upper-case ASCII letters and digits from ASCII letters and
      digits: every other Latin-1 character stays outside that set (or, for `ß`, becomes `SS`). */
  lemma {:induction false} UpperAlnumSource(s: string)
    requires IsUpperAlnum(Upper(s))
    requires forall k :: 0 <= k < |s| ==> s[k] <= '\U{FF}' && s[k] != '\U{DF}'
    ensures forall k :: 0 <= k < |s| ==> ('a' <= s[k] <= 'z' || 'A' <= s[k] <= 'Z' || IsDecimal(s[k]))
    ensures |Upper(s)| == |s|
  {
    if s != [] {
      var u := UpperChar(s[0]);
      assert |u| == 1;
      assert Upper(s) == u + Upper(s[1..]);
      assert Upper(s)[0] == u[0];
      forall k | 0 <= k < |Upper(s[1..])|
        ensures 'A' <= Upper(s[1..])[k] <= 'Z' || IsDecimal(Upper(s[1..])[k])
      {
        assert Upper(s[1..])[k] == Upper(s)[k + 1];
      }
      UpperAlnumSource(s[1..]);
      forall k | 0 <= k < |s|
        ensures 'a' <= s[k] <= 'z' || 'A' <= s[k] <= 'Z' || IsDecimal(s[k])
      {
        if k > 0 {
          assert s[k] == s[1..][k - 1];
        }
      }
    }
  }
}
