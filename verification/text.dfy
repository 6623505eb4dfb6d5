/** Optional values, used wherever the program returns None or an error sentinel. */
module Options {

  datatype Option<+T> = None | Some(value: T)

  /** The values of the present entries, in order (a comprehension that
      drops `None`). */
  function Somes<T>(os: seq<Option<T>>): (r: seq<T>)
    ensures |r| <= |os|
  {
    if os == [] then []
    else (if os[0].Some? then [os[0].value] else []) + Somes(os[1..])
  }

  /** The indices of the present entries from `from` on, in increasing order. */
  function SomeIndices<T>(os: seq<Option<T>>, from: nat): (js: seq<nat>)
    requires from <= |os|
    ensures |js| <= |os| - from
    ensures forall k :: 0 <= k < |js| ==> from <= js[k] < |os| && os[js[k]].Some?
    ensures forall k, m :: 0 <= k < m < |js| ==> js[k] < js[m]
    decreases |os| - from
  {
    if from == |os| then []
    else
      var rest := SomeIndices(os, from + 1);
      if os[from].Some? then [from] + rest else rest
  }

  /** Every present entry from `from` on is listed. */
  lemma {:induction false} SomeIndicesComplete<T>(os: seq<Option<T>>, from: nat, j: nat)
    requires from <= j < |os| && os[j].Some?
    ensures j in SomeIndices(os, from)
    decreases j - from
  {
    if from < j {
      SomeIndicesComplete(os, from + 1, j);
    }
  }

  /** The k-th present value sits at the k-th present index. */
  lemma {:induction false} SomesAt<T>(os: seq<Option<T>>, from: nat)
    requires from <= |os|
    ensures |Somes(os[from..])| == |SomeIndices(os, from)|
    ensures forall k :: 0 <= k < |SomeIndices(os, from)| ==> os[SomeIndices(os, from)[k]] == Some(Somes(os[from..])[k])
    decreases |os| - from
  {
    if from < |os| {
      SomesAt(os, from + 1);
      var js, vs := SomeIndices(os, from + 1), Somes(os[from + 1..]);
      var all, vals := SomeIndices(os, from), Somes(os[from..]);
      assert os[from..][1..] == os[from + 1..];
      if os[from].Some? {
        assert all == [from] + js;
        assert vals == [os[from].value] + vs;
        forall k | 0 <= k < |all| ensures os[all[k]] == Some(vals[k]) {
          if k > 0 {
            assert all[k] == js[k - 1] && vals[k] == vs[k - 1];
          }
        }
      } else {
        assert all == js;
        assert vals == vs;
      }
    }
  }
}

/**
 String helpers with the semantics of the Python string operations the
 program relies on: `str.strip`, `str.split(sep)`, `sep.join`, `int()`,
 decimal formatting and `str.lower`.
 */
module Text {
  import opened Options

  /** The code points for which Python's `str.isspace()` holds; `str.strip()`
      and the regex class `\s` remove exactly these. */
  predicate IsSpace(c: char) {
    || c == ' '
    || '\t' <= c <= '\r'
    || '\U{1c}' <= c <= '\U{1f}'
    || c == '\U{85}' || c == '\U{a0}' || c == '\U{1680}'
    || '\U{2000}' <= c <= '\U{200a}'
    || c == '\U{2028}' || c == '\U{2029}' || c == '\U{202f}'
    || c == '\U{205f}' || c == '\U{3000}'
  }

  predicate NoSpaceAtEnds(s: string) {
    s == [] || (!IsSpace(s[0]) && !IsSpace(s[|s| - 1]))
  }

  /** `s.lstrip()`: the suffix left after removing the leading whitespace. */
  function LStrip(s: string): (r: string)
    ensures r == s || (|r| < |s| && r == s[|s| - |r|..])
    ensures r == [] || !IsSpace(r[0])
  {
    if s != [] && IsSpace(s[0]) then LStrip(s[1..]) else s
  }

  /** `s.rstrip()`: the prefix left after removing the trailing whitespace. */
  function RStrip(s: string): (r: string)
    ensures r == s || (|r| < |s| && r == s[..|r|])
    ensures r == [] || !IsSpace(r[|r| - 1])
  {
    if s != [] && IsSpace(s[|s| - 1]) then RStrip(s[..|s| - 1]) else s
  }

  /** `s.strip()`. */
  function Strip(s: string): (r: string)
    ensures NoSpaceAtEnds(r)
    ensures |r| <= |s|
  {
    var l := LStrip(s);
    var r := RStrip(l);
    assert r != [] ==> r[0] == l[0];
    r
  }

  /** Stripping empties exactly the all-whitespace strings. */
  lemma StripBlank(s: string)
    ensures Strip(s) == [] <==> forall i :: 0 <= i < |s| ==> IsSpace(s[i])
  {
    var l := LStrip(s);
    LStripDropsSpace(s);
    RStripDropsSpace(l);
    assert RStrip(l) == [] ==> l == [];
  }

  /** What `rstrip` removes is whitespace. */
  lemma {:induction false} RStripDropsSpace(s: string)
    ensures forall i :: |RStrip(s)| <= i < |s| ==> IsSpace(s[i])
    decreases |s|
  {
    if s != [] && IsSpace(s[|s| - 1]) {
      RStripDropsSpace(s[..|s| - 1]);
    }
  }

  /** What `lstrip` removes is whitespace. */
  lemma {:induction false} LStripDropsSpace(s: string)
    ensures forall i :: 0 <= i < |s| - |LStrip(s)| ==> IsSpace(s[i])
    decreases |s|
  {
    if s != [] && IsSpace(s[0]) {
      LStripDropsSpace(s[1..]);
    }
  }

  lemma StripKeepsTrimmed(s: string)
    requires NoSpaceAtEnds(s)
    ensures Strip(s) == s
  {
  }

  /** Stripping only trims: a string whose first and last characters are not
      whitespace is returned intact, even when followed by more text. */
  lemma StripPrefixKept(a: string, b: string)
    requires a != [] && NoSpaceAtEnds(a)
    ensures |a| <= |Strip(a + b)| && Strip(a + b)[..|a|] == a
    ensures Strip(a + b) <= a + b
  {
    var s := a + b;
    assert s[0] == a[0];
    assert LStrip(s) == s;
    var r := RStrip(s);
    RStripDropsSpace(s);
    assert s[|a| - 1] == a[|a| - 1];
    assert !IsSpace(s[|a| - 1]);
  }

  /** The stripped, non-blank lines, as `l.strip() for l in lines if l.strip()`. */
  function NonBlankStripped(lines: seq<string>): (r: seq<string>)
    ensures |r| <= |lines|
    ensures forall i :: 0 <= i < |r| ==> r[i] != [] && NoSpaceAtEnds(r[i])
  {
    if lines == [] then []
    else (if Strip(lines[0]) != [] then [Strip(lines[0])] else []) + NonBlankStripped(lines[1..])
  }

  /** Index of the first `c` in `s`, or `|s|` when there is none. */
  function IndexOf(s: string, c: char): (r: nat)
    ensures r <= |s|
    ensures r < |s| ==> s[r] == c
    ensures forall j :: 0 <= j < r ==> s[j] != c
  {
    if s == [] then 0
    else if s[0] == c then 0
    else 1 + IndexOf(s[1..], c)
  }

  /** `sep.join(parts)`. */
  function Join(parts: seq<string>, sep: string): string {
    if |parts| == 0 then ""
    else if |parts| == 1 then parts[0]
    else parts[0] + sep + Join(parts[1..], sep)
  }

  /** `s.split(sep)` for a one-character separator: never empty, no part holds
      the separator, and joining the parts back gives `s`. */
  function Split(s: string, sep: char): (parts: seq<string>)
    ensures |parts| >= 1
    ensures forall i :: 0 <= i < |parts| ==> sep !in parts[i]
    ensures Join(parts, [sep]) == s
    decreases |s|
  {
    var i := IndexOf(s, sep);
    if i == |s| then
      assert s[..i] == s;
      [s]
    else
      var rest := Split(s[i + 1..], sep);
      assert s == s[..i] + [sep] + s[i + 1..];
      [s[..i]] + rest
  }

  /** Splitting a join of separator-free parts gives the parts back. */
  lemma {:induction false} SplitJoin(parts: seq<string>, sep: char)
    requires |parts| >= 1
    requires forall i :: 0 <= i < |parts| ==> sep !in parts[i]
    ensures Split(Join(parts, [sep]), sep) == parts
    decreases |parts|
  {
    if |parts| == 1 {
    } else {
      var s := Join(parts, [sep]);
      var tail := Join(parts[1..], [sep]);
      assert Split(s, sep) == [parts[0]] + Split(tail, sep) by {
        assert s == parts[0] + [sep] + tail;
        IndexOfAfter(parts[0], sep, tail);
        assert s[..|parts[0]|] == parts[0];
        assert s[|parts[0]| + 1..] == tail;
      }
      SplitJoin(parts[1..], sep);
      assert parts == [parts[0]] + parts[1..];
    }
  }

  lemma IndexOfAfter(a: string, c: char, b: string)
    requires c !in a
    ensures IndexOf(a + [c] + b, c) == |a|
  {
    var s := a + [c] + b;
    assert forall j :: 0 <= j < |a| ==> s[j] == a[j];
    assert s[|a|] == c;
  }

  predicate IsDigit(c: char) {
    '0' <= c <= '9'
  }

  predicate AllDigits(s: string) {
    forall i :: 0 <= i < |s| ==> IsDigit(s[i])
  }

  function DigitValue(c: char): nat
    requires IsDigit(c)
  {
    c as int - '0' as int
  }

  function DigitChar(d: nat): (c: char)
    requires d < 10
    ensures IsDigit(c) && DigitValue(c) == d
  {
    ('0' as int + d) as char
  }

  /** Value of a string of decimal digits, most significant first. */
  function DecimalValue(ds: string): nat
    requires AllDigits(ds)
  {
    if ds == [] then 0
    else DecimalValue(ds[..|ds| - 1]) * 10 + DigitValue(ds[|ds| - 1])
  }

  /** Decimal digits have value below 10^|ds|. */
  lemma {:induction false} DecimalValueBound(ds: string)
    requires AllDigits(ds)
    ensures DecimalValue(ds) < Pow10(|ds|)
    decreases |ds|
  {
    if ds != [] {
      DecimalValueBound(ds[..|ds| - 1]);
    }
  }

  function Pow10(n: nat): (r: nat)
    ensures r >= 1
  {
    if n == 0 then 1 else 10 * Pow10(n - 1)
  }

  /** `str(n)` for a non-negative integer. */
  function NatToString(n: nat): (s: string)
    ensures |s| >= 1 && AllDigits(s)
    ensures s[0] == '0' ==> n == 0
  {
    if n < 10 then [DigitChar(n)]
    else NatToString(n / 10) + [DigitChar(n % 10)]
  }

  /** Reading back the digits `str(n)` wrote gives `n`. */
  lemma {:induction false} NatToStringValue(n: nat)
    ensures DecimalValue(NatToString(n)) == n
  {
    if n >= 10 {
      var s := NatToString(n);
      assert s[..|s| - 1] == NatToString(n / 10);
      NatToStringValue(n / 10);
    }
  }

  /** `f"{n:02d}"`: at least two digits, zero-padded on the left. */
  function ZeroPad2(n: nat): (s: string)
    ensures |s| >= 2 && AllDigits(s)
    ensures n < 100 ==> |s| == 2
    ensures DecimalValue(s) == n
  {
    NatToStringValue(n);
    if n < 10 then
      var s := "0" + NatToString(n);
      assert s[..1] == "0";
      s
    else
      NatToString(n)
  }

  /** Python `int(s)` on a string: surrounding whitespace, an optional sign,
      then ASCII digits in groups separated by single underscores. */
  function ParseInt(s: string): Option<int> {
    ParseSigned(Strip(s))
  }

  /** An optional sign followed by an underscore-grouped run of digits. */
  function ParseSigned(t: string): Option<int> {
    if t == [] then None
    else
      var negative := t[0] == '-';
      var body := if t[0] == '-' || t[0] == '+' then t[1..] else t;
      match ParseDigitGroups(body)
      case Some(v) => Some(if negative then 0 - v else v as int)
      case None => None
  }

  /** Digits in groups separated by single underscores, as `int()` accepts. */
  predicate IsUnderscoreGrouped(s: string)
    decreases |s|
  {
    && s != [] && IsDigit(s[0])
    && (|s| == 1
        || (s[1] == '_' && |s| >= 3 && IsDigit(s[2]) && IsUnderscoreGrouped(s[2..]))
        || (s[1] != '_' && IsUnderscoreGrouped(s[1..])))
  }

  /** The digits of an underscore-grouped literal, underscores removed. */
  function GroupDigits(s: string): (r: string)
    requires IsUnderscoreGrouped(s)
    ensures AllDigits(r) && |r| >= 1
    decreases |s|
  {
    if |s| == 1 then s
    else if s[1] == '_' then [s[0]] + GroupDigits(s[2..])
    else [s[0]] + GroupDigits(s[1..])
  }

  function ParseDigitGroups(s: string): (r: Option<nat>)
    ensures r.Some? <==> IsUnderscoreGrouped(s)
  {
    if IsUnderscoreGrouped(s) then Some(DecimalValue(GroupDigits(s))) else None
  }

  /** A plain run of digits is a valid literal whose digits are itself. */
  lemma {:induction false} DigitsAreGrouped(s: string)
    requires s != [] && AllDigits(s)
    ensures IsUnderscoreGrouped(s) && GroupDigits(s) == s
    decreases |s|
  {
    if |s| > 1 {
      DigitsAreGrouped(s[1..]);
    }
  }

  /** `int(str(n))` and `int("-" + str(n))` give back `n` and `-n`. */
  lemma ParseIntOfNatToString(n: nat)
    ensures ParseInt(NatToString(n)) == Some(n)
    ensures ParseInt("-" + NatToString(n)) == Some(-(n as int))
  {
    var s := NatToString(n);
    NatToStringValue(n);
    ParseIntUnsigned(s);
    ParseIntNegated(s);
  }

  lemma ParseIntUnsigned(s: string)
    requires s != [] && AllDigits(s)
    ensures ParseInt(s) == Some(DecimalValue(s) as int)
  {
    StripKeepsTrimmed(s);
    DigitsAreGrouped(s);
  }

  lemma ParseIntNegated(s: string)
    requires s != [] && AllDigits(s)
    ensures ParseInt("-" + s) == Some(-(DecimalValue(s) as int))
  {
    var m := "-" + s;
    NegatedTrimmed(s);
    StripKeepsTrimmed(m);
    assert ParseInt(m) == ParseSigned(m);
    DigitsAreGrouped(s);
    SignedMinus(s, DecimalValue(s));
  }

  lemma SignedMinus(s: string, v: nat)
    requires ParseDigitGroups(s) == Some(v)
    ensures ParseSigned("-" + s) == Some(-(v as int))
  {
    var m := "-" + s;
    assert m[1..] == s;
  }

  lemma NegatedTrimmed(s: string)
    requires s != [] && AllDigits(s)
    ensures NoSpaceAtEnds("-" + s)
  {
    var m := "-" + s;
    assert m[|m| - 1] == s[|s| - 1];
    assert IsDigit(s[|s| - 1]);
  }

  /** ASCII upper-case letters to lower case; everything else unchanged. */
  function LowerChar(c: char): char {
    if 'A' <= c <= 'Z' then (c as int + 32) as char else c
  }

  /** `s.lower()`, restricted to ASCII letters. */
  function Lower(s: string): (r: string)
    ensures |r| == |s|
    ensures forall i :: 0 <= i < |s| ==> r[i] == LowerChar(s[i])
  {
    if s == [] then "" else [LowerChar(s[0])] + Lower(s[1..])
  }

  /** `needle in hay` for strings: some slice of `hay` equals `needle`. */
  predicate Contains(hay: string, needle: string)
    decreases |hay|
  {
    needle <= hay || (hay != [] && Contains(hay[1..], needle))
  }

  lemma {:induction false} ContainsAt(hay: string, needle: string, i: nat)
    requires i + |needle| <= |hay| && hay[i..i + |needle|] == needle
    ensures Contains(hay, needle)
    decreases i
  {
    if i > 0 {
      assert hay[1..][i - 1..i - 1 + |needle|] == needle;
      ContainsAt(hay[1..], needle, i - 1);
    }
  }

  lemma {:induction false} ContainsWitness(hay: string, needle: string) returns (i: nat)
    requires Contains(hay, needle)
    ensures i + |needle| <= |hay| && hay[i..i + |needle|] == needle
    decreases |hay|
  {
    if needle <= hay {
      i := 0;
    } else {
      var j := ContainsWitness(hay[1..], needle);
      i := j + 1;
      assert hay[i..i + |needle|] == hay[1..][j..j + |needle|];
    }
  }

  /** Every string contains the empty string. */
  lemma ContainsEmpty(hay: string)
    ensures Contains(hay, "")
  {
  }

  /** A string that contains `needle + more` contains `needle`. */
  lemma ContainsPrefixOfNeedle(hay: string, needle: string, more: string)
    requires Contains(hay, needle + more)
    ensures Contains(hay, needle)
  {
    var i := ContainsWitness(hay, needle + more);
    assert hay[i..i + |needle|] == (needle + more)[..|needle|];
    ContainsAt(hay, needle, i);
  }

  /** Occurrences of `c` in `s`. */
  function Count(s: string, c: char): (n: nat)
    ensures n <= |s|
    ensures n == 0 <==> c !in s
  {
    if s == [] then 0 else (if s[0] == c then 1 else 0) + Count(s[1..], c)
  }
}
