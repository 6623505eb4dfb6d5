/**
 The lyric timeline: SRT and LRC text parsed into `LyricLine`s, and the
 lookup of the line active at a playback position plus an offset.

 The two timestamp regular expressions of the parser are written as
 hand-made scanners with the same greedy, backtracking semantics:
 an SRT timestamp is `(\d{1,2}):(\d{2}):(\d{2})[,.](\d{1,3})` matched at the
 start of the string only, and an LRC tag is
 `\[(\d{1,2}):(\d{2})(?:[.:](\d{1,3}))?\]`.
 */
module Lyrics {
  import opened Options
  import opened Text
  import Sorting

  datatype LyricLine = LyricLine(index: int, startMs: int, endMs: int, text: string)

  /** A line is active at time `t` when `t` falls in its half-open interval. */
  predicate Active(line: LyricLine, t: int) {
    line.startMs <= t < line.endMs
  }

  // ---------------------------------------------------------------------
  // SRT timestamps
  // ---------------------------------------------------------------------

  predicate DigitsIn(t: string, lo: nat, hi: nat)
    requires lo <= hi <= |t|
  {
    forall i :: lo <= i < hi ==> IsDigit(t[i])
  }

  /** The SRT timestamp pattern matches at the start of `t` with `hl` hour
      digits and `fl` fraction digits (the fraction is greedy, so fewer than
      three digits are only taken when no further digit follows). */
  predicate SrtStampShape(t: string, hl: nat, fl: nat) {
    && 1 <= hl <= 2 && 1 <= fl <= 3 && hl + 7 + fl <= |t|
    && DigitsIn(t, 0, hl) && t[hl] == ':'
    && DigitsIn(t, hl + 1, hl + 3) && t[hl + 3] == ':'
    && DigitsIn(t, hl + 4, hl + 6) && (t[hl + 6] == ',' || t[hl + 6] == '.')
    && DigitsIn(t, hl + 7, hl + 7 + fl)
    && (fl == 3 || hl + 7 + fl == |t| || !IsDigit(t[hl + 7 + fl]))
  }

  ghost predicate StartsWithSrtStamp(t: string) {
    exists hl: nat, fl: nat :: SrtStampShape(t, hl, fl)
  }

  /** A fraction of one to three digits, right-padded with zeros to milliseconds. */
  function FracMillis(ds: string): (ms: nat)
    requires 1 <= |ds| <= 3 && AllDigits(ds)
    ensures ms < 1000
  {
    DecimalValueBound(ds);
    DecimalValue(ds) * (if |ds| == 1 then 100 else if |ds| == 2 then 10 else 1)
  }

  function StampValue(t: string, hl: nat, fl: nat): nat
    requires SrtStampShape(t, hl, fl)
  {
    DecimalValue(t[..hl]) * 3600000
    + DecimalValue(t[hl + 1..hl + 3]) * 60000
    + DecimalValue(t[hl + 4..hl + 6]) * 1000
    + FracMillis(t[hl + 7..hl + 7 + fl])
  }

  /** Number of leading digits of `s`, at most `max`. */
  function LeadingDigits(s: string, max: nat): (n: nat)
    ensures n <= max && n <= |s|
    ensures forall i :: 0 <= i < n ==> IsDigit(s[i])
    ensures n < max && n < |s| ==> !IsDigit(s[n])
  {
    if max == 0 || s == [] || !IsDigit(s[0]) then 0
    else 1 + LeadingDigits(s[1..], max - 1)
  }

  /** Hour digits before the first ':' (one or two), or 0 when there are none. */
  function HourDigits(t: string, from: nat): (hl: nat)
    ensures hl <= 2
  {
    if from + 3 <= |t| && IsDigit(t[from]) && IsDigit(t[from + 1]) && t[from + 2] == ':' then 2
    else if from + 2 <= |t| && IsDigit(t[from]) && t[from + 1] == ':' then 1
    else 0
  }

  /** The scanner's acceptance test: hour digits, then the rest of the
      fixed layout, with at least one fraction digit. */
  predicate ScannerAccepts(t: string) {
    var hl := HourDigits(t, 0);
    && hl != 0 && hl + 8 <= |t| && DigitsIn(t, hl + 1, hl + 3) && t[hl + 3] == ':'
    && DigitsIn(t, hl + 4, hl + 6) && (t[hl + 6] == ',' || t[hl + 6] == '.')
    && IsDigit(t[hl + 7])
  }

  /** The regex match of an SRT timestamp at the start of `t`. */
  function ScanSrtStamp(t: string): (r: Option<nat>)
    ensures r.Some? <==> StartsWithSrtStamp(t)
    ensures forall hl: nat, fl: nat :: SrtStampShape(t, hl, fl) ==> r == Some(StampValue(t, hl, fl))
  {
    ShapesDetermined(t);
    if !ScannerAccepts(t) then None
    else
      var hl := HourDigits(t, 0);
      var fl := LeadingDigits(t[hl + 7..], 3);
      assert SrtStampShape(t, hl, fl);
      Some(StampValue(t, hl, fl))
  }

  /** A match fixes its hour and fraction widths: they are the ones the
      scanner reads, so the regex and the scanner agree. */
  lemma ShapesDetermined(t: string)
    ensures forall hl: nat, fl: nat :: SrtStampShape(t, hl, fl) ==>
      && ScannerAccepts(t) && hl == HourDigits(t, 0) && fl == LeadingDigits(t[hl + 7..], 3)
  {
    forall hl: nat, fl: nat | SrtStampShape(t, hl, fl)
      ensures ScannerAccepts(t) && hl == HourDigits(t, 0) && fl == LeadingDigits(t[hl + 7..], 3)
    {
      assert IsDigit(t[0]);
      assert hl == 1 ==> t[1] == ':';
      assert hl == HourDigits(t, 0);
      var u := t[hl + 7..];
      assert forall i :: 0 <= i < fl ==> IsDigit(u[i]);
      assert fl < 3 && fl < |u| ==> !IsDigit(u[fl]);
    }
  }

  /** `_parse_timestamp`: milliseconds of the stripped string's leading SRT
      timestamp, or 0 when it does not start with one. */
  function ParseTimestamp(ts: string): (ms: nat)
    ensures !StartsWithSrtStamp(Strip(ts)) ==> ms == 0
    ensures forall hl: nat, fl: nat :: SrtStampShape(Strip(ts), hl, fl) ==> ms == StampValue(Strip(ts), hl, fl)
  {
    match ScanSrtStamp(Strip(ts))
    case Some(v) => v
    case None => 0
  }

  /** Writes `ms` as `HH:MM:SS,mmm`, the form SRT files use. */
  function FormatStamp(ms: nat): (s: string)
    requires ms < 100 * 3600000
    ensures |s| == 12
  {
    ZeroPad2(ms / 3600000) + ":" + ZeroPad2(ms / 60000 % 60) + ":"
    + ZeroPad2(ms / 1000 % 60) + "," + Pad3(ms % 1000)
  }

  function Pad3(n: nat): (s: string)
    requires n < 1000
    ensures |s| == 3 && AllDigits(s) && DecimalValue(s) == n
  {
    var s := [DigitChar(n / 100), DigitChar(n / 10 % 10), DigitChar(n % 10)];
    assert s[..2][..1] == s[..1] == [s[0]];
    assert DecimalValue(s[..1]) == n / 100;
    assert DecimalValue(s[..2]) == n / 100 * 10 + n / 10 % 10;
    assert n / 10 == n / 100 * 10 + n / 10 % 10;
    s
  }

  lemma MillisSplit(ms: nat)
    ensures (ms / 3600000) * 3600000 + (ms / 60000 % 60) * 60000 + (ms / 1000 % 60) * 1000 + ms % 1000 == ms
  {
    var s := ms / 1000;
    var m := s / 60;
    assert ms == s * 1000 + ms % 1000;
    assert s == m * 60 + s % 60;
    assert m == m / 60 * 60 + m % 60;
    assert ms / 60000 == m;
    assert ms / 3600000 == m / 60;
  }

  /** The formatted timestamp is itself a match of the SRT pattern with
      two hour digits and three fraction digits, worth `ms`. */
  lemma FormatStampShape(ms: nat)
    requires ms < 100 * 3600000
    ensures SrtStampShape(FormatStamp(ms), 2, 3)
    ensures StampValue(FormatStamp(ms), 2, 3) == ms
  {
    var f := FormatStamp(ms);
    StampFields(ZeroPad2(ms / 3600000), ZeroPad2(ms / 60000 % 60), ZeroPad2(ms / 1000 % 60), Pad3(ms % 1000));
    FullStampLayout(f);
    MillisSplit(ms);
  }

  /** Where the four fields of `HH:MM:SS,mmm` sit. */
  lemma StampFields(h: string, m: string, sec: string, frac: string)
    requires |h| == 2 && |m| == 2 && |sec| == 2 && |frac| == 3
    ensures var f := h + ":" + m + ":" + sec + "," + frac;
      && |f| == 12 && f[2] == ':' && f[5] == ':' && f[8] == ','
      && f[..2] == h && f[3..5] == m && f[6..8] == sec && f[9..12] == frac
  {
    var f2 := h + ":" + m;
    var f4 := f2 + ":" + sec;
    var f := f4 + "," + frac;
    assert f[..5] == f2 && f[..8] == f4;
    assert f[..2] == f2[..2] == h;
    assert f[3..5] == f2[3..5] == m;
    assert f[6..8] == f4[6..8] == sec;
  }

  /** `HH:MM:SS,mmm` with all twelve places filled matches with widths 2 and 3. */
  lemma FullStampLayout(f: string)
    requires |f| == 12 && f[2] == ':' && f[5] == ':' && f[8] == ','
    requires AllDigits(f[..2]) && AllDigits(f[3..5]) && AllDigits(f[6..8]) && AllDigits(f[9..12])
    ensures SrtStampShape(f, 2, 3)
    ensures StampValue(f, 2, 3) == DecimalValue(f[..2]) * 3600000 + DecimalValue(f[3..5]) * 60000
      + DecimalValue(f[6..8]) * 1000 + DecimalValue(f[9..12])
  {
    assert forall i :: 0 <= i < 2 ==> f[..2][i] == f[i] && f[3..5][i] == f[3 + i] && f[6..8][i] == f[6 + i];
    assert forall i :: 0 <= i < 3 ==> f[9..12][i] == f[9 + i];
  }

  /** A match ending within a prefix is a match of the whole string, with the same value. */
  lemma ShapeOfPrefix(f: string, t: string)
    requires f <= t && SrtStampShape(f, 2, 3)
    ensures SrtStampShape(t, 2, 3) && StampValue(t, 2, 3) == StampValue(f, 2, 3)
  {
    assert t[..2] == f[..2] && t[3..5] == f[3..5] && t[6..8] == f[6..8] && t[9..12] == f[9..12];
  }

  /** Parsing a formatted timestamp gives the milliseconds back, whatever text follows. */
  lemma FormatStampRoundTrip(ms: nat, rest: string)
    requires ms < 100 * 3600000
    ensures ParseTimestamp(FormatStamp(ms) + rest) == ms
  {
    var f := FormatStamp(ms);
    FormatStampShape(ms);
    StampHasNoSpace(ms);
    StripPrefixKept(f, rest);
    var t := Strip(f + rest);
    assert f <= t by { assert t[..12] == f; }
    ShapeOfPrefix(f, t);
  }

  /** The characters a formatted timestamp is made of. */
  predicate StampChar(c: char) {
    IsDigit(c) || c == ':' || c == ','
  }

  lemma StampHasNoSpace(ms: nat)
    requires ms < 100 * 3600000
    ensures '\n' !in FormatStamp(ms) && '\r' !in FormatStamp(ms) && '-' !in FormatStamp(ms)
    ensures NoSpaceAtEnds(FormatStamp(ms))
  {
    StampChars(ms);
    StampCharsPlain(FormatStamp(ms));
  }

  lemma StampCharsPlain(s: string)
    requires s != [] && forall c :: c in s ==> StampChar(c)
    ensures '\n' !in s && '\r' !in s && '-' !in s && NoSpaceAtEnds(s)
  {
    assert StampChar(s[0]) && StampChar(s[|s| - 1]);
  }

  lemma StampChars(ms: nat)
    requires ms < 100 * 3600000
    ensures forall c :: c in FormatStamp(ms) ==> StampChar(c)
  {
    var h := ZeroPad2(ms / 3600000);
    var m := ZeroPad2(ms / 60000 % 60);
    var sec := ZeroPad2(ms / 1000 % 60);
    var frac := Pad3(ms % 1000);
    assert forall c :: c in h || c in m || c in sec || c in frac ==> IsDigit(c);
  }

  /** A short fraction is right-padded with zeros to three digits: `,5` is
      worth what `,500` is, and `,05` what `,050` is. */
  lemma ShortFractionPadded(ds: string)
    requires 1 <= |ds| <= 3 && AllDigits(ds)
    ensures FracMillis(ds) == DecimalValue(ds + seq(3 - |ds|, _ => '0'))
  {
    if |ds| == 1 {
      var a := ds + "0";
      assert ds + seq(2, _ => '0') == a + "0";
      AppendZero(ds);
      AppendZero(a);
    } else if |ds| == 2 {
      assert ds + seq(1, _ => '0') == ds + "0";
      AppendZero(ds);
    } else {
      assert ds + seq(0, _ => '0') == ds;
    }
  }

  /** A trailing zero multiplies the value by ten. */
  lemma AppendZero(ds: string)
    requires AllDigits(ds)
    ensures AllDigits(ds + "0") && DecimalValue(ds + "0") == DecimalValue(ds) * 10
  {
    assert (ds + "0")[..|ds|] == ds;
  }

  /** Every match is at least nine characters long and starts with a digit. */
  lemma NoShapeWithoutLeadingDigit(t: string)
    ensures StartsWithSrtStamp(t) ==> |t| >= 9 && IsDigit(t[0])
  {
    if StartsWithSrtStamp(t) {
      var hl: nat, fl: nat :| SrtStampShape(t, hl, fl);
      assert DigitsIn(t, 0, hl);
    }
  }

  /** Text that does not start with the pattern yields 0: in particular,
      stripped text shorter than the shortest stamp (`h:mm:ss,f`, nine
      characters) or not starting with a digit. */
  lemma NonTimestampIsZero(ts: string)
    requires |Strip(ts)| < 9 || !IsDigit(Strip(ts)[0])
    ensures ParseTimestamp(ts) == 0
  {
    NoShapeWithoutLeadingDigit(Strip(ts));
  }

  // ---------------------------------------------------------------------
  // SRT text structure
  // ---------------------------------------------------------------------

  /** `text.replace("\r\n", "\n")`, scanning left to right. */
  function NormalizeNewlines(s: string): (r: string)
    ensures |r| <= |s|
    ensures '\r' !in s ==> r == s
    decreases |s|
  {
    if s == [] then ""
    else if |s| >= 2 && s[0] == '\r' && s[1] == '\n' then "\n" + NormalizeNewlines(s[2..])
    else [s[0]] + NormalizeNewlines(s[1..])
  }

  predicate HasDoubleNewline(s: string)
    decreases |s|
  {
    |s| >= 2 && ((s[0] == '\n' && s[1] == '\n') || HasDoubleNewline(s[1..]))
  }

  /** Index of the first `\n\n` in `s`, or `|s|` when there is none. */
  function DoubleNewlineAt(s: string): (i: nat)
    ensures i <= |s|
    ensures i < |s| ==> i + 1 < |s| && s[i] == '\n' && s[i + 1] == '\n'
    ensures i == |s| <==> !HasDoubleNewline(s)
    decreases |s|
  {
    if |s| < 2 then |s|
    else if s[0] == '\n' && s[1] == '\n' then 0
    else 1 + DoubleNewlineAt(s[1..])
  }

  /** Length of the run of `\n` at the start of `s`. */
  function NewlineRun(s: string): (n: nat)
    ensures n <= |s|
    ensures forall i :: 0 <= i < n ==> s[i] == '\n'
    ensures n < |s| ==> s[n] != '\n'
  {
    if s == [] || s[0] != '\n' then 0 else 1 + NewlineRun(s[1..])
  }

  /** `re.split(r"\n\n+", s)`: the pieces between runs of two or more newlines. */
  function SplitBlankRuns(s: string): (blocks: seq<string>)
    ensures |blocks| >= 1
    ensures forall i :: 0 <= i < |blocks| ==> !HasDoubleNewline(blocks[i])
    decreases |s|
  {
    var i := DoubleNewlineAt(s);
    if i == |s| then [s]
    else
      var j := i + NewlineRun(s[i..]);
      assert !HasDoubleNewline(s[..i]) by { NoDoubleNewlineBefore(s, i); }
      [s[..i]] + SplitBlankRuns(s[j..])
  }

  lemma {:induction false} NoDoubleNewlineBefore(s: string, i: nat)
    requires i == DoubleNewlineAt(s) && i < |s|
    ensures !HasDoubleNewline(s[..i])
    decreases |s|
  {
    if i > 0 {
      assert s[..i][1..] == s[1..][..i - 1];
      NoDoubleNewlineBefore(s[1..], i - 1);
    }
  }

  /** A piece with no blank line is a single block. */
  lemma {:induction false} DoubleNewlineConcat(a: string, b: string)
    requires !HasDoubleNewline(a) && !HasDoubleNewline(b)
    requires a == [] || b == [] || a[|a| - 1] != '\n' || b[0] != '\n'
    ensures !HasDoubleNewline(a + b)
    decreases |a|
  {
    if a != [] {
      assert (a + b)[1..] == a[1..] + b;
      if |a| >= 2 {
        assert a[1..][|a[1..]| - 1] == a[|a| - 1];
      }
      DoubleNewlineConcat(a[1..], b);
    } else {
      assert a + b == b;
    }
  }

  lemma {:induction false} NoNewlineNoDouble(s: string)
    requires '\n' !in s
    ensures !HasDoubleNewline(s)
  {
    if |s| >= 2 {
      assert s[0] in s && s[1..] <= s[1..];
      assert forall c :: c in s[1..] ==> c in s;
      NoNewlineNoDouble(s[1..]);
    }
  }

  /** Joining blocks with blank lines and splitting again gives the blocks back. */
  lemma {:induction false} SplitBlankRunsJoin(blocks: seq<string>)
    requires |blocks| >= 1
    requires forall i :: 0 <= i < |blocks| ==> ProperBlock(blocks[i])
    ensures SplitBlankRuns(Join(blocks, "\n\n")) == blocks
    decreases |blocks|
  {
    var b := blocks[0];
    if |blocks| == 1 {
      assert DoubleNewlineAt(b) == |b|;
    } else {
      var tail := Join(blocks[1..], "\n\n");
      assert Join(blocks, "\n\n") == b + "\n\n" + tail;
      SplitBlankRunsJoin(blocks[1..]);
      ProperJoinStart(blocks[1..]);
      assert tail[0] == blocks[1][0];
      SplitBlankRunsCons(b, tail);
      HeadTail(blocks);
    }
  }

  /** One blank line after a proper block splits off exactly that block. */
  lemma {:induction false} SplitBlankRunsCons(b: string, tail: string)
    requires b != [] && b[|b| - 1] != '\n' && !HasDoubleNewline(b)
    requires tail != [] && tail[0] != '\n'
    ensures SplitBlankRuns(b + "\n\n" + tail) == [b] + SplitBlankRuns(tail)
  {
    var s := b + "\n\n" + tail;
    DoubleNewlineAfter(b, tail);
    BlankJoinPieces(b, tail);
    assert NewlineRun(s[|b|..]) == 2 by {
      assert s[|b|..][2..] == tail;
    }
  }

  lemma BlankJoinPieces(b: string, tail: string)
    ensures (b + "\n\n" + tail)[..|b|] == b
    ensures (b + "\n\n" + tail)[|b|..] == "\n\n" + tail
    ensures (b + "\n\n" + tail)[|b| + 2..] == tail
  {
  }

  /** A block as the SRT writer lays it out: non-empty, no blank line inside,
      no newline at either end. */
  predicate ProperBlock(b: string) {
    b != [] && b[0] != '\n' && b[|b| - 1] != '\n' && !HasDoubleNewline(b)
  }

  lemma {:induction false} ProperJoinStart(blocks: seq<string>)
    requires |blocks| >= 1
    requires forall i :: 0 <= i < |blocks| ==> ProperBlock(blocks[i])
    ensures blocks[0] <= Join(blocks, "\n\n")
  {
  }

  lemma {:induction false} DoubleNewlineAfter(b: string, tail: string)
    requires b != [] && b[|b| - 1] != '\n' && !HasDoubleNewline(b)
    ensures DoubleNewlineAt(b + "\n\n" + tail) == |b|
    decreases |b|
  {
    var s := b + "\n\n" + tail;
    if |b| == 1 {
      assert s[1..] == "\n\n" + tail;
    } else {
      assert s[1..] == b[1..] + "\n\n" + tail;
      assert !HasDoubleNewline(b[1..]);
      assert !(s[0] == '\n' && s[1] == '\n');
      DoubleNewlineAfter(b[1..], tail);
    }
  }

  /** `s` holds the separator `-->` at index `i`. */
  predicate IsArrowAt(s: string, i: nat) {
    i + 3 <= |s| && s[i] == '-' && s[i + 1] == '-' && s[i + 2] == '>'
  }

  /** Index of the first `-->` in `s`, or `|s|` when there is none. */
  function ArrowAt(s: string): (i: nat)
    ensures i <= |s|
    ensures i < |s| ==> IsArrowAt(s, i)
    decreases |s|
  {
    if |s| < 3 then |s|
    else if IsArrowAt(s, 0) then 0
    else
      var k := ArrowAt(s[1..]);
      if k == |s| - 1 then |s| else 1 + k
  }

  /** `re.split(r"\s*-->\s*", s)`: the whitespace around each separator is
      absorbed by the pattern. */
  function SplitArrow(s: string): (parts: seq<string>)
    ensures |parts| >= 1
    decreases |s|
  {
    var i := ArrowAt(s);
    if i == |s| then [s]
    else [RStrip(s[..i])] + SplitArrow(LStrip(s[i + 3..]))
  }

  /** `re.sub(r"<[^>]+>", "", s)`: each `<`, at least one non-`>` character
      and the next `>` are removed, scanning left to right. */
  function StripTags(s: string): (r: string)
    ensures |r| <= |s|
    ensures '<' !in s ==> r == s
    ensures forall i :: 0 <= i < |r| ==> r[i] in s
    decreases |s|
  {
    if s == [] then ""
    else if s[0] == '<' && |s| >= 2 && s[1] != '>' && '>' in s[2..] then
      StripTags(s[2 + IndexOf(s[2..], '>') + 1..])
    else
      var rest := StripTags(s[1..]);
      assert forall i :: 0 <= i < |rest| ==> rest[i] in s;
      [s[0]] + rest
  }

  /** `s` holds a match of `<[^>]+>`: a `<`, a non-`>` next to it and a `>` later. */
  predicate HasTag(s: string)
    decreases |s|
  {
    |s| >= 2 && ((s[0] == '<' && s[1] != '>' && '>' in s[2..]) || HasTag(s[1..]))
  }

  lemma {:induction false} StripTagsHead(s: string)
    ensures s != [] && s[0] != '<' ==> StripTags(s) != [] && StripTags(s)[0] == s[0]
  {
  }

  /** After tag removal no tag is left, so the displayed text never shows markup. */
  lemma {:induction false} StripTagsLeavesNoTag(s: string)
    ensures !HasTag(StripTags(s))
    decreases |s|
  {
    if s == [] {
    } else if s[0] == '<' && |s| >= 2 && s[1] != '>' && '>' in s[2..] {
      StripTagsLeavesNoTag(s[2 + IndexOf(s[2..], '>') + 1..]);
    } else {
      var rest := StripTags(s[1..]);
      var r := StripTags(s);
      StripTagsLeavesNoTag(s[1..]);
      StripTagsHead(s[1..]);
      assert r == [s[0]] + rest && r[1..] == rest;
      if |r| >= 2 && r[0] == '<' && r[1] != '>' {
        assert s[1] != '>';
        assert '>' !in s[1..] by {
          assert s[1..] == [s[1]] + s[2..];
        }
        assert r[2..] == rest[1..];
        assert forall k :: 0 <= k < |rest| ==> rest[k] != '>';
      }
    }
  }

  /** One SRT block: index line, `start --> end` line, then the subtitle text.
      A block that breaks any of these rules, or whose text is empty, yields nothing. */
  function ParseSrtBlock(block: string): (r: Option<LyricLine>)
    ensures r.Some? ==> r.value.text != [] && !HasTag(r.value.text)
  {
    ParseCueLines(Split(Strip(block), '\n'))
  }

  /** The lines of one block: the index must parse as an integer and the second
      line must split around one arrow into two fields; the remaining lines,
      stripped, non-blank, joined by spaces and untagged, are the text. */
  function ParseCueLines(lines: seq<string>): (r: Option<LyricLine>)
    ensures r.Some? ==> r.value.text != [] && !HasTag(r.value.text)
    ensures r.Some? ==> |lines| >= 2
    ensures r.Some? ==> ParseInt(Strip(lines[0])) == Some(r.value.index)
    ensures r.Some? ==> |SplitArrow(Strip(lines[1]))| == 2
  {
    if |lines| < 2 then None
    else CueOf(ParseInt(Strip(lines[0])), SplitArrow(Strip(lines[1])), CueText(lines[2..]))
  }

  /** The subtitle text of a block: its lines stripped, blank ones dropped,
      joined by spaces, with the markup tags removed. */
  function CueText(rest: seq<string>): (text: string)
    ensures !HasTag(text)
  {
    StripTagsLeavesNoTag(Join(NonBlankStripped(rest), " "));
    StripTags(Join(NonBlankStripped(rest), " "))
  }

  /** A cue from its parsed fields, when the index parsed, the arrow split in two
      and the text is not empty. */
  function CueOf(index: Option<int>, parts: seq<string>, text: string): (r: Option<LyricLine>)
    ensures r.Some? ==> index == Some(r.value.index) && |parts| == 2 && r.value.text == text != []
  {
    match index
    case None => None
    case Some(idx) =>
      if |parts| != 2 || text == [] then None
      else Some(LyricLine(idx, ParseTimestamp(parts[0]), ParseTimestamp(parts[1]), text))
  }

  /** The parse of every block, in block order. */
  function BlockParses(blocks: seq<string>): (os: seq<Option<LyricLine>>)
    ensures |os| == |blocks| && forall i :: 0 <= i < |blocks| ==> os[i] == ParseSrtBlock(blocks[i])
  {
    seq(|blocks|, i requires 0 <= i < |blocks| => ParseSrtBlock(blocks[i]))
  }

  /** The SRT pass: one line per block that parses, in block order; blocks
      that do not parse are skipped. Every line it keeps has visible text
      free of markup tags. */
  function ParseSrtBlocks(blocks: seq<string>): (r: seq<LyricLine>)
    ensures |r| <= |blocks|
    ensures forall l :: l in r ==> l.text != [] && !HasTag(l.text)
  {
    if blocks == [] then []
    else
      var rest := ParseSrtBlocks(blocks[1..]);
      match ParseSrtBlock(blocks[0])
      case Some(l) => [l] + rest
      case None => rest
  }

  /** The SRT pass keeps the present parses of the blocks, in block order. */
  lemma {:induction false} ParseSrtBlocksSomes(blocks: seq<string>)
    ensures ParseSrtBlocks(blocks) == Somes(BlockParses(blocks))
    decreases |blocks|
  {
    if blocks != [] {
      ParseSrtBlocksSomes(blocks[1..]);
      var os := BlockParses(blocks);
      assert os[1..] == BlockParses(blocks[1..]) by {
        forall i | 0 <= i < |blocks| - 1 ensures os[1..][i] == BlockParses(blocks[1..])[i] {
          assert blocks[1..][i] == blocks[i + 1];
        }
      }
      assert os[0] == ParseSrtBlock(blocks[0]);
    }
  }

  /** Where the SRT lines come from: there is an increasing sequence of block
      indices, one per line, such that the k-th line is the parse of the k-th
      of those blocks, and every block that parses is among them. So the
      lines keep block order and each meets the index, arrow and text rules. */
  lemma SrtBlocksProvenance(blocks: seq<string>)
    ensures var r := ParseSrtBlocks(blocks);
            var js := SomeIndices(BlockParses(blocks), 0);
            && |js| == |r|
            && (forall k, m :: 0 <= k < m < |js| ==> js[k] < js[m])
            && (forall k :: 0 <= k < |r| ==> js[k] < |blocks| && ParseSrtBlock(blocks[js[k]]) == Some(r[k]))
            && (forall j :: 0 <= j < |blocks| && ParseSrtBlock(blocks[j]).Some? ==> j in js)
  {
    var os := BlockParses(blocks);
    ParseSrtBlocksSomes(blocks);
    SomesAt(os, 0);
    assert os[0..] == os;
    forall j | 0 <= j < |blocks| && ParseSrtBlock(blocks[j]).Some?
      ensures j in SomeIndices(os, 0)
    {
      SomeIndicesComplete(os, 0, j);
    }
  }

  /** `parse_srt`: the SRT pass over the normalised, stripped text, and the
      LRC pass only when the SRT pass found nothing. */
  function ParseSrt(text: string): (r: seq<LyricLine>)
    ensures var t := Strip(NormalizeNewlines(text));
            && (t == [] ==> r == [])
            && (t != [] && ParseSrtBlocks(SplitBlankRuns(t)) != [] ==> r == ParseSrtBlocks(SplitBlankRuns(t)))
            && (t != [] && ParseSrtBlocks(SplitBlankRuns(t)) == [] ==> r == ParseLrc(t))
  {
    var t := Strip(NormalizeNewlines(text));
    if t == [] then []
    else
      var srt := ParseSrtBlocks(SplitBlankRuns(t));
      if srt != [] then srt else ParseLrc(t)
  }

  /** Empty or whitespace-only text has no lyrics. */
  lemma BlankTextHasNoLyrics(text: string)
    requires forall i :: 0 <= i < |text| ==> IsSpace(text[i])
    ensures ParseSrt(text) == []
  {
    NormalizeKeepsBlank(text);
    StripBlank(NormalizeNewlines(text));
  }

  lemma {:induction false} NormalizeKeepsBlank(s: string)
    requires forall i :: 0 <= i < |s| ==> IsSpace(s[i])
    ensures forall i :: 0 <= i < |NormalizeNewlines(s)| ==> IsSpace(NormalizeNewlines(s)[i])
    decreases |s|
  {
    if s != [] {
      if |s| >= 2 && s[0] == '\r' && s[1] == '\n' {
        NormalizeKeepsBlank(s[2..]);
      } else {
        NormalizeKeepsBlank(s[1..]);
      }
    }
  }

  /** The SRT text of one line, as a subtitle editor writes it. */
  function FormatCue(line: LyricLine): string
    requires WellFormedCue(line)
  {
    NatToString(line.index) + "\n" + CueStamps(line) + "\n" + line.text
  }

  function FormatSrt(lines: seq<LyricLine>): string
    requires forall i :: 0 <= i < |lines| ==> WellFormedCue(lines[i])
  {
    Join(FormatCues(lines), "\n\n")
  }

  function FormatCues(lines: seq<LyricLine>): seq<string>
    requires forall i :: 0 <= i < |lines| ==> WellFormedCue(lines[i])
  {
    seq(|lines|, i requires 0 <= i < |lines| => FormatCue(lines[i]))
  }

  /** A line an SRT file can carry verbatim: a non-negative index, times
      below 100 hours, and one line of trimmed text with no markup. */
  predicate WellFormedCue(line: LyricLine) {
    && line.index >= 0
    && 0 <= line.startMs < 100 * 3600000
    && 0 <= line.endMs < 100 * 3600000
    && line.text != [] && NoSpaceAtEnds(line.text)
    && '\n' !in line.text && '\r' !in line.text && '<' !in line.text
  }

  /** The timestamp line of a cue. */
  function CueStamps(line: LyricLine): (s: string)
    requires WellFormedCue(line)
  {
    FormatStamp(line.startMs) + " --> " + FormatStamp(line.endMs)
  }

  lemma CueStampsPlain(line: LyricLine)
    requires WellFormedCue(line)
    ensures '\n' !in CueStamps(line) && '\r' !in CueStamps(line)
    ensures CueStamps(line) != [] && NoSpaceAtEnds(CueStamps(line))
  {
    var a := FormatStamp(line.startMs);
    var b := FormatStamp(line.endMs);
    StampHasNoSpace(line.startMs);
    StampHasNoSpace(line.endMs);
    ArrowLinePlain(a, b);
  }

  /** Two trimmed one-line fields around ` --> ` make a trimmed line. */
  lemma ArrowLinePlain(a: string, b: string)
    requires a != [] && b != [] && NoSpaceAtEnds(a) && NoSpaceAtEnds(b)
    requires '\n' !in a && '\r' !in a && '\n' !in b && '\r' !in b
    ensures var s := a + " --> " + b;
      '\n' !in s && '\r' !in s && NoSpaceAtEnds(s)
  {
    var s := a + " --> " + b;
    assert s[0] == a[0] && s[|s| - 1] == b[|b| - 1];
  }

  /** Three non-empty lines without newlines, joined: the block is proper,
      stripping leaves it alone when its ends are not whitespace, and
      splitting at newlines gives the three lines back. */
  lemma ThreeLines(x: string, y: string, z: string)
    requires x != [] && y != [] && z != []
    requires '\n' !in x && '\n' !in y && '\n' !in z
    requires !IsSpace(x[0]) && !IsSpace(z[|z| - 1])
    ensures var block := x + "\n" + y + "\n" + z;
      && ProperBlock(block) && NoSpaceAtEnds(block)
      && Split(Strip(block), '\n') == [x, y, z]
  {
    ThreeLinesSplit(x, y, z);
    ThreeLinesProper(x, y, z);
  }

  lemma ThreeLinesSplit(x: string, y: string, z: string)
    requires x != [] && z != []
    requires '\n' !in x && '\n' !in y && '\n' !in z
    requires !IsSpace(x[0]) && !IsSpace(z[|z| - 1])
    ensures NoSpaceAtEnds(x + "\n" + y + "\n" + z)
    ensures Split(Strip(x + "\n" + y + "\n" + z), '\n') == [x, y, z]
  {
    var block := x + "\n" + y + "\n" + z;
    assert block[0] == x[0] && block[|block| - 1] == z[|z| - 1];
    StripKeepsTrimmed(block);
    assert Join([x, y, z], "\n") == block by {
      assert Join([y, z], "\n") == y + "\n" + z;
    }
    SplitJoin([x, y, z], '\n');
  }

  lemma ThreeLinesProper(x: string, y: string, z: string)
    requires x != [] && y != [] && z != []
    requires '\n' !in x && '\n' !in y && '\n' !in z
    ensures ProperBlock(x + "\n" + y + "\n" + z)
  {
    NoNewlineNoDouble(x);
    NoNewlineNoDouble(y);
    NoNewlineNoDouble(z);
    assert !HasDoubleNewline("\n");
    assert x[|x| - 1] in x && y[0] in y && y[|y| - 1] in y && z[0] in z;
    DoubleNewlineConcat(x, "\n");
    DoubleNewlineConcat(x + "\n", y);
    DoubleNewlineConcat(x + "\n" + y, "\n");
    DoubleNewlineConcat(x + "\n" + y + "\n", z);
    var block := x + "\n" + y + "\n" + z;
    assert block[0] == x[0] && block[|block| - 1] == z[|z| - 1];
  }

  lemma NatToStringPlain(n: nat)
    ensures var s := NatToString(n);
      '\n' !in s && '\r' !in s && NoSpaceAtEnds(s)
  {
    var s := NatToString(n);
    assert forall i :: 0 <= i < |s| ==> IsDigit(s[i]);
    assert IsDigit(s[0]) && IsDigit(s[|s| - 1]);
  }

  /** The block of a cue is proper, trimmed, free of `\r`, and its lines are
      the index, the timestamp line and the text. */
  lemma CueLines(line: LyricLine)
    requires WellFormedCue(line)
    ensures ProperBlock(FormatCue(line)) && NoSpaceAtEnds(FormatCue(line)) && '\r' !in FormatCue(line)
    ensures Split(Strip(FormatCue(line)), '\n') == [NatToString(line.index), CueStamps(line), line.text]
  {
    var idx := NatToString(line.index);
    var st := CueStamps(line);
    NatToStringPlain(line.index);
    CueStampsPlain(line);
    ThreeLines(idx, st, line.text);
    NoCarriageReturn3(idx, st, line.text);
  }

  lemma NoCarriageReturn3(x: string, y: string, z: string)
    requires '\r' !in x && '\r' !in y && '\r' !in z
    ensures '\r' !in x + "\n" + y + "\n" + z
  {
  }

  /** Every SRT block the writer produces parses back to the line it came from. */
  lemma CueRoundTrip(line: LyricLine)
    requires WellFormedCue(line)
    ensures ProperBlock(FormatCue(line)) && NoSpaceAtEnds(FormatCue(line)) && '\r' !in FormatCue(line)
    ensures ParseSrtBlock(FormatCue(line)) == Some(line)
  {
    var idx := NatToString(line.index);
    var a := FormatStamp(line.startMs);
    var b := FormatStamp(line.endMs);
    CueLines(line);
    assert ParseInt(Strip(idx)) == Some(line.index) by {
      NatToStringPlain(line.index);
      StripKeepsTrimmed(idx);
      ParseIntOfNatToString(line.index);
    }
    assert SplitArrow(Strip(CueStamps(line))) == [a, b] by {
      CueStampsPlain(line);
      StripKeepsTrimmed(CueStamps(line));
      StampHasNoSpace(line.startMs);
      StampHasNoSpace(line.endMs);
      ArrowSplitsStamps(a, b);
    }
    assert ParseTimestamp(a) == line.startMs && ParseTimestamp(b) == line.endMs by {
      FormatStampRoundTrip(line.startMs, []);
      FormatStampRoundTrip(line.endMs, []);
      assert a + [] == a && b + [] == b;
    }
    CueTextOfLine(line.text);
    BlockOfThreeLines(FormatCue(line), idx, CueStamps(line), line.text, a, b);
  }

  /** A trimmed, untagged line is its own cue text. */
  lemma CueTextOfLine(z: string)
    requires z != [] && NoSpaceAtEnds(z) && '<' !in z
    ensures CueText([z]) == z
  {
    StripKeepsTrimmed(z);
    assert NonBlankStripped([z]) == [z];
    assert Join([z], " ") == z;
  }

  /** How `ParseSrtBlock` reads a block of three lines whose fields parse. */
  lemma BlockOfThreeLines(block: string, x: string, y: string, z: string, p: string, q: string)
    requires Split(Strip(block), '\n') == [x, y, z]
    requires ParseInt(Strip(x)).Some?
    requires SplitArrow(Strip(y)) == [p, q]
    requires CueText([z]) != []
    ensures ParseSrtBlock(block) == Some(LyricLine(ParseInt(Strip(x)).value, ParseTimestamp(p),
      ParseTimestamp(q), CueText([z])))
  {
    CueLinesOfThree(x, y, z);
    CueOfParsed(ParseInt(Strip(x)), p, q, CueText([z]));
  }

  lemma CueLinesOfThree(x: string, y: string, z: string)
    ensures ParseCueLines([x, y, z]) == CueOf(ParseInt(Strip(x)), SplitArrow(Strip(y)), CueText([z]))
  {
    assert [x, y, z][2..] == [z];
  }

  lemma CueOfParsed(index: Option<int>, p: string, q: string, text: string)
    requires index.Some? && text != []
    ensures CueOf(index, [p, q], text) == Some(LyricLine(index.value, ParseTimestamp(p), ParseTimestamp(q), text))
  {
  }

  lemma RStripOneSpace(a: string)
    requires a != [] && !IsSpace(a[|a| - 1])
    ensures RStrip(a + " ") == a
  {
    assert (a + " ")[..|a|] == a;
  }

  lemma LStripOneSpace(b: string)
    requires b != [] && !IsSpace(b[0])
    ensures LStrip(" " + b) == b
  {
    assert (" " + b)[1..] == b;
  }

  /** Two arrow-free fields around ` --> ` split back into the two fields. */
  lemma ArrowSplitsStamps(a: string, b: string)
    requires a != [] && !IsSpace(a[|a| - 1]) && '-' !in a
    requires b != [] && !IsSpace(b[0]) && '-' !in b
    ensures SplitArrow(a + " --> " + b) == [a, b]
  {
    var s := a + " --> " + b;
    var n := |a|;
    ArrowPieces(a, b);
    ArrowAtFirst(s, n + 1);
    RStripOneSpace(a);
    LStripOneSpace(b);
    ArrowAbsent(b);
    SplitArrowAt(s, n + 1, a, b);
  }

  /** Where the pieces of `a --> b` sit when `a` has no dash. */
  lemma ArrowPieces(a: string, b: string)
    requires '-' !in a
    ensures var s := a + " --> " + b;
      s[..|a| + 1] == a + " " && IsArrowAt(s, |a| + 1) && s[|a| + 4..] == " " + b
    ensures forall j :: 0 <= j < |a| + 1 ==> (a + " --> " + b)[j] != '-'
  {
    var s := a + " --> " + b;
    assert forall j :: 0 <= j < |a| ==> s[j] == a[j];
  }

  /** Splitting at the first separator: the stripped head, then the rest split. */
  lemma SplitArrowAt(s: string, i: nat, a: string, b: string)
    requires i < |s| && ArrowAt(s) == i
    requires RStrip(s[..i]) == a && LStrip(s[i + 3..]) == b && SplitArrow(b) == [b]
    ensures SplitArrow(s) == [a, b]
  {
  }

  lemma {:induction false} ArrowAtFirst(s: string, i: nat)
    requires IsArrowAt(s, i)
    requires forall j :: 0 <= j < i ==> s[j] != '-'
    ensures ArrowAt(s) == i
    decreases i
  {
    if i > 0 {
      assert s[0] != '-';
      ArrowAtFirst(s[1..], i - 1);
    }
  }

  lemma {:induction false} ArrowAbsent(s: string)
    requires '-' !in s
    ensures ArrowAt(s) == |s|
  {
    if |s| >= 3 {
      assert s[0] in s;
      assert forall c :: c in s[1..] ==> c in s;
      ArrowAbsent(s[1..]);
    }
  }

  /** `parse_srt` of well-formed SRT text written from lines gives back exactly those lines. */
  lemma SrtRoundTrip(lines: seq<LyricLine>)
    requires forall i :: 0 <= i < |lines| ==> WellFormedCue(lines[i])
    ensures ParseSrt(FormatSrt(lines)) == lines
  {
    if lines == [] {
      assert FormatSrt(lines) == "";
    } else {
      var blocks := FormatCues(lines);
      forall i | 0 <= i < |blocks|
        ensures ProperBlock(blocks[i]) && NoSpaceAtEnds(blocks[i]) && '\r' !in blocks[i]
      {
        CueLines(lines[i]);
      }
      var text := Join(blocks, "\n\n");
      JoinHasNoCarriageReturn(blocks);
      assert NormalizeNewlines(text) == text;
      ProperJoinStart(blocks);
      ProperJoinEnd(blocks);
      StripKeepsTrimmed(text);
      SplitBlankRunsJoin(blocks);
      ParseFormattedCues(lines);
    }
  }

  /** The SRT pass reads every formatted block back to its line. */
  lemma ParseFormattedCues(lines: seq<LyricLine>)
    requires forall i :: 0 <= i < |lines| ==> WellFormedCue(lines[i])
    ensures ParseSrtBlocks(FormatCues(lines)) == lines
  {
    var blocks := FormatCues(lines);
    forall i | 0 <= i < |lines|
      ensures ParseSrtBlock(blocks[i]) == Some(lines[i])
    {
      CueRoundTrip(lines[i]);
    }
    ParseBlocksAll(blocks, lines);
  }

  /** Blocks that each parse to their line parse, together, to all the lines. */
  lemma {:induction false} ParseBlocksAll(blocks: seq<string>, ls: seq<LyricLine>)
    requires |blocks| == |ls|
    requires forall i :: 0 <= i < |blocks| ==> ParseSrtBlock(blocks[i]) == Some(ls[i])
    ensures ParseSrtBlocks(blocks) == ls
    decreases |blocks|
  {
    if blocks != [] {
      ParseBlocksAll(blocks[1..], ls[1..]);
      HeadTail(ls);
    }
  }

  lemma HeadTail<T>(s: seq<T>)
    requires s != []
    ensures s == [s[0]] + s[1..]
  {
  }

  lemma {:induction false} ProperJoinEnd(blocks: seq<string>)
    requires |blocks| >= 1
    requires forall i :: 0 <= i < |blocks| ==> ProperBlock(blocks[i])
    requires forall i :: 0 <= i < |blocks| ==> NoSpaceAtEnds(blocks[i])
    ensures NoSpaceAtEnds(Join(blocks, "\n\n"))
    decreases |blocks|
  {
    ProperJoinStart(blocks);
    if |blocks| > 1 {
      ProperJoinEnd(blocks[1..]);
      var tail := Join(blocks[1..], "\n\n");
      assert Join(blocks, "\n\n") == blocks[0] + "\n\n" + tail;
    }
  }

  lemma {:induction false} JoinHasNoCarriageReturn(blocks: seq<string>)
    requires forall i :: 0 <= i < |blocks| ==> '\r' !in blocks[i]
    ensures '\r' !in Join(blocks, "\n\n")
    decreases |blocks|
  {
    if |blocks| > 1 {
      JoinHasNoCarriageReturn(blocks[1..]);
    }
  }

  // ---------------------------------------------------------------------
  // LRC
  // ---------------------------------------------------------------------

  datatype LrcTag = LrcTag(startMs: nat, length: nat)

  /** The LRC tag regex matches at the start of `s` with `ml` minute digits
      and `fl` fraction digits, `fl == 0` meaning no fraction part. The
      closing `]` makes both widths unique. */
  predicate LrcTagShape(s: string, ml: nat, fl: nat) {
    && 1 <= ml <= 2 && fl <= 3 && LrcTagLength(ml, fl) <= |s|
    && s[0] == '[' && DigitsIn(s, 1, ml + 1) && s[ml + 1] == ':'
    && DigitsIn(s, ml + 2, ml + 4)
    && if fl == 0 then s[ml + 4] == ']'
       else (s[ml + 4] == '.' || s[ml + 4] == ':') && DigitsIn(s, ml + 5, ml + 5 + fl) && s[ml + 5 + fl] == ']'
  }

  function LrcTagLength(ml: nat, fl: nat): nat {
    if fl == 0 then ml + 5 else ml + 6 + fl
  }

  ghost predicate StartsWithLrcTag(s: string) {
    exists ml: nat, fl: nat :: LrcTagShape(s, ml, fl)
  }

  /** Minutes and seconds of the match, plus the fraction right-padded to
      milliseconds (an absent fraction counts as `0`). */
  function LrcTagValue(s: string, ml: nat, fl: nat): nat
    requires LrcTagShape(s, ml, fl)
  {
    DecimalValue(s[1..ml + 1]) * 60000 + DecimalValue(s[ml + 2..ml + 4]) * 1000
    + (if fl == 0 then 0 else FracMillis(s[ml + 5..ml + 5 + fl]))
  }

  /** The widths of the LRC tag matched at the start of `s`, read the way
      the regex reads them. */
  function MatchLrcTag(s: string): (r: Option<(nat, nat)>)
    ensures r.Some? ==> LrcTagShape(s, r.value.0, r.value.1)
  {
    if s == [] || s[0] != '[' then None
    else
      var ml := HourDigits(s, 1);
      if ml == 0 || !(ml + 4 < |s| && IsDigit(s[ml + 2]) && IsDigit(s[ml + 3])) then None
      else if s[ml + 4] == ']' then
        assert LrcTagShape(s, ml, 0);
        Some((ml, 0))
      else if (s[ml + 4] == '.' || s[ml + 4] == ':') && ml + 5 < |s| && IsDigit(s[ml + 5]) then
        var fl := LeadingDigits(s[ml + 5..], 3);
        if ml + 5 + fl < |s| && s[ml + 5 + fl] == ']' then
          FractionShape(s, ml);
          Some((ml, fl))
        else None
      else None
  }

  lemma FractionShape(s: string, ml: nat)
    requires s != [] && s[0] == '[' && ml == HourDigits(s, 1) && ml != 0
    requires ml + 5 < |s| && IsDigit(s[ml + 2]) && IsDigit(s[ml + 3])
    requires (s[ml + 4] == '.' || s[ml + 4] == ':') && IsDigit(s[ml + 5])
    requires ml + 5 + LeadingDigits(s[ml + 5..], 3) < |s| && s[ml + 5 + LeadingDigits(s[ml + 5..], 3)] == ']'
    ensures LrcTagShape(s, ml, LeadingDigits(s[ml + 5..], 3))
  {
    var fl := LeadingDigits(s[ml + 5..], 3);
    forall i | ml + 5 <= i < ml + 5 + fl ensures IsDigit(s[i]) {
      assert s[i] == s[ml + 5..][i - (ml + 5)];
    }
  }

  /** Every match is found, with its widths: a tag has exactly one reading. */
  lemma MatchLrcTagComplete(s: string)
    ensures forall ml: nat, fl: nat :: LrcTagShape(s, ml, fl) ==> MatchLrcTag(s) == Some((ml, fl))
  {
    LrcShapesDetermined(s);
  }

  /** The LRC tag regex matched at the start of `s`: the tag's milliseconds
      and its length. */
  function LrcTagAt(s: string): (r: Option<LrcTag>)
    ensures r.Some? <==> StartsWithLrcTag(s)
    ensures forall ml: nat, fl: nat :: LrcTagShape(s, ml, fl) ==>
      r == Some(LrcTag(LrcTagValue(s, ml, fl), LrcTagLength(ml, fl)))
    ensures r.Some? ==> 5 <= r.value.length <= |s| && s[0] == '[' && s[r.value.length - 1] == ']'
  {
    MatchLrcTagComplete(s);
    match MatchLrcTag(s)
    case Some((ml, fl)) => Some(LrcTag(LrcTagValue(s, ml, fl), LrcTagLength(ml, fl)))
    case None => None
  }

  /** A match fixes its minute and fraction widths: they are the ones the
      scanner reads. */
  lemma LrcShapesDetermined(s: string)
    ensures forall ml: nat, fl: nat :: LrcTagShape(s, ml, fl) ==>
      && ml == HourDigits(s, 1) && ml + 4 < |s| && IsDigit(s[ml + 2]) && IsDigit(s[ml + 3])
      && (fl == 0 <==> s[ml + 4] == ']')
      && (fl != 0 ==> (s[ml + 4] == '.' || s[ml + 4] == ':') && IsDigit(s[ml + 5])
                      && fl == LeadingDigits(s[ml + 5..], 3))
  {
    forall ml: nat, fl: nat | LrcTagShape(s, ml, fl)
      ensures && ml == HourDigits(s, 1) && ml + 4 < |s| && IsDigit(s[ml + 2]) && IsDigit(s[ml + 3])
              && (fl == 0 <==> s[ml + 4] == ']')
              && (fl != 0 ==> (s[ml + 4] == '.' || s[ml + 4] == ':') && IsDigit(s[ml + 5])
                              && fl == LeadingDigits(s[ml + 5..], 3))
    {
      assert IsDigit(s[1]);
      assert ml == 1 ==> s[2] == ':';
      assert ml == 2 ==> IsDigit(s[2]) && s[3] == ':';
      if fl != 0 {
        var u := s[ml + 5..];
        forall i | 0 <= i < fl ensures IsDigit(u[i]) {
          assert u[i] == s[ml + 5 + i];
        }
        assert fl < 3 ==> u[fl] == ']';
      }
    }
  }

  /** `finditer` and `sub("")` of the LRC tag regex over one line: the tags'
      times in order, and the text left once every tag is removed. */
  function ScanLrcLine(s: string): (r: (seq<nat>, string))
    ensures |r.1| + 5 * |r.0| <= |s|
    decreases |s|
  {
    if s == [] then ([], "")
    else
      match LrcTagAt(s)
      case Some(tag) =>
        var rest := ScanLrcLine(s[tag.length..]);
        ([tag.startMs] + rest.0, rest.1)
      case None =>
        var rest := ScanLrcLine(s[1..]);
        (rest.0, [s[0]] + rest.1)
  }

  datatype LrcEntry = LrcEntry(startMs: int, text: string)

  /** The entries of one LRC line: one per tag, all sharing the stripped text. */
  function LineEntries(raw: string): (r: seq<LrcEntry>)
    ensures Strip(raw) == [] ==> r == []
    ensures 5 * |r| <= |Strip(raw)|
    ensures forall i :: 0 <= i < |r| ==> r[i].startMs >= 0 && NoSpaceAtEnds(r[i].text)
    ensures forall i, j :: 0 <= i < |r| && 0 <= j < |r| ==> r[i].text == r[j].text
  {
    var line := Strip(raw);
    if line == [] then []
    else
      var scan := ScanLrcLine(line);
      var text := Strip(scan.1);
      seq(|scan.0|, i requires 0 <= i < |scan.0| => LrcEntry(scan.0[i], text))
  }

  function CollectEntries(lines: seq<string>): seq<LrcEntry> {
    if lines == [] then [] else LineEntries(lines[0]) + CollectEntries(lines[1..])
  }

  function EntryStart(e: LrcEntry): int {
    e.startMs
  }

  /** End of the `i`-th sorted entry: the next entry's start (whatever its
      text), or five seconds after its own start for the last one. */
  function EndOf(entries: seq<LrcEntry>, i: nat): int
    requires i < |entries|
  {
    if i + 1 < |entries| then entries[i + 1].startMs else entries[i].startMs + 5000
  }

  /** The indices of `lines`, in order. */
  function Ranks(lines: seq<LyricLine>): (r: seq<int>)
    ensures |r| == |lines|
    ensures forall k :: 0 <= k < |lines| ==> r[k] == lines[k].index
  {
    if lines == [] then [] else [lines[0].index] + Ranks(lines[1..])
  }

  /** The line the `i`-th sorted entry becomes: numbered by its 1-based rank
      among all the sorted entries, empty ones included. */
  function NumberedLine(entries: seq<LrcEntry>, i: nat): LyricLine
    requires i < |entries|
  {
    LyricLine(i + 1, entries[i].startMs, EndOf(entries, i), entries[i].text)
  }

  /** The numbering loop of `_parse_lrc` from entry `from` on: entries with
      empty text are skipped but still counted. */
  function NumberFrom(entries: seq<LrcEntry>, from: nat): (r: seq<LyricLine>)
    requires from <= |entries|
    ensures forall k :: 0 <= k < |r| ==> from < r[k].index <= |entries|
    ensures forall k :: 0 <= k < |r| ==> r[k] == NumberedLine(entries, r[k].index - 1)
    ensures forall k :: 0 <= k < |r| ==> r[k].text != []
    ensures forall k, k' :: 0 <= k < k' < |r| ==> r[k].index < r[k'].index
    decreases |entries| - from
  {
    if from == |entries| then []
    else
      var rest := NumberFrom(entries, from + 1);
      if entries[from].text != [] then [NumberedLine(entries, from)] + rest
      else rest
  }

  /** Every entry with text, and no other, gets a line. */
  lemma {:induction false} NumberFromCovers(entries: seq<LrcEntry>, from: nat)
    requires from <= |entries|
    ensures forall n :: from < n <= |entries| ==>
      (entries[n - 1].text != [] <==> n in Ranks(NumberFrom(entries, from)))
    decreases |entries| - from
  {
    if from < |entries| {
      NumberFromCovers(entries, from + 1);
      var rest := NumberFrom(entries, from + 1);
      var r := NumberFrom(entries, from);
      var rs := Ranks(rest);
      assert from + 1 !in rs;
      if entries[from].text != [] {
        assert Ranks(r) == [from + 1] + rs by {
          assert r == [NumberedLine(entries, from)] + rest;
          assert r[1..] == rest;
        }
        forall n | from < n <= |entries|
          ensures entries[n - 1].text != [] <==> n in Ranks(r)
        {
          assert n in Ranks(r) <==> n == from + 1 || n in rs;
        }
      } else {
        assert r == rest;
      }
    }
  }

  /** `_parse_lrc`: the entries of every line, sorted by start time (stably),
      then numbered. */
  function ParseLrc(text: string): (r: seq<LyricLine>)
    ensures CollectEntries(Split(text, '\n')) == [] ==> r == []
    ensures forall k :: 0 <= k < |r| ==> r[k].text != []
  {
    var entries := CollectEntries(Split(text, '\n'));
    if entries == [] then []
    else NumberFrom(Sorting.SortBy(entries, EntryStart), 0)
  }

  /** Numbering sorted entries gives lines ordered by start time. */
  lemma NumberedInOrder(entries: seq<LrcEntry>)
    requires Sorting.SortedBy(entries, EntryStart)
    ensures var r := NumberFrom(entries, 0);
      forall k, k' :: 0 <= k < k' < |r| ==> r[k].startMs <= r[k'].startMs
  {
    var r := NumberFrom(entries, 0);
    forall k, k' | 0 <= k < k' < |r| ensures r[k].startMs <= r[k'].startMs {
      var a := r[k].index - 1;
      var b := r[k'].index - 1;
      assert a < b;
      assert EntryStart(entries[a]) <= EntryStart(entries[b]);
    }
  }

  /** LRC output is ordered by start time. */
  lemma LrcLinesOrdered(text: string)
    ensures var r := ParseLrc(text);
      forall k, k' :: 0 <= k < k' < |r| ==> r[k].startMs <= r[k'].startMs && r[k].index < r[k'].index
  {
    var entries := CollectEntries(Split(text, '\n'));
    if entries != [] {
      var sorted := Sorting.SortBy(entries, EntryStart);
      assert ParseLrc(text) == NumberFrom(sorted, 0);
      Sorting.SortBySorted(entries, EntryStart);
      NumberedInOrder(sorted);
    }
  }

  /** A two-digit LRC fraction counts hundredths: `[mm:ss.cc]` starts at
      mm*60000 + ss*1000 + cc*10 ms. */
  lemma LrcTagCentiseconds(mm: nat, ss: nat, cc: nat, rest: string)
    requires mm < 100 && ss < 100 && cc < 100
    ensures LrcTagAt("[" + ZeroPad2(mm) + ":" + ZeroPad2(ss) + "." + ZeroPad2(cc) + "]" + rest)
         == Some(LrcTag(mm * 60000 + ss * 1000 + cc * 10, 10))
  {
    var a, b, c := ZeroPad2(mm), ZeroPad2(ss), ZeroPad2(cc);
    var s := "[" + a + ":" + b + "." + c + "]" + rest;
    assert s[1..3] == a && s[4..6] == b && s[7..9] == c;
    assert s[0] == '[' && s[3] == ':' && s[6] == '.' && s[9] == ']';
    TwoDigitTag(s);
    assert DecimalValue(a) == mm && DecimalValue(b) == ss && DecimalValue(c) == cc;
  }

  /** The layout `[mm:ss.cc]` is a tag of ten characters. */
  lemma TwoDigitTag(s: string)
    requires |s| >= 10 && s[0] == '[' && s[3] == ':' && s[6] == '.' && s[9] == ']'
    requires AllDigits(s[1..3]) && AllDigits(s[4..6]) && AllDigits(s[7..9])
    ensures LrcTagAt(s) == Some(LrcTag(DecimalValue(s[1..3]) * 60000 + DecimalValue(s[4..6]) * 1000
      + DecimalValue(s[7..9]) * 10, 10))
  {
    assert IsDigit(s[1..3][0]) && IsDigit(s[1..3][1]);
    assert IsDigit(s[4..6][0]) && IsDigit(s[4..6][1]);
    assert IsDigit(s[7..9][0]) && IsDigit(s[7..9][1]);
    assert HourDigits(s, 1) == 2;
    assert LeadingDigits(s[7..], 3) == 2 by {
      assert s[7..][2] == ']';
    }
    assert s[7..][..2] == s[7..9];
  }
  /** `[mm:ss.mmm]`: the LRC tag for `ms`, with a three-digit fraction. */
  function FormatLrcTag(ms: nat): (s: string)
    requires ms < 100 * 60000
    ensures |s| == 11 && s[0] == '[' && s[10] == ']'
  {
    "[" + ZeroPad2(ms / 60000) + ":" + ZeroPad2(ms / 1000 % 60) + "." + Pad3(ms % 1000) + "]"
  }

  predicate LrcTimes(times: seq<nat>) {
    forall i :: 0 <= i < |times| ==> times[i] < 100 * 60000
  }

  function FormatLrcTags(times: seq<nat>): (s: string)
    requires LrcTimes(times)
    ensures |s| == 11 * |times|
    ensures times != [] ==> s[0] == '['
  {
    if times == [] then [] else FormatLrcTag(times[0]) + FormatLrcTags(times[1..])
  }

  /** The layout `[mm:ss.mmm]` is a tag of eleven characters. */
  lemma MilliTag(s: string)
    requires |s| >= 11 && s[0] == '[' && s[3] == ':' && s[6] == '.' && s[10] == ']'
    requires AllDigits(s[1..3]) && AllDigits(s[4..6]) && AllDigits(s[7..10])
    ensures LrcTagAt(s) == Some(LrcTag(DecimalValue(s[1..3]) * 60000 + DecimalValue(s[4..6]) * 1000
      + DecimalValue(s[7..10]), 11))
  {
    assert IsDigit(s[1..3][0]) && IsDigit(s[1..3][1]);
    assert IsDigit(s[4..6][0]) && IsDigit(s[4..6][1]);
    assert IsDigit(s[7..10][0]) && IsDigit(s[7..10][1]) && IsDigit(s[7..10][2]);
    assert LrcTagShape(s, 2, 3);
  }

  /** A formatted tag is matched whole, whatever follows it, and is worth
      the milliseconds it was written from. */
  lemma FormatLrcTagReadsBack(ms: nat, rest: string)
    requires ms < 100 * 60000
    ensures LrcTagAt(FormatLrcTag(ms) + rest) == Some(LrcTag(ms, 11))
  {
    var t := FormatLrcTag(ms);
    FormatLrcTagLayout(ms);
    var s := t + rest;
    assert s[1..3] == t[1..3] && s[4..6] == t[4..6] && s[7..10] == t[7..10];
    MilliTag(s);
    MinutesSplit(ms);
  }

  /** Where the fields of a formatted tag sit. */
  lemma FormatLrcTagLayout(ms: nat)
    requires ms < 100 * 60000
    ensures var t := FormatLrcTag(ms);
      && t[0] == '[' && t[3] == ':' && t[6] == '.' && t[10] == ']'
      && t[1..3] == ZeroPad2(ms / 60000) && t[4..6] == ZeroPad2(ms / 1000 % 60)
      && t[7..10] == Pad3(ms % 1000)
  {
    TagLayout(ZeroPad2(ms / 60000), ZeroPad2(ms / 1000 % 60), Pad3(ms % 1000));
  }

  lemma TagLayout(mm: string, ss: string, frac: string)
    requires |mm| == 2 && |ss| == 2 && |frac| == 3
    ensures var t := "[" + mm + ":" + ss + "." + frac + "]";
      && t[0] == '[' && t[3] == ':' && t[6] == '.' && t[10] == ']'
      && t[1..3] == mm && t[4..6] == ss && t[7..10] == frac
  {
  }


  lemma MinutesSplit(ms: nat)
    ensures (ms / 60000) * 60000 + (ms / 1000 % 60) * 1000 + ms % 1000 == ms
  {
    assert ms == (ms / 1000) * 1000 + ms % 1000;
    assert ms / 60000 == ms / 1000 / 60;
    assert ms / 1000 == (ms / 1000 / 60) * 60 + ms / 1000 % 60;
  }

  predicate NoBracket(text: string) {
    forall i :: 0 <= i < |text| ==> text[i] != '['
  }

  /** Text without `[` holds no tag and is left as it is. */
  lemma {:induction false} PlainLrcText(text: string)
    requires NoBracket(text)
    ensures ScanLrcLine(text) == ([], text)
    decreases |text|
  {
    if text != [] {
      assert LrcTagAt(text) == None;
      PlainLrcText(text[1..]);
      assert [text[0]] + text[1..] == text;
    }
  }

  /** Scanning formatted tags followed by text without `[` gives back the
      tags' times, in order, and the text. */
  lemma {:induction false} LrcLineRoundTrip(times: seq<nat>, text: string)
    requires LrcTimes(times)
    requires NoBracket(text)
    ensures ScanLrcLine(FormatLrcTags(times) + text) == (times, text)
    decreases |times|
  {
    if times == [] {
      assert FormatLrcTags(times) + text == text;
      PlainLrcText(text);
    } else {
      var head, tags := FormatLrcTag(times[0]), FormatLrcTags(times[1..]);
      assert FormatLrcTags(times) == head + tags;
      ConcatAssoc(head, tags, text);
      FormattedTagStep(times[0], tags + text);
      LrcLineRoundTrip(times[1..], text);
      assert [times[0]] + times[1..] == times;
    }
  }

  lemma ConcatAssoc(a: string, b: string, c: string)
    ensures (a + b) + c == a + (b + c)
  {
  }

  /** A formatted tag at the front contributes its time to the scan. */
  lemma FormattedTagStep(ms: nat, rest: string)
    requires ms < 100 * 60000
    ensures ScanLrcLine(FormatLrcTag(ms) + rest) == ([ms] + ScanLrcLine(rest).0, ScanLrcLine(rest).1)
  {
    var s := FormatLrcTag(ms) + rest;
    FormatLrcTagReadsBack(ms, rest);
    ScanAfterTag(s, LrcTag(ms, 11));
    assert s[11..] == rest;
  }

  /** Removal is a single pass, as `re.sub` is: the text left can hold a
      tag that only removal brought together. `[` followed by the tag for
      `a` and then by the tag for `b` less its `[` keeps the tag for `b`. */
  lemma RemovalCanFormTag(a: nat, b: nat)
    requires a < 100 * 60000 && b < 100 * 60000
    ensures ScanLrcLine(['['] + FormatLrcTag(a) + FormatLrcTag(b)[1..]) == ([a], FormatLrcTag(b))
    ensures LrcTagAt(FormatLrcTag(b)) == Some(LrcTag(b, 11))
  {
    var ta, tb := FormatLrcTag(a), FormatLrcTag(b);
    var tail := tb[1..];
    FormatLrcTagReadsBack(a, tail);
    TagBodyHasNoBracket(b);
    BracketTagPlain(ta, tail, a);
    assert ['['] + ta + tail == ['['] + (ta + tail);
    assert ['['] + tail == tb;
    FormatLrcTagReadsBack(b, []);
    assert tb + [] == tb;
  }

  /** `[`, then a tag, then text without `[`: the tag's time is found and
      the text keeps the first `[`. */
  lemma BracketTagPlain(tag: string, tail: string, ms: nat)
    requires tag != [] && tag[0] == '[' && NoBracket(tail)
    requires LrcTagAt(tag + tail) == Some(LrcTag(ms, |tag|))
    ensures ScanLrcLine(['['] + (tag + tail)) == ([ms], ['['] + tail)
  {
    var s := ['['] + (tag + tail);
    assert s[1] == '[' && s[1..] == tag + tail;
    NoTagBeforeBracket(s);
    ScanSkip(s);
    ScanAfterTag(tag + tail, LrcTag(ms, |tag|));
    assert (tag + tail)[|tag|..] == tail;
    PlainLrcText(tail);
    assert [ms] + [] == [ms];
  }

  /** A line of formatted tags followed by stripped, non-blank text
      without `[` gives one entry per tag, in tag order, each carrying the
      text. */
  lemma LineEntriesRoundTrip(times: seq<nat>, text: string)
    requires LrcTimes(times)
    requires text != [] && NoSpaceAtEnds(text) && NoBracket(text)
    ensures LineEntries(FormatLrcTags(times) + text)
         == seq(|times|, i requires 0 <= i < |times| => LrcEntry(times[i], text))
  {
    var line := FormatLrcTags(times) + text;
    TaggedLineTrimmed(FormatLrcTags(times), text);
    LrcLineRoundTrip(times, text);
    EntriesOfScan(line, times, text);
  }

  /** Tags (each opening with `[`) before trimmed, non-blank text leave
      nothing to strip. */
  lemma TaggedLineTrimmed(tags: string, text: string)
    requires text != [] && NoSpaceAtEnds(text)
    requires tags != [] ==> tags[0] == '['
    ensures NoSpaceAtEnds(tags + text) && tags + text != []
  {
    var line := tags + text;
    assert line[0] == (if tags == [] then text[0] else '[');
    assert line[|line| - 1] == text[|text| - 1];
  }

  /** The entries of a trimmed line are its scan's times, each paired with
      the scan's kept text. */
  lemma EntriesOfScan(line: string, times: seq<nat>, text: string)
    requires line != [] && NoSpaceAtEnds(line) && NoSpaceAtEnds(text)
    requires ScanLrcLine(line) == (times, text)
    ensures LineEntries(line) == seq(|times|, i requires 0 <= i < |times| => LrcEntry(times[i], text))
  {
    StripKeepsTrimmed(line);
    StripKeepsTrimmed(text);
  }

  /** A line without `[` has no tag, so it gives no entry. */
  lemma PlainLineHasNoEntries(raw: string)
    requires NoBracket(Strip(raw))
    ensures LineEntries(raw) == []
  {
    PlainLrcText(Strip(raw));
  }

  /** A tag needs a digit after its `[`. */
  lemma NoTagBeforeBracket(s: string)
    requires |s| >= 2 && s[1] == '['
    ensures LrcTagAt(s) == None
  {
    assert HourDigits(s, 1) == 0;
  }


  /** Past its opening `[`, a formatted tag holds no other `[`. */
  lemma TagBodyHasNoBracket(ms: nat)
    requires ms < 100 * 60000
    ensures NoBracket(FormatLrcTag(ms)[1..])
  {
    var t := FormatLrcTag(ms);
    FormatLrcTagLayout(ms);
    forall i | 1 <= i < 11 ensures t[i] != '[' {
      if 1 <= i < 3 {
        assert t[i] == t[1..3][i - 1];
      } else if 4 <= i < 6 {
        assert t[i] == t[4..6][i - 4];
      } else if 7 <= i < 10 {
        assert t[i] == t[7..10][i - 7];
      }
    }
  }

  /** Text that does not start with a tag keeps its first character. */
  lemma ScanSkip(s: string)
    requires s != [] && LrcTagAt(s) == None
    ensures ScanLrcLine(s) == (ScanLrcLine(s[1..]).0, [s[0]] + ScanLrcLine(s[1..]).1)
  {
  }

  /** A tag at the front contributes its time, and the scan goes on after it. */
  lemma ScanAfterTag(s: string, tag: LrcTag)
    requires LrcTagAt(s) == Some(tag)
    ensures ScanLrcLine(s) == ([tag.startMs] + ScanLrcLine(s[tag.length..]).0, ScanLrcLine(s[tag.length..]).1)
  {
  }


  // ---------------------------------------------------------------------
  // Lookup
  // ---------------------------------------------------------------------

  datatype Lookup = Lookup(index: int, text: string)

  function LookupFrom(lyrics: seq<LyricLine>, t: int, from: nat): (r: Lookup)
    requires from <= |lyrics|
    ensures r.index == -1 || from <= r.index < |lyrics|
    ensures r.index == -1 <==> forall i :: from <= i < |lyrics| ==> !Active(lyrics[i], t)
    ensures r.index == -1 ==> r.text == ""
    ensures r.index != -1 ==> Active(lyrics[r.index], t) && r.text == lyrics[r.index].text
    ensures r.index != -1 ==> forall j :: from <= j < r.index ==> !Active(lyrics[j], t)
    decreases |lyrics| - from
  {
    if from == |lyrics| then Lookup(-1, "")
    else if Active(lyrics[from], t) then Lookup(from, lyrics[from].text)
    else LookupFrom(lyrics, t, from + 1)
  }

  /** `get_lyric_at_position`: the first line, in list order, active at
      `position + offset`, or `(-1, "")` when none is. */
  function LyricAt(lyrics: seq<LyricLine>, position: int, offset: int): (r: Lookup)
    ensures r.index == -1 <==> forall i :: 0 <= i < |lyrics| ==> !Active(lyrics[i], position + offset)
    ensures r.index == -1 ==> r.text == ""
    ensures r.index != -1 ==>
      && 0 <= r.index < |lyrics|
      && Active(lyrics[r.index], position + offset)
      && r.text == lyrics[r.index].text
      && forall j :: 0 <= j < r.index ==> !Active(lyrics[j], position + offset)
  {
    LookupFrom(lyrics, position + offset, 0)
  }

  /** Only `position + offset` matters: moving the offset by `d` is the same
      as moving the position by `d`. */
  lemma OffsetIsAdditive(lyrics: seq<LyricLine>, position: int, offset: int, d: int)
    ensures LyricAt(lyrics, position, offset + d) == LyricAt(lyrics, position + d, offset)
  {
    assert position + (offset + d) == (position + d) + offset;
  }

  /** Lines that do not overlap in list order. */
  predicate Disjoint(lyrics: seq<LyricLine>) {
    forall i, j :: 0 <= i < j < |lyrics| ==> lyrics[i].endMs <= lyrics[j].startMs
  }

  /** On disjoint lines the lookup finds the one line containing the time. */
  lemma LookupFindsContainingLine(lyrics: seq<LyricLine>, position: int, offset: int, k: nat)
    requires Disjoint(lyrics)
    requires k < |lyrics| && Active(lyrics[k], position + offset)
    ensures LyricAt(lyrics, position, offset) == Lookup(k, lyrics[k].text)
  {
    var r := LyricAt(lyrics, position, offset);
    assert forall j :: 0 <= j < k ==> lyrics[j].endMs <= lyrics[k].startMs;
  }
}
