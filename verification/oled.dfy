/**
 The firmware-equivalent renderer of the 128x64 SSD1306 display: the state
 the serial commands set, the lyric word-wrap, the two scroll timers and the
 equalizer bar geometry, all over integer pixels.
 */
module Oled {
  import opened Text

  const ScreenWidth := 128
  const LyricsAreaHeight := 48
  const MetaTextX := 16
  const MetaAvailWidth := ScreenWidth - MetaTextX
  const LyricScrollStep := 16
  const MetaScrollGap := 30
  const CharW := 6
  const CharH := 8
  const EqBars := 12
  const EqMaxLevel := 12
  const MaxWrapLines := 32

  datatype Mode = LyricsMode | EqualizerMode
  datatype PlayState = Playing | Paused | Stopped

  /** `set_mode`: only "equalizer" and "EQ" select the bars. */
  function ModeOf(mode: string): (m: Mode)
    ensures m == EqualizerMode <==> mode in {"equalizer", "EQ"}
  {
    if mode == "equalizer" || mode == "EQ" then EqualizerMode else LyricsMode
  }

  /** `set_state`: an unknown state string falls back to stopped. */
  function PlayStateOf(state: string): (p: PlayState)
    ensures p == Playing <==> state == "playing"
    ensures p == Paused <==> state == "paused"
    ensures p == Stopped <==> state != "playing" && state != "paused"
  {
    if state == "playing" then Playing
    else if state == "paused" then Paused
    else Stopped
  }

  function Clamp(v: int, lo: int, hi: int): (r: int)
    requires lo <= hi
    ensures lo <= r <= hi
    ensures lo <= v <= hi ==> r == v
  {
    if v < lo then lo else if v > hi then hi else v
  }

  // ---------------------------------------------------------------------
  // Word wrap
  // ---------------------------------------------------------------------

  /** Index of the last space in `text[lo..hi]`, or -1 when there is none. */
  function LastSpaceIn(text: string, lo: nat, hi: nat): (r: int)
    requires lo <= hi <= |text|
    ensures r == -1 || (lo <= r < hi && text[r] == ' ')
    ensures forall j :: r < j < hi && lo <= j ==> text[j] != ' '
    decreases hi
  {
    if hi == lo then -1
    else if text[hi - 1] == ' ' then hi - 1
    else LastSpaceIn(text, lo, hi - 1)
  }

  /** One emitted line and the position the next line starts at. */
  datatype Break = Break(line: string, next: nat)

  /** One iteration of the wrap loop, starting at `pos`. */
  function NextBreak(text: string, width: nat, pos: nat): (b: Break)
    requires width >= 1 && pos < |text|
    ensures pos < b.next <= |text|
    ensures |b.line| <= width
  {
    if |text| - pos <= width then Break(text[pos..], |text|)
    else
      var sp := LastSpaceIn(text, pos, pos + width);
      if sp > pos then Break(text[pos..sp], sp + 1)
      else Break(text[pos..pos + width], pos + width)
  }

  /** The lines the wrap emits from `pos` on, `count` lines having been emitted. */
  function WrapFrom(text: string, width: nat, pos: nat, count: nat): (lines: seq<string>)
    requires width >= 1 && pos <= |text| && count <= MaxWrapLines
    ensures |lines| <= MaxWrapLines - count
    ensures forall i :: 0 <= i < |lines| ==> |lines[i]| <= width
    ensures lines == [] <==> pos == |text| || count == MaxWrapLines
    decreases |text| - pos
  {
    if pos == |text| || count == MaxWrapLines then []
    else
      var b := NextBreak(text, width, pos);
      [b.line] + WrapFrom(text, width, b.next, count + 1)
  }

  /** `_word_wrap(text, chars_per_line)` as a recursive definition. */
  function Wrap(text: string, width: nat): seq<string>
    requires width >= 1
  {
    WrapFrom(text, width, 0, 0)
  }

  /** `_word_wrap`: the loop of the firmware, scanning each window for its last space. */
  method WordWrap(text: string, width: nat) returns (lines: seq<string>)
    requires width >= 1
    ensures lines == Wrap(text, width)
    ensures |lines| <= MaxWrapLines
    ensures lines == [] <==> text == []
    ensures forall i :: 0 <= i < |lines| ==> |lines[i]| <= width
  {
    lines := [];
    var pos := 0;
    while pos < |text| && |lines| < MaxWrapLines
      invariant pos <= |text| && |lines| <= MaxWrapLines
      invariant lines + WrapFrom(text, width, pos, |lines|) == Wrap(text, width)
      decreases |text| - pos
    {
      WrapFromStep(text, width, pos, |lines|);
      var line, next := WrapLine(text, width, pos);
      Extend(lines, line, WrapFrom(text, width, next, |lines| + 1));
      lines := lines + [line];
      pos := next;
    }
  }

  /** One pass of the loop body: the whole rest when it fits, otherwise a scan
      of the window for its last space. */
  method WrapLine(text: string, width: nat, pos: nat) returns (line: string, next: nat)
    requires width >= 1 && pos < |text|
    ensures Break(line, next) == NextBreak(text, width, pos)
  {
    if |text| - pos <= width {
      return text[pos..], |text|;
    }
    var breakAt := pos + width;
    var lastSpace := -1;
    var i := pos;
    while i < breakAt
      invariant pos <= i <= breakAt
      invariant lastSpace == LastSpaceIn(text, pos, i)
    {
      if text[i] == ' ' {
        lastSpace := i;
      }
      i := i + 1;
    }
    if lastSpace > pos {
      line, next := text[pos..lastSpace], lastSpace + 1;
    } else {
      line, next := text[pos..breakAt], breakAt;
    }
  }

  lemma WrapFromStep(text: string, width: nat, pos: nat, count: nat)
    requires width >= 1 && pos < |text| && count < MaxWrapLines
    ensures var b := NextBreak(text, width, pos);
      WrapFrom(text, width, pos, count) == [b.line] + WrapFrom(text, width, b.next, count + 1)
  {
  }

  lemma Extend<T>(done: seq<T>, x: T, rest: seq<T>)
    ensures done + ([x] + rest) == (done + [x]) + rest
  {
  }

  /** How a line ends: at the end of the text, at the last space strictly inside
      the window (consuming exactly that space), or hard at the window edge
      when the window has no space after its first character. */
  lemma BreakRule(text: string, width: nat, pos: nat)
    requires width >= 1 && pos < |text|
    ensures var b := NextBreak(text, width, pos);
      || (|text| - pos <= width && b.line == text[pos..] && b.next == |text|)
      || (|text| - pos > width
          && (exists sp ::
                && pos < sp < pos + width && text[sp] == ' '
                && b.line == text[pos..sp] && b.next == sp + 1
                && forall j :: sp < j < pos + width ==> text[j] != ' '))
      || (|text| - pos > width && b.line == text[pos..pos + width] && b.next == pos + width
            && forall j :: pos < j < pos + width ==> text[j] != ' ')
  {
    if |text| - pos > width {
      var sp := LastSpaceIn(text, pos, pos + width);
      if sp > pos {
        assert NextBreak(text, width, pos).line == text[pos..sp];
      }
    }
  }

  /** The lines concatenated. */
  function Concat(lines: seq<string>): (s: string) {
    if lines == [] then "" else lines[0] + Concat(lines[1..])
  }

  /** Without spaces each break is a hard one, `width` characters after the last. */
  lemma NoSpaceBreak(text: string, width: nat, pos: nat)
    requires width >= 1 && pos < |text| && ' ' !in text
    ensures var end := if |text| - pos <= width then |text| else pos + width;
      NextBreak(text, width, pos) == Break(text[pos..end], end)
  {
    if |text| - pos > width {
      var sp := LastSpaceIn(text, pos, pos + width);
      assert sp == -1;
    }
  }

  /** `line` is chunk `i` of `text[pos..]` cut every `width` characters. */
  predicate ChunkAt(text: string, width: nat, pos: nat, i: nat, line: string) {
    pos + i * width < |text| && line == text[pos + i * width..Min(pos + (i + 1) * width, |text|)]
  }

  lemma ChunkFirst(text: string, width: nat, pos: nat, line: string)
    requires pos < |text| && line == text[pos..Min(pos + width, |text|)]
    ensures ChunkAt(text, width, pos, 0, line)
  {
  }

  lemma ChunkShift(text: string, width: nat, pos: nat, k: nat, line: string)
    requires ChunkAt(text, width, pos + width, k, line)
    ensures ChunkAt(text, width, pos, k + 1, line)
  {
    assert pos + width + k * width == pos + (k + 1) * width;
    assert pos + width + (k + 1) * width == pos + (k + 2) * width;
  }

  /** Text without spaces that fits in the line budget comes back whole. */
  lemma {:induction false} NoSpaceWrapFrom(text: string, width: nat, pos: nat, count: nat)
    requires width >= 1 && pos <= |text| && count <= MaxWrapLines && ' ' !in text
    requires |text| - pos <= Budget(MaxWrapLines - count, width)
    ensures Concat(WrapFrom(text, width, pos, count)) == text[pos..]
    decreases |text| - pos
  {
    if pos < |text| {
      NoSpaceBreak(text, width, pos);
      var b := NextBreak(text, width, pos);
      assert count < MaxWrapLines;
      assert Budget(MaxWrapLines - count, width) == Budget(MaxWrapLines - (count + 1), width) + width;
      NoSpaceWrapFrom(text, width, b.next, count + 1);
      WrapFromStep(text, width, pos, count);
      ConcatCons(b.line, WrapFrom(text, width, b.next, count + 1));
      SliceSplit(text, pos, b.next);
    }
  }

  lemma ConcatCons(x: string, rest: seq<string>)
    ensures Concat([x] + rest) == x + Concat(rest)
  {
    assert ([x] + rest)[1..] == rest;
  }

  lemma SliceSplit<T>(s: seq<T>, i: nat, j: nat)
    requires i <= j <= |s|
    ensures s[i..] == s[i..j] + s[j..]
  {
  }

  /** `n * width`, spelled as repeated addition so the induction stays linear. */
  function Budget(n: nat, width: nat): nat {
    if n == 0 then 0 else Budget(n - 1, width) + width
  }

  lemma {:induction false} BudgetIsProduct(n: nat, width: nat)
    ensures Budget(n, width) == n * width
  {
    if n > 0 {
      BudgetIsProduct(n - 1, width);
    }
  }

  /** ... and in `width`-character chunks, the last one possibly shorter. */
  lemma {:induction false} NoSpaceChunk(text: string, width: nat, pos: nat, count: nat, i: nat)
    requires width >= 1 && pos <= |text| && count <= MaxWrapLines && ' ' !in text
    requires i < |WrapFrom(text, width, pos, count)|
    ensures ChunkAt(text, width, pos, i, WrapFrom(text, width, pos, count)[i])
    decreases i
  {
    NoSpaceBreak(text, width, pos);
    var b := NextBreak(text, width, pos);
    var rest := WrapFrom(text, width, b.next, count + 1);
    WrapFromStep(text, width, pos, count);
    if i == 0 {
      ChunkFirst(text, width, pos, b.line);
    } else {
      assert b.next == pos + width;
      NoSpaceChunk(text, width, b.next, count + 1, i - 1);
      ChunkShift(text, width, pos, i - 1, rest[i - 1]);
    }
  }

  function Min(a: int, b: int): int {
    if a <= b then a else b
  }

  /** The no-space case of `_word_wrap` from the start of the text: the lines
      are consecutive `width`-character slices that concatenate to the text. */
  lemma NoSpaceWrap(text: string, width: nat)
    requires width >= 1 && ' ' !in text && |text| <= MaxWrapLines * width
    ensures Concat(Wrap(text, width)) == text
    ensures forall i :: 0 <= i < |Wrap(text, width)| ==>
      i * width < |text| && Wrap(text, width)[i] == text[i * width..Min((i + 1) * width, |text|)]
  {
    BudgetIsProduct(MaxWrapLines, width);
    NoSpaceWrapFrom(text, width, 0, 0);
    assert text[0..] == text;
    forall i | 0 <= i < |Wrap(text, width)|
      ensures i * width < |text| && Wrap(text, width)[i] == text[i * width..Min((i + 1) * width, |text|)]
    {
      NoSpaceChunk(text, width, 0, 0, i);
    }
  }

  // ---------------------------------------------------------------------
  // Monospace layout and equalizer geometry
  // ---------------------------------------------------------------------

  /** Characters per line of the built-in 6x8 font at text size `size`. */
  function CharsPerLine(size: nat): (n: nat)
    ensures n >= 1
    ensures n == 1 || n * CharW * size <= ScreenWidth
    ensures size >= 1 ==> (n + 1) * CharW * size > ScreenWidth
  {
    if size == 0 || ScreenWidth / (CharW * size) < 1 then 1
    else ScreenWidth / (CharW * size)
  }

  /** Pixel height of the wrapped lyric text at text size `size`. */
  function LyricHeight(text: string, size: nat): (h: nat)
    ensures h == 0 <==> text == [] || size == 0
    ensures text != [] ==> CharH * size <= h
    ensures h <= MaxWrapLines * CharH * size
  {
    var lines := Wrap(text, CharsPerLine(size));
    assert text != [] ==> |lines| * (CharH * size) >= CharH * size by {
      if text != [] {
        MulMono(1, |lines|, CharH * size);
      }
    }
    assert |lines| * (CharH * size) <= MaxWrapLines * (CharH * size) by {
      MulMono(|lines|, MaxWrapLines, CharH * size);
    }
    |lines| * CharH * size
  }

  lemma MulMono(a: nat, b: nat, c: nat)
    requires a <= b
    ensures a * c <= b * c
  {
  }

  /** Line `i` of the lyric block is painted when its band meets the lyrics area. */
  predicate LineDrawn(i: nat, lineH: nat, scroll: int) {
    var y := -scroll + i * lineH;
    y + lineH > 0 && y < LyricsAreaHeight
  }

  /** The painted lines are a run of consecutive lines no taller than the area
      plus one line. */
  lemma DrawnLinesContiguous(i: nat, j: nat, k: nat, lineH: nat, scroll: int)
    requires i <= j <= k && LineDrawn(i, lineH, scroll) && LineDrawn(k, lineH, scroll)
    ensures LineDrawn(j, lineH, scroll)
    ensures (k - i) * lineH < LyricsAreaHeight + lineH
  {
    MulMono(i, j, lineH);
    MulMono(j, k, lineH);
    assert (k - i) * lineH == k * lineH - i * lineH;
  }

  /** One equalizer bar: left edge, top edge, width and height in pixels. */
  datatype Rect = Rect(x: int, y: int, w: int, h: int)

  const BarSlot := ScreenWidth / EqBars
  const BarMaxHeight := LyricsAreaHeight - 2

  /** Geometry of bar `i` at level `level` as `_paint_equalizer` fills it. */
  function Bar(i: nat, level: int): Rect {
    var h := level * BarMaxHeight / EqMaxLevel;
    Rect(i * BarSlot + 1, BarMaxHeight - h, BarSlot - 2, h)
  }

  /** Clamped bars stand on y = 46, fit the lyrics area and do not touch
      their neighbours; a higher level never gives a lower bar. */
  lemma BarGeometry(i: nat, level: int, other: int)
    requires i < EqBars && 0 <= level <= EqMaxLevel && level <= other <= EqMaxLevel
    ensures var r := Bar(i, level);
      0 <= r.h <= BarMaxHeight && r.y + r.h == BarMaxHeight && r.y >= 0
      && r.x >= i * BarSlot + 1 && r.x + r.w < (i + 1) * BarSlot && r.x + r.w <= ScreenWidth
      && (level == 0 <==> r.h == 0) && (level == EqMaxLevel ==> r.h == BarMaxHeight)
    ensures Bar(i, level).h <= Bar(i, other).h
  {
    assert level * 46 <= other * 46;
  }

  // ---------------------------------------------------------------------
  // Canvas state
  // ---------------------------------------------------------------------

  /** The state of `_OledCanvas`; the font scale is kept in tenths and the
      two timers as running flags. */
  datatype Canvas = Canvas(
    text: string,
    textSize: nat,
    scaleTenths: int,
    customFont: bool,
    mode: Mode,
    state: PlayState,
    meta: string,
    lyricScroll: int,
    totalHeight: int,
    lyricTimer: bool,
    metaWidth: int,
    metaScrollX: int,
    metaNeedsScroll: bool,
    metaTimer: bool,
    eq: seq<int>)

  function InitialCanvas(): (c: Canvas)
    ensures Valid(c)
  {
    Canvas("", 2, 20, false, LyricsMode, Stopped, "", 0, 0, false, 0, 0, false, false,
           seq(EqBars, _ => 0))
  }

  /** Font scales drawn with the proportional font instead of the built-in one. */
  predicate CustomScale(tenths: int) {
    (14 < tenths < 16) || (24 < tenths < 26)
  }

  /** What every reachable canvas satisfies. */
  predicate Valid(c: Canvas) {
    && 1 <= c.textSize <= 3
    && 10 <= c.scaleTenths <= 30
    && c.customFont == CustomScale(c.scaleTenths)
    && c.lyricScroll >= 0
    && c.totalHeight >= 0
    && c.metaWidth == CharW * |c.meta|
    && c.metaNeedsScroll == (c.metaWidth > MetaAvailWidth)
    && c.metaTimer == c.metaNeedsScroll
    && 0 <= c.metaScrollX < c.metaWidth + MetaScrollGap
    && |c.eq| == EqBars
    && forall i :: 0 <= i < EqBars ==> 0 <= c.eq[i] <= EqMaxLevel
  }

  /** `clear`: no text, scrolled to the top, scroll timer stopped. */
  function Clear(c: Canvas): (r: Canvas)
    ensures r.text == [] && r.lyricScroll == 0 && r.totalHeight == 0 && !r.lyricTimer
    ensures r.(text := c.text, lyricScroll := c.lyricScroll, totalHeight := c.totalHeight,
               lyricTimer := c.lyricTimer) == c
  {
    c.(text := "", lyricScroll := 0, totalHeight := 0, lyricTimer := false)
  }

  /** `set_text`: new text restarts the lyric scroll; the same text changes nothing. */
  function SetText(c: Canvas, text: string): (r: Canvas)
    ensures text == c.text ==> r == c
    ensures text != c.text ==> r == c.(text := text, lyricScroll := 0, totalHeight := 0)
  {
    if text != c.text then c.(text := text, lyricScroll := 0, totalHeight := 0) else c
  }

  /** `set_font_size` with the size in tenths: clamped to 1.0..3.0; the
      built-in font size is the rounded scale unless the proportional font
      takes over. */
  function SetFontSize(c: Canvas, tenths: int): (r: Canvas)
    requires Valid(c)
    ensures 10 <= r.scaleTenths <= 30
    ensures r.scaleTenths == Clamp(tenths, 10, 30)
    ensures r.customFont == CustomScale(r.scaleTenths)
    ensures r.scaleTenths != c.scaleTenths ==> r.lyricScroll == 0
    ensures !r.customFont && r.scaleTenths != c.scaleTenths ==>
      r.textSize * 10 - 5 <= r.scaleTenths < r.textSize * 10 + 5
    ensures r.customFont ==> r.textSize == c.textSize
    ensures r.scaleTenths == c.scaleTenths ==> r == c
  {
    var size := Clamp(tenths, 10, 30);
    if size != c.scaleTenths then
      var custom := CustomScale(size);
      c.(scaleTenths := size, customFont := custom,
         textSize := if custom then c.textSize else (size + 5) / 10,
         lyricScroll := 0)
    else c
  }

  /** `set_mode`: switching mode scrolls the lyrics back to the top. */
  function SetMode(c: Canvas, mode: string): (r: Canvas)
    ensures r.mode == ModeOf(mode)
    ensures r.mode != c.mode ==> r == c.(mode := r.mode, lyricScroll := 0)
    ensures r.mode == c.mode ==> r == c
  {
    var m := ModeOf(mode);
    if m != c.mode then c.(mode := m, lyricScroll := 0) else c
  }

  /** `set_state`. */
  function SetState(c: Canvas, state: string): (r: Canvas)
    ensures r == c.(state := PlayStateOf(state))
  {
    c.(state := PlayStateOf(state))
  }

  /** `set_meta`: six pixels per character; scrolling (and its timer) only
      when the text is wider than the 112 px beside the icon. */
  function SetMeta(c: Canvas, text: string): (r: Canvas)
    ensures text == c.meta ==> r == c
    ensures text != c.meta ==>
      && r.meta == text && r.metaWidth == 6 * |text| && r.metaScrollX == 0
      && (r.metaNeedsScroll <==> |text| > 18) && r.metaTimer == r.metaNeedsScroll
      && r.(meta := c.meta, metaWidth := c.metaWidth, metaScrollX := c.metaScrollX,
            metaNeedsScroll := c.metaNeedsScroll, metaTimer := c.metaTimer) == c
  {
    if text != c.meta then
      var w := CharW * |text|;
      var needs := w > MetaAvailWidth;
      c.(meta := text, metaWidth := w, metaScrollX := 0, metaNeedsScroll := needs, metaTimer := needs)
    else c
  }

  /** `set_equalizer`: the first `min(12, |levels|)` bars take the clamped
      levels; the other bars keep their height. */
  function SetEqualizer(c: Canvas, levels: seq<int>): (r: Canvas)
    requires |c.eq| == EqBars
    ensures |r.eq| == EqBars
    ensures forall i :: 0 <= i < EqBars && i < |levels| ==> r.eq[i] == Clamp(levels[i], 0, EqMaxLevel)
    ensures forall i :: |levels| <= i < EqBars ==> r.eq[i] == c.eq[i]
    ensures r == c.(eq := r.eq)
  {
    c.(eq := seq(EqBars, i requires 0 <= i < EqBars =>
                   if i < |levels| then Clamp(levels[i], 0, EqMaxLevel) else c.eq[i]))
  }

  /** `_update_lyric_scroll_timer`: the timer runs exactly when lyrics taller
      than the area are shown. */
  function UpdateLyricTimer(c: Canvas): (r: Canvas)
    ensures r.lyricTimer <==> c.mode == LyricsMode && c.totalHeight > LyricsAreaHeight && |c.text| > 0
    ensures r == c.(lyricTimer := r.lyricTimer)
  {
    c.(lyricTimer := c.mode == LyricsMode && c.totalHeight > LyricsAreaHeight && |c.text| > 0)
  }

  /** A paint: lyrics mode with text lays the text out, then the scroll timer
      is updated. With the proportional font the line count comes from font
      metrics, given here as `customLines`. */
  function Paint(c: Canvas, customLines: nat): (r: Canvas)
    requires Valid(c)
    ensures c.mode == LyricsMode && c.text != [] && !c.customFont ==>
      r.totalHeight == LyricHeight(c.text, c.textSize)
    ensures c.mode == LyricsMode && c.text != [] && c.customFont ==>
      r.totalHeight == customLines * (if 24 < c.scaleTenths < 26 then 18 else 14)
    ensures c.mode == EqualizerMode || c.text == [] ==> r.totalHeight == c.totalHeight
    ensures r.lyricTimer <==> r.mode == LyricsMode && r.totalHeight > LyricsAreaHeight && r.text != []
    ensures r == c.(totalHeight := r.totalHeight, lyricTimer := r.lyricTimer)
  {
    var laidOut :=
      if c.mode == LyricsMode && c.text != [] then
        if c.customFont then
          c.(totalHeight := customLines * (if 24 < c.scaleTenths < 26 then 18 else 14))
        else
          c.(totalHeight := LyricHeight(c.text, c.textSize))
      else c;
    UpdateLyricTimer(laidOut)
  }

  /** `_on_lyric_scroll`: content that fits stops the timer; otherwise the
      offset moves down 16 px and wraps to the top past the last full screen. */
  function OnLyricScroll(c: Canvas): (r: Canvas)
    requires c.lyricScroll >= 0
    ensures c.totalHeight <= LyricsAreaHeight ==> r == c.(lyricTimer := false)
    ensures c.totalHeight > LyricsAreaHeight ==>
      && 0 <= r.lyricScroll <= c.totalHeight - LyricsAreaHeight
      && (r.lyricScroll == c.lyricScroll + LyricScrollStep || r.lyricScroll == 0)
      && r == c.(lyricScroll := r.lyricScroll)
  {
    if c.totalHeight <= LyricsAreaHeight then c.(lyricTimer := false)
    else
      var maxScroll := c.totalHeight - LyricsAreaHeight;
      var next := c.lyricScroll + LyricScrollStep;
      c.(lyricScroll := if next > maxScroll then 0 else next)
  }

  /** `_on_meta_scroll`: one pixel left per tick, wrapping after text plus gap. */
  function OnMetaScroll(c: Canvas): (r: Canvas)
    requires c.metaWidth >= 0
    ensures !c.metaNeedsScroll ==> r == c
    ensures c.metaNeedsScroll ==>
      && 0 <= r.metaScrollX < c.metaWidth + MetaScrollGap
      && r == c.(metaScrollX := r.metaScrollX)
  {
    if !c.metaNeedsScroll then c
    else c.(metaScrollX := (c.metaScrollX + 1) % (c.metaWidth + MetaScrollGap))
  }

  /** The inputs the canvas reacts to: the serial commands and the timer ticks. */
  datatype Event =
    | ClearCmd
    | TextCmd(text: string)
    | FontSizeCmd(tenths: int)
    | ModeCmd(mode: string)
    | StateCmd(state: string)
    | MetaCmd(meta: string)
    | EqualizerCmd(levels: seq<int>)
    | PaintEvent(customLines: nat)
    | LyricTick
    | MetaTick

  function Step(c: Canvas, e: Event): Canvas
    requires Valid(c)
  {
    match e
    case ClearCmd => Clear(c)
    case TextCmd(t) => SetText(c, t)
    case FontSizeCmd(t) => SetFontSize(c, t)
    case ModeCmd(m) => SetMode(c, m)
    case StateCmd(s) => SetState(c, s)
    case MetaCmd(m) => SetMeta(c, m)
    case EqualizerCmd(l) => SetEqualizer(c, l)
    case PaintEvent(n) => Paint(c, n)
    case LyricTick => OnLyricScroll(c)
    case MetaTick => OnMetaScroll(c)
  }

  /** Every event keeps the canvas valid: bars within 0..12, the meta offset
      inside text plus gap, the meta timer running exactly when the text
      needs scrolling, a non-negative lyric offset and a known text size. */
  lemma StepKeepsValid(c: Canvas, e: Event)
    requires Valid(c)
    ensures Valid(Step(c, e))
  {
    match e
    case FontSizeCmd(t) =>
      var size := Clamp(t, 10, 30);
      if size != c.scaleTenths && !CustomScale(size) {
        assert 1 <= (size + 5) / 10 <= 3;
      }
    case EqualizerCmd(l) =>
      var r := SetEqualizer(c, l);
      forall i | 0 <= i < EqBars
        ensures 0 <= r.eq[i] <= EqMaxLevel
      {
      }
    case _ =>
  }

  /** Any run of events from a valid canvas ends in a valid canvas. */
  function Run(c: Canvas, events: seq<Event>): (r: Canvas)
    requires Valid(c)
    ensures Valid(r)
    decreases |events|
  {
    if events == [] then c
    else
      StepKeepsValid(c, events[0]);
      Run(Step(c, events[0]), events[1..])
  }
}
