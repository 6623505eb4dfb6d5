/**
 The serial link to the ESP32: the newline-terminated command frames the PC
 writes, the framing of the bytes the board sends back, and the link state
 machine driven by open, close, the heartbeat timer and incoming lines.
 Time is an integer number of milliseconds supplied with each event.
 */
module Protocol {
  import opened Options
  import opened Text

  const PingIntervalMs := 2000
  const PongTimeoutMs := 5000
  const MaxEqLevel := 12
  const MinFontTenths := 10
  const MaxFontTenths := 30

  // ---------------------------------------------------------------------
  // Outbound frames
  // ---------------------------------------------------------------------

  /** `s.replace(c, by)` for a single character `c`. */
  function Replace(s: string, c: char, with: string): (r: string)
    ensures c !in with ==> c !in r
    ensures c !in s ==> r == s
    ensures forall x :: x in r ==> x in s || x in with
  {
    if s == [] then ""
    else (if s[0] == c then with else [s[0]]) + Replace(s[1..], c, with)
  }

  lemma {:induction false} ReplaceAppend(a: string, b: string, c: char, with: string)
    ensures Replace(a + b, c, with) == Replace(a, c, with) + Replace(b, c, with)
    decreases |a|
  {
    if a == [] {
      assert a + b == b;
    } else {
      assert (a + b)[1..] == a[1..] + b;
      ReplaceAppend(a[1..], b, c, with);
    }
  }

  /** The payload clean-up of `send_text` and `send_meta`: newlines become
      spaces, carriage returns are dropped. */
  function Clean(text: string): (r: string)
    ensures '\n' !in r && '\r' !in r
  {
    Replace(Replace(text, '\n', " "), '\r', "")
  }

  /** Cleaning works character by character: it distributes over
      concatenation, keeps every other character, maps a newline to a space
      and drops a carriage return; text without either is left alone. */
  lemma CleanSpec(a: string, b: string, c: char)
    ensures Clean(a + b) == Clean(a) + Clean(b)
    ensures c != '\n' && c != '\r' ==> Clean([c]) == [c]
    ensures Clean("\n") == " " && Clean("\r") == ""
    ensures '\n' !in a && '\r' !in a ==> Clean(a) == a
  {
    ReplaceAppend(a, b, '\n', " ");
    ReplaceAppend(Replace(a, '\n', " "), Replace(b, '\n', " "), '\r', "");
  }

  /** The commands the PC sends. */
  datatype Command =
    | ClearCmd
    | PingCmd
    | TextCmd(text: string)
    | FontCmd(tenths: int)
    | StateCmd(state: string)
    | MetaCmd(meta: string)
    | ModeCmd(mode: string)
    | EqualizerCmd(levels: seq<int>)

  /** `send_state`: the three known states, and STOP for anything else. */
  function StateWord(state: string): (w: string)
    ensures w == "PLAY" <==> state == "playing"
    ensures w == "PAUSE" <==> state == "paused"
    ensures w == "STOP" <==> state != "playing" && state != "paused"
  {
    if state == "playing" then "PLAY"
    else if state == "paused" then "PAUSE"
    else "STOP"
  }

  /** `send_mode`: only "equalizer" selects EQ. */
  function ModeWord(mode: string): (w: string)
    ensures w == "EQ" <==> mode == "equalizer"
    ensures w == "LYR" <==> mode != "equalizer"
  {
    if mode == "equalizer" then "EQ" else "LYR"
  }

  function ClampLevel(v: int): (r: nat)
    ensures r <= MaxEqLevel
    ensures 0 <= v <= MaxEqLevel ==> r == v
    ensures v < 0 ==> r == 0
    ensures v > MaxEqLevel ==> r == MaxEqLevel
  {
    if v < 0 then 0 else if v > MaxEqLevel then MaxEqLevel else v
  }

  /** `str(max(0, min(12, v)))` for each level. */
  function LevelWords(levels: seq<int>): (ws: seq<string>)
    ensures |ws| == |levels|
    ensures forall i :: 0 <= i < |ws| ==> ws[i] == NatToString(ClampLevel(levels[i]))
  {
    if levels == [] then [] else [NatToString(ClampLevel(levels[0]))] + LevelWords(levels[1..])
  }

  /** `max(1.0, min(3.0, size))` for a size given in tenths. */
  function ClampTenths(tenths: int): (t: nat)
    ensures MinFontTenths <= t <= MaxFontTenths
    ensures MinFontTenths <= tenths <= MaxFontTenths ==> t == tenths
    ensures tenths < MinFontTenths ==> t == MinFontTenths
    ensures tenths > MaxFontTenths ==> t == MaxFontTenths
  {
    if tenths < MinFontTenths then MinFontTenths
    else if tenths > MaxFontTenths then MaxFontTenths
    else tenths
  }

  /** `send_font_size`'s payload: the size, given in tenths, is clamped to
      1.0..3.0 and written with `%.1f`, a whole digit, a point and one
      tenths digit. */
  function FontWord(tenths: int): (w: string)
    ensures |w| == 3 && IsDigit(w[0]) && w[1] == '.' && IsDigit(w[2])
    ensures '1' <= w[0] <= '3'
    ensures 10 * DigitValue(w[0]) + DigitValue(w[2]) == ClampTenths(tenths)
  {
    var t := ClampTenths(tenths);
    [DigitChar(t / 10), '.', DigitChar(t % 10)]
  }

  /** The font payload splits at its point into two fields that read back
      as the whole and tenths digits of the clamped size. */
  lemma FontWordReadsBack(tenths: int)
    ensures var parts := Split(FontWord(tenths), '.');
      && |parts| == 2
      && ParseInt(parts[0]) == Some(ClampTenths(tenths) / 10)
      && ParseInt(parts[1]) == Some(ClampTenths(tenths) % 10)
      && ParseInt(parts[0]).value * 10 + ParseInt(parts[1]).value == ClampTenths(tenths)
  {
    var t := ClampTenths(tenths);
    var w := FontWord(tenths);
    var whole, frac := NatToString(t / 10), NatToString(t % 10);
    assert whole == [DigitChar(t / 10)] && frac == [DigitChar(t % 10)];
    assert w == Join([whole, frac], ".");
    SplitJoin([whole, frac], '.');
    ParseIntOfNatToString(t / 10);
    ParseIntOfNatToString(t % 10);
  }

  /** The text of a frame before its terminating newline. */
  function Body(c: Command): string {
    match c
    case ClearCmd => "CLR"
    case PingCmd => "PING"
    case TextCmd(t) => "TXT|" + Clean(t)
    case FontCmd(t) => "FONT|" + FontWord(t)
    case StateCmd(s) => "STA|" + StateWord(s)
    case MetaCmd(m) => "META|" + Clean(m)
    case ModeCmd(m) => "MODE|" + ModeWord(m)
    case EqualizerCmd(levels) => "EQ|" + Join(LevelWords(levels), ",")
  }

  /** The bytes `_write` is handed for a command. */
  function Encode(c: Command): (frame: string)
    ensures |frame| >= 1 && frame[|frame| - 1] == '\n'
  {
    Body(c) + "\n"
  }

  lemma {:induction false} JoinHasNoNewline(parts: seq<string>, sep: string)
    requires '\n' !in sep
    requires forall i :: 0 <= i < |parts| ==> '\n' !in parts[i]
    ensures '\n' !in Join(parts, sep)
    decreases |parts|
  {
    if |parts| > 1 {
      JoinHasNoNewline(parts[1..], sep);
    }
  }

  lemma {:induction false} DigitsHaveNoNewline(s: string)
    requires AllDigits(s)
    ensures '\n' !in s
  {
  }

  /** Each frame carries exactly one newline, at its end. */
  lemma OneNewlinePerFrame(c: Command)
    ensures '\n' !in Encode(c)[..|Encode(c)| - 1]
  {
    BodyHasNoNewline(c);
    assert Encode(c)[..|Encode(c)| - 1] == Body(c);
  }

  /** No frame body holds a newline. */
  lemma BodyHasNoNewline(c: Command)
    ensures '\n' !in Body(c)
  {
    match c
    case FontCmd(t) => FontWordPlain(t);
    case EqualizerCmd(levels) => LevelWordsPlain(levels);
    case _ =>
  }

  lemma FontWordPlain(tenths: int)
    ensures '\n' !in FontWord(tenths)
  {
    DigitsHaveNoNewline(FontWord(tenths)[..1]);
    DigitsHaveNoNewline(FontWord(tenths)[2..]);
    assert FontWord(tenths) == FontWord(tenths)[..1] + "." + FontWord(tenths)[2..];
  }

  lemma LevelWordsPlain(levels: seq<int>)
    ensures '\n' !in Join(LevelWords(levels), ",")
  {
    var ws := LevelWords(levels);
    forall i | 0 <= i < |ws|
      ensures '\n' !in ws[i]
    {
      DigitsHaveNoNewline(ws[i]);
    }
    JoinHasNoNewline(ws, ",");
  }

  /** The equalizer payload splits on commas into one field per input level
      (none dropped, none added beyond twelve), and each field reads back as
      the clamped level. An empty level list still yields one empty field. */
  lemma EqualizerPayload(levels: seq<int>)
    ensures levels == [] ==> Split(Join(LevelWords(levels), ","), ',') == [""]
    ensures levels != [] ==> Split(Join(LevelWords(levels), ","), ',') == LevelWords(levels)
    ensures forall i :: 0 <= i < |levels| ==> ParseInt(LevelWords(levels)[i]) == Some(ClampLevel(levels[i]) as int)
  {
    var ws := LevelWords(levels);
    if levels == [] {
      assert Join(ws, ",") == "";
      assert Split("", ',') == [""];
    } else {
      forall i | 0 <= i < |ws|
        ensures ',' !in ws[i]
      {
        NoCommaInDigits(ws[i]);
      }
      SplitJoin(ws, ',');
      forall i | 0 <= i < |levels|
        ensures ParseInt(ws[i]) == Some(ClampLevel(levels[i]) as int)
      {
        ParseIntOfNatToString(ClampLevel(levels[i]));
      }
    }
  }

  lemma {:induction false} NoCommaInDigits(s: string)
    requires AllDigits(s)
    ensures ',' !in s
  {
  }

  // ---------------------------------------------------------------------
  // Inbound framing
  // ---------------------------------------------------------------------

  /** The complete lines of a read and the partial line kept for the next one. */
  datatype Framed = Framed(lines: seq<string>, rest: string)

  /** The inner loop of `_reader_loop`: cut the buffer at each newline, strip
      each complete line, drop blank ones, and keep what follows the last
      newline for the next read. */
  function FrameLines(buffer: string): (r: Framed)
    ensures '\n' !in r.rest
    ensures forall i :: 0 <= i < |r.lines| ==> r.lines[i] != [] && NoSpaceAtEnds(r.lines[i])
    decreases |buffer|
  {
    var i := IndexOf(buffer, '\n');
    if i == |buffer| then
      assert forall c :: c in buffer ==> c != '\n';
      Framed([], buffer)
    else
      var after := FrameLines(buffer[i + 1..]);
      var line := Strip(buffer[..i]);
      if line == [] then after
      else
        CleanCons(line, after.lines);
        Framed([line] + after.lines, after.rest)
  }

  /** A clean line in front of clean lines leaves them all clean. */
  lemma CleanCons(line: string, lines: seq<string>)
    requires line != [] && NoSpaceAtEnds(line)
    requires forall i :: 0 <= i < |lines| ==> lines[i] != [] && NoSpaceAtEnds(lines[i])
    ensures var all := [line] + lines;
            forall i :: 0 <= i < |all| ==> all[i] != [] && NoSpaceAtEnds(all[i])
  {
    var all := [line] + lines;
    assert forall i :: 1 <= i < |all| ==> all[i] == lines[i - 1];
  }

  /** Framing agrees with `str.split("\n")`: the complete lines are every
      piece but the last, stripped and non-blank, and the kept remainder is
      the last piece. */
  lemma {:induction false} FrameLinesSplit(buffer: string)
    ensures var parts := Split(buffer, '\n');
      FrameLines(buffer) == Framed(NonBlankStripped(parts[..|parts| - 1]), parts[|parts| - 1])
    decreases |buffer|
  {
    var i := IndexOf(buffer, '\n');
    if i < |buffer| {
      FrameLinesSplit(buffer[i + 1..]);
      var rest := Split(buffer[i + 1..], '\n');
      assert Split(buffer, '\n') == [buffer[..i]] + rest;
      InitOfCons(buffer[..i], rest);
      NonBlankCons(buffer[..i], rest[..|rest| - 1]);
    } else {
      assert buffer[..i] == buffer;
    }
  }

  lemma InitOfCons<T>(x: T, rest: seq<T>)
    requires rest != []
    ensures var s := [x] + rest;
      s[..|s| - 1] == [x] + rest[..|rest| - 1] && s[|s| - 1] == rest[|rest| - 1]
  {
  }

  lemma NonBlankCons(x: string, xs: seq<string>)
    ensures NonBlankStripped([x] + xs) ==
      (if Strip(x) != [] then [Strip(x)] else []) + NonBlankStripped(xs)
  {
    assert ([x] + xs)[1..] == xs;
  }

  /** Each encoded frame read by the board-side framer is one line, nothing left over. */
  lemma FrameReadsBack(c: Command)
    ensures FrameLines(Encode(c)) == Framed([Strip(Body(c))], "")
  {
    BodyHasNoNewline(c);
    BodyNotBlank(c);
    OneLineFrame(Body(c));
  }

  lemma OneLineFrame(b: string)
    requires '\n' !in b && Strip(b) != []
    ensures FrameLines(b + "\n") == Framed([Strip(b)], "")
  {
    var f := b + "\n";
    IndexOfAfter(b, '\n', "");
    assert f == b + ['\n'] + "";
    assert f[..|b|] == b;
    assert f[|b| + 1..] == "";
    assert FrameLines("") == Framed([], "");
    assert [Strip(b)] + [] == [Strip(b)];
  }

  /** Every body starts with its command word, so it is never blank. */
  lemma BodyNotBlank(c: Command)
    ensures Strip(Body(c)) != []
  {
    var b := Body(c);
    assert !IsSpace(b[0]);
    StripBlank(b);
  }

  // ---------------------------------------------------------------------
  // Link state machine
  // ---------------------------------------------------------------------

  /** What `SerialConnection` remembers: the port, whether the reader runs
      and the port is open, whether the board answered, the time of the last
      PONG, whether the ping timer runs, whether a deferred close is
      scheduled, and the reader's partial-line buffer. */
  datatype Link = Link(
    port: string,
    baud: int,
    running: bool,
    open: bool,
    connected: bool,
    lastPongMs: int,
    pingTimer: bool,
    closePending: bool,
    buffer: string)

  datatype Signal = Connected | Disconnected | ButtonPress | ButtonLong | Error(message: string)

  /** Everything observable a handler does: a signal or bytes written to the port. */
  datatype Out = Emit(signal: Signal) | Wrote(data: string)

  datatype Stepped = Stepped(link: Link, outs: seq<Out>)

  const InitialLink := Link("", 115200, false, false, false, 0, false, false, "")

  /** What holds between events: the reader runs exactly while the port is
      open and the ping timer runs, the board can only be connected while the
      reader runs, and the buffer never holds a complete line. */
  predicate Valid(l: Link) {
    && l.open == l.running
    && l.pingTimer == l.running
    && (l.connected ==> l.running)
    && '\n' !in l.buffer
  }

  /** `_write`: bytes reach the port only while it is open. */
  function Write(l: Link, data: string): (outs: seq<Out>)
    ensures outs == (if l.open then [Wrote(data)] else [])
  {
    if l.open then [Wrote(data)] else []
  }

  /** `close_port`. */
  function ClosePort(l: Link): (r: Stepped)
    ensures !r.link.running && !r.link.open && !r.link.connected && !r.link.pingTimer
    ensures r.outs == (if l.connected then [Emit(Disconnected)] else [])
    ensures r.link == l.(running := false, open := false, connected := false, pingTimer := false)
  {
    Stepped(l.(running := false, open := false, connected := false, pingTimer := false),
            if l.connected then [Emit(Disconnected)] else [])
  }

  /** Closing twice: the second close changes nothing and emits nothing. */
  lemma CloseTwice(l: Link)
    ensures ClosePort(ClosePort(l).link) == Stepped(ClosePort(l).link, [])
  {
  }

  datatype Opened = Opened(link: Link, outs: seq<Out>, ok: bool)

  /** `open_port`: close first, then either the port opens (reader running,
      heartbeat clock reset, one PING written) or an error names the port.
      Opening never marks the board connected; that waits for a PONG.
      Whether the OS opens the port, and its error text, are inputs. */
  function OpenPort(l: Link, port: string, baud: int, opens: bool, reason: string, nowMs: int): (r: Opened)
    ensures !r.link.connected
    ensures r.link.port == port
    ensures !r.ok ==> (!r.link.running && !r.link.open
                       && r.outs == ClosePort(l).outs + [Emit(Error("Cannot open " + port + ": " + reason))])
    ensures r.ok ==> (r.link.running && r.link.open && r.link.pingTimer
                      && r.link.lastPongMs == nowMs && r.link.buffer == []
                      && r.outs == ClosePort(l).outs + [Wrote("PING\n")])
    ensures r.ok == opens
  {
    var closed := ClosePort(l);
    var l1 := closed.link.(port := port, baud := baud);
    if !opens then
      Opened(l1, closed.outs + [Emit(Error("Cannot open " + port + ": " + reason))], false)
    else
      var l2 := l1.(running := true, open := true, lastPongMs := nowMs, pingTimer := true, buffer := "");
      Opened(l2, closed.outs + Write(l2, "PING\n"), true)
  }

  /** A failed open's error message names the port. */
  lemma OpenErrorNamesPort(l: Link, port: string, baud: int, reason: string, nowMs: int)
    ensures var r := OpenPort(l, port, baud, false, reason, nowMs);
      exists m :: r.outs[|r.outs| - 1] == Emit(Error(m)) && Contains(m, port)
  {
    var m := "Cannot open " + port + ": " + reason;
    assert m[12..12 + |port|] == port;
    ContainsAt(m, port, 12);
  }

  /** `_send_ping`: nothing when the reader is stopped; otherwise a PING, and
      after more than five seconds without a PONG the link is marked not
      connected, an error is emitted and a close is scheduled. */
  function SendPing(l: Link, nowMs: int): (r: Stepped)
    ensures !l.running ==> r == Stepped(l, [])
    ensures l.running && nowMs - l.lastPongMs <= PongTimeoutMs ==> r == Stepped(l, Write(l, "PING\n"))
    ensures l.running && nowMs - l.lastPongMs > PongTimeoutMs ==>
      r == Stepped(l.(connected := false, closePending := true),
                   Write(l, "PING\n") + [Emit(Error("No response from " + l.port))])
  {
    if !l.running then Stepped(l, [])
    else
      var w := Write(l, "PING\n");
      if nowMs - l.lastPongMs > PongTimeoutMs then
        Stepped(l.(connected := false, closePending := true), w + [Emit(Error("No response from " + l.port))])
      else Stepped(l, w)
  }

  /** The scheduled single-shot close. */
  function DeferredClose(l: Link): (r: Stepped)
    ensures r == Stepped(ClosePort(l).link.(closePending := false), ClosePort(l).outs)
  {
    var c := ClosePort(l);
    Stepped(c.link.(closePending := false), c.outs)
  }

  /** `_process_line`. */
  function ProcessLine(l: Link, line: string, nowMs: int): (r: Stepped)
    ensures line == "PONG" ==> r.link == l.(lastPongMs := nowMs, connected := true)
    ensures line == "PONG" ==> r.outs == (if l.connected then [] else [Emit(Connected)])
    ensures line == "BTN|PRESS" ==> r == Stepped(l, [Emit(ButtonPress)])
    ensures line == "BTN|LONG" ==> r == Stepped(l, [Emit(ButtonLong)])
    ensures line !in {"PONG", "BTN|PRESS", "BTN|LONG"} ==> r == Stepped(l, [])
  {
    if line == "PONG" then
      Stepped(l.(lastPongMs := nowMs, connected := true), if l.connected then [] else [Emit(Connected)])
    else if line == "BTN|PRESS" then Stepped(l, [Emit(ButtonPress)])
    else if line == "BTN|LONG" then Stepped(l, [Emit(ButtonLong)])
    else Stepped(l, [])
  }

  /** Lines handled in order, their outputs concatenated. */
  function Dispatch(l: Link, lines: seq<string>, nowMs: int): (r: Stepped)
    ensures r.link.connected <==> l.connected || "PONG" in lines
    ensures r.link.running == l.running && r.link.open == l.open && r.link.buffer == l.buffer
    ensures r.link.pingTimer == l.pingTimer && r.link.port == l.port
    decreases |lines|
  {
    if lines == [] then Stepped(l, [])
    else
      var first := ProcessLine(l, lines[0], nowMs);
      var rest := Dispatch(first.link, lines[1..], nowMs);
      assert "PONG" in lines <==> lines[0] == "PONG" || "PONG" in lines[1..] by {
        assert lines == [lines[0]] + lines[1..];
      }
      Stepped(rest.link, first.outs + rest.outs)
  }

  /** One read by the reader thread: only while it runs and the port is open;
      an empty read changes nothing. */
  function ReadChunk(l: Link, chunk: string, nowMs: int): (r: Stepped)
    requires Valid(l)
    ensures !l.running || chunk == [] ==> r == Stepped(l, [])
    ensures l.running && chunk != [] ==>
      var f := FrameLines(l.buffer + chunk);
      r == Dispatch(l.(buffer := f.rest), f.lines, nowMs)
  {
    if !l.running || !l.open || chunk == [] then Stepped(l, [])
    else
      var f := FrameLines(l.buffer + chunk);
      Dispatch(l.(buffer := f.rest), f.lines, nowMs)
  }

  datatype Event =
    | OpenEvent(port: string, baud: int, opens: bool, reason: string)
    | CloseEvent
    | PingTick
    | CloseTimerFires
    | Chunk(data: string)

  function Step(l: Link, e: Event, nowMs: int): Stepped
    requires Valid(l)
  {
    match e
    case OpenEvent(p, b, o, why) =>
      var r := OpenPort(l, p, b, o, why, nowMs);
      Stepped(r.link, r.outs)
    case CloseEvent => ClosePort(l)
    case PingTick => SendPing(l, nowMs)
    case CloseTimerFires => DeferredClose(l)
    case Chunk(d) => ReadChunk(l, d, nowMs)
  }

  /** Every event keeps the link valid. */
  lemma StepKeepsValid(l: Link, e: Event, nowMs: int)
    requires Valid(l)
    ensures Valid(Step(l, e, nowMs).link)
  {
    match e
    case Chunk(d) =>
      if l.running && d != [] {
        var f := FrameLines(l.buffer + d);
        var r := Dispatch(l.(buffer := f.rest), f.lines, nowMs);
        assert r.link.connected ==> r.link.running;
      }
    case _ =>
  }

  /** The heartbeat timeout path: the ping clears `connected` before the
      scheduled close runs, so the link ends closed and not connected having
      emitted an error but never `Disconnected`. */
  lemma TimeoutClosesSilently(l: Link, nowMs: int)
    requires Valid(l) && l.running && nowMs - l.lastPongMs > PongTimeoutMs
    ensures var p := SendPing(l, nowMs);
      var c := DeferredClose(p.link);
      && !c.link.connected && !c.link.running && !c.link.open
      && Emit(Disconnected) !in p.outs + c.outs
      && Emit(Error("No response from " + l.port)) in p.outs
  {
    var p := SendPing(l, nowMs);
    assert p.outs[|p.outs| - 1] == Emit(Error("No response from " + l.port));
  }

  /** By contrast an explicit close of a connected link reports the loss. */
  lemma CloseReportsLoss(l: Link)
    requires l.connected
    ensures ClosePort(l).outs == [Emit(Disconnected)]
  {
  }
}
