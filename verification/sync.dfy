/**
 The main window's playback-to-display synchronisation (`app/ui/main_window.py`).

 The window's mutable fields become an `Engine` record and each handler a
 function from the engine (plus the inputs it reads: configuration, link
 state, player position, files on disk) to a `Reaction`: the next engine and
 the effects the handler performs, in order. Effects are the commands written
 to the device, the calls made on the on-screen simulator, and the player and
 playback-control calls the handlers make.
 */
module Sync {
  import opened Options
  import opened Text
  import Lyrics
  import Protocol
  import Oled

  /** A `tracks` row as the window holds it. */
  datatype Track = Track(id: int, title: string, artist: string,
                         audioPath: string, srtPath: string, lyricOffsetMs: int)

  /** What the handlers read but do not own: the configured display mode and
      global offset, and whether the serial link is connected. */
  datatype Env = Env(displayMode: string, globalOffsetMs: int, connected: bool)

  /** The file system as `_load_and_play` sees it: which audio files exist,
      and the parsed lyrics of every subtitle file that exists. */
  datatype Disk = Disk(audioFiles: set<string>, lyricFiles: map<string, seq<Lyrics.LyricLine>>)

  datatype Effect =
    | Serial(cmd: Protocol.Command)   // written to the device when connected
    | Sim(ev: Oled.Event)             // mirrored to the simulator
    | ShowLyric(text: string)         // the lyric label under the controls
    | PlayAudio(path: string)         // player.load_and_play
    | AudioMissing(path: string)      // the "Audio file missing" warning
    | StopAudio                       // player.stop
    | SeekTo(ms: int)                 // player.seek
    | Resume                          // player.play
    | ShowPlaying(playing: bool)      // controls.set_playing
    | ShowNowPlaying(title: string, artist: string)  // controls.set_now_playing
    | ClearControls                   // controls.clear
    | ShowPosition(ms: int)           // controls.set_position
    | RefreshLevels                   // _send_equalizer_levels is due

  datatype Engine = Engine(
    current: Option<Track>,
    lyrics: seq<Lyrics.LyricLine>,
    lastIdx: int,
    trackOffsetMs: int,
    inGap: bool,
    queue: seq<Track>,
    queuePos: int,
    repeat: string,
    playlistId: Option<int>)

  datatype Reaction = Reaction(engine: Engine, effects: seq<Effect>)

  /** The queue position indexes the queue whenever the queue is non-empty. */
  predicate Valid(e: Engine) {
    e.queue == [] || 0 <= e.queuePos < |e.queue|
  }

  const InitialEngine := Engine(None, [], -1, 0, false, [], -1, "off", None)

  /** A TXT or CLR command: the device's lyric line changes. */
  predicate IsLineCmd(x: Effect) {
    x.Serial? && (x.cmd.TextCmd? || x.cmd.ClearCmd?)
  }

  predicate SendsLine(fx: seq<Effect>) {
    exists i :: 0 <= i < |fx| && IsLineCmd(fx[i])
  }

  // ----- _build_meta_text --------------------------------------------------

  const MetaSeparator: string := " – "

  /** `artist – title` with both parts stripped, or just the stripped title
      when the stripped artist is empty. */
  function BuildMeta(title: string, artist: string): (meta: string)
    ensures Strip(artist) == [] ==> meta == Strip(title)
    ensures Strip(artist) != [] ==> |meta| == |Strip(artist)| + 3 + |Strip(title)|
  {
    var a := Strip(artist);
    var t := Strip(title);
    if a != [] then a + MetaSeparator + t else t
  }

  /** The status line can be taken apart again: when the artist holds no en
      dash, the first en dash of the meta text sits right after the artist,
      and the text around the separator is the stripped artist and title. */
  lemma MetaSplitsBack(title: string, artist: string)
    requires Strip(artist) != [] && '–' !in artist
    ensures var meta := BuildMeta(title, artist);
            var d := IndexOf(meta, '–');
            && d == |Strip(artist)| + 1
            && meta[..d - 1] == Strip(artist)
            && meta[d + 2..] == Strip(title)
  {
    StripIsInfix(artist);
    SeparatorSplits(Strip(artist), Strip(title));
  }

  /** The separator after an artist free of en dashes marks where it ends. */
  lemma SeparatorSplits(a: string, t: string)
    requires '–' !in a
    ensures IndexOf(a + MetaSeparator + t, '–') == |a| + 1
    ensures (a + MetaSeparator + t)[..|a|] == a
    ensures (a + MetaSeparator + t)[|a| + 3..] == t
  {
    var m := a + MetaSeparator + t;
    assert m == (a + [' ']) + ['–'] + ([' '] + t);
    IndexOfAfter(a + [' '], '–', [' '] + t);
  }

  /** Stripping only removes characters. */
  lemma StripIsInfix(s: string)
    ensures forall c :: c in Strip(s) ==> c in s
  {
    forall c | c in Strip(s) ensures c in s {
      StripKeepsChars(s, c);
    }
  }

  lemma StripKeepsChars(s: string, c: char)
    requires c in Strip(s)
    ensures c in s
  {
    var r := Strip(s);
    var i :| 0 <= i < |r| && r[i] == c;
    LStripChars(RStrip(s), c);
    RStripChars(s, c);
  }

  lemma {:induction false} LStripChars(s: string, c: char)
    ensures c in LStrip(s) ==> c in s
    decreases |s|
  {
    if s != [] && IsSpace(s[0]) {
      LStripChars(s[1..], c);
    }
  }

  lemma {:induction false} RStripChars(s: string, c: char)
    ensures c in RStrip(s) ==> c in s
    decreases |s|
  {
    if s != [] && IsSpace(s[|s| - 1]) {
      RStripChars(s[..|s| - 1], c);
    }
  }

  // ----- _gap_until_next_lyric ---------------------------------------------

  /** The first line from `from` on, in list order, that starts after
      `adjusted`; `|lyrics|` when there is none. */
  function FirstAfter(lyrics: seq<Lyrics.LyricLine>, adjusted: int, from: nat): (i: nat)
    requires from <= |lyrics|
    ensures from <= i <= |lyrics|
    ensures forall j :: from <= j < i ==> lyrics[j].startMs <= adjusted
    ensures i < |lyrics| ==> lyrics[i].startMs > adjusted
    decreases |lyrics| - from
  {
    if from == |lyrics| || lyrics[from].startMs > adjusted then from
    else FirstAfter(lyrics, adjusted, from + 1)
  }

  /** Milliseconds from `position - offset` to the start of the first line,
      in list order, that starts after it; `-1` when there is none. The
      result is never 0: it is either `-1` or positive. */
  function GapUntilNext(lyrics: seq<Lyrics.LyricLine>, position: int, offset: int): (gap: int)
    ensures gap == -1 <==> forall i :: 0 <= i < |lyrics| ==> lyrics[i].startMs <= position - offset
    ensures gap != -1 ==>
              && gap > 0
              && exists i :: 0 <= i < |lyrics| && lyrics[i].startMs == position - offset + gap
                             && forall j :: 0 <= j < i ==> lyrics[j].startMs <= position - offset
  {
    var i := FirstAfter(lyrics, position - offset, 0);
    if i == |lyrics| then -1 else lyrics[i].startMs - (position - offset)
  }

  // ----- _sync_lyrics ------------------------------------------------------

  datatype Gapped = Gapped(inGap: bool, effects: seq<Effect>)

  /** The gap-to-equalizer switch: in lyrics mode, an empty line starts a gap
      when no line follows or the next one is more than 300 ms away, and a
      non-empty line ends it; each switch sends the new mode. */
  function GapSwitch(e: Engine, env: Env, position: int, offset: int, text: string): (g: Gapped)
    ensures env.displayMode != "lyrics" ==> g == Gapped(e.inGap, [])
    ensures env.displayMode == "lyrics" ==>
              g.inGap == (if text == [] then e.inGap || GapUntilNext(e.lyrics, position, offset) < 0
                                                     || GapUntilNext(e.lyrics, position, offset) > 300
                          else false)
    ensures g.inGap == e.inGap <==> g.effects == []
    ensures forall i :: 0 <= i < |g.effects| ==> !IsLineCmd(g.effects[i])
  {
    if env.displayMode != "lyrics" then Gapped(e.inGap, [])
    else if text == [] && !e.inGap then
      var gap := GapUntilNext(e.lyrics, position, offset);
      if gap < 0 || gap > 300 then
        Gapped(true, (if env.connected then [Serial(Protocol.ModeCmd("equalizer"))] else [])
                     + [Sim(Oled.ModeCmd("equalizer"))])
      else Gapped(false, [])
    else if text != [] && e.inGap then
      Gapped(false, (if env.connected then [Serial(Protocol.ModeCmd("lyrics"))] else [])
                    + [Sim(Oled.ModeCmd("lyrics"))])
    else Gapped(e.inGap, [])
  }

  /** The commands for a changed line: TXT or CLR to the device unless in a
      gap, and the simulator's text (or clear, unless in a gap). */
  function LineEffects(env: Env, text: string, inGap: bool): (fx: seq<Effect>)
    ensures SendsLine(fx) <==> env.connected && !inGap
  {
    var device := if env.connected && !inGap then
                    [Serial(if text != [] then Protocol.TextCmd(text) else Protocol.ClearCmd)]
                  else [];
    var sim := if text != [] then [Sim(Oled.TextCmd(text))]
               else if !inGap then [Sim(Oled.ClearCmd)]
               else [];
    var fx := device + sim;
    if env.connected && !inGap then
      assert IsLineCmd(fx[0]);
      fx
    else
      assert forall i :: 0 <= i < |fx| ==> fx[i] == sim[i];
      fx
  }

  /** `_sync_lyrics` at player position `position`. */
  function SyncLyrics(e: Engine, env: Env, position: int): (r: Reaction)
    ensures e.lyrics == [] ==> r == Reaction(e, [])
    ensures r.engine == e.(inGap := r.engine.inGap, lastIdx := r.engine.lastIdx)
  {
    if e.lyrics == [] then Reaction(e, [])
    else
      var offset := e.trackOffsetMs + env.globalOffsetMs;
      var hit := Lyrics.LyricAt(e.lyrics, position, offset);
      Show(e, env, hit, GapSwitch(e, env, position, offset, hit.text))
  }

  /** The part of `_sync_lyrics` after the lookup and the gap switch: the
      line goes to the screen on every tick, and to the device only when
      its index changed. */
  function Show(e: Engine, env: Env, hit: Lyrics.Lookup, g: Gapped): (r: Reaction)
    ensures r.engine == e.(inGap := g.inGap, lastIdx := hit.index)
            || (hit.index == e.lastIdx && r.engine == e.(inGap := g.inGap))
  {
    var shown := [ShowLyric(hit.text)] + g.effects;
    if hit.index != e.lastIdx then
      Reaction(e.(inGap := g.inGap, lastIdx := hit.index), shown + LineEffects(env, hit.text, g.inGap))
    else
      Reaction(e.(inGap := g.inGap), shown)
  }

  /** Only a changed index outside a gap reaches the device's line. */
  lemma ShowGating(e: Engine, env: Env, hit: Lyrics.Lookup, g: Gapped)
    requires forall i :: 0 <= i < |g.effects| ==> !IsLineCmd(g.effects[i])
    ensures var r := Show(e, env, hit, g);
            && r.engine.lastIdx == hit.index && r.engine.inGap == g.inGap
            && (SendsLine(r.effects) <==> hit.index != e.lastIdx && env.connected && !g.inGap)
  {
    var shown := [ShowLyric(hit.text)] + g.effects;
    NoLineInShown(hit.text, g);
    if hit.index != e.lastIdx {
      SendsLineAppend(shown, LineEffects(env, hit.text, g.inGap));
    }
  }

  lemma NoLineInShown(text: string, g: Gapped)
    requires forall i :: 0 <= i < |g.effects| ==> !IsLineCmd(g.effects[i])
    ensures !SendsLine([ShowLyric(text)] + g.effects)
  {
    var fx := [ShowLyric(text)] + g.effects;
    assert forall i :: 1 <= i < |fx| ==> fx[i] == g.effects[i - 1];
  }

  /** Hysteresis of the gap flag, in lyrics mode with lyrics loaded: it is set
      only on an empty line whose next line is absent or more than 300 ms
      away, and cleared only on a non-empty line. Otherwise it is untouched. */
  lemma GapHysteresis(e: Engine, env: Env, position: int)
    ensures var r := SyncLyrics(e, env, position);
            var offset := e.trackOffsetMs + env.globalOffsetMs;
            var text := Lyrics.LyricAt(e.lyrics, position, offset).text;
            var gap := GapUntilNext(e.lyrics, position, offset);
            && (env.displayMode != "lyrics" || e.lyrics == [] ==> r.engine.inGap == e.inGap)
            && (env.displayMode == "lyrics" && e.lyrics != [] ==>
                  && (!e.inGap && r.engine.inGap ==> text == [] && (gap == -1 || gap > 300))
                  && (e.inGap && !r.engine.inGap ==> text != [])
                  && (text == [] && (gap == -1 || gap > 300) ==> r.engine.inGap)
                  && (text != [] ==> !r.engine.inGap))
  {
    if e.lyrics != [] {
      var offset := e.trackOffsetMs + env.globalOffsetMs;
      var hit := Lyrics.LyricAt(e.lyrics, position, offset);
      var g := GapSwitch(e, env, position, offset, hit.text);
      assert SyncLyrics(e, env, position) == Show(e, env, hit, g);
      assert Show(e, env, hit, g).engine.inGap == g.inGap;
    }
  }

  /** The device's line changes only when the resolved index differs from the
      last one sent, never during a gap, and the index is then remembered. */
  lemma LineGating(e: Engine, env: Env, position: int)
    requires e.lyrics != []
    ensures var r := SyncLyrics(e, env, position);
            var hit := Lyrics.LyricAt(e.lyrics, position, e.trackOffsetMs + env.globalOffsetMs);
            && r.engine.lastIdx == hit.index
            && (SendsLine(r.effects) <==> hit.index != e.lastIdx && env.connected && !r.engine.inGap)
  {
    var offset := e.trackOffsetMs + env.globalOffsetMs;
    var hit := Lyrics.LyricAt(e.lyrics, position, offset);
    ShowGating(e, env, hit, GapSwitch(e, env, position, offset, hit.text));
  }

  lemma SendsLineAppend(a: seq<Effect>, b: seq<Effect>)
    requires !SendsLine(a)
    ensures SendsLine(a + b) <==> SendsLine(b)
  {
    if SendsLine(a + b) {
      var i :| 0 <= i < |a + b| && IsLineCmd((a + b)[i]);
      if i >= |a| {
        assert b[i - |a|] == (a + b)[i];
      }
    }
    if SendsLine(b) {
      var i :| 0 <= i < |b| && IsLineCmd(b[i]);
      assert (a + b)[|a| + i] == b[i];
    }
  }

  /** `_on_position`: the controls show the position, then the lyrics sync. */
  function OnPosition(e: Engine, env: Env, position: int): (r: Reaction)
    ensures |r.effects| >= 1 && r.effects[0] == ShowPosition(position)
    ensures e.lyrics == [] ==> r == Reaction(e, [ShowPosition(position)])
    ensures r.engine == e.(inGap := r.engine.inGap, lastIdx := r.engine.lastIdx)
  {
    var s := SyncLyrics(e, env, position);
    Reaction(s.engine, [ShowPosition(position)] + s.effects)
  }

  /** A position tick changes the device's line exactly as the sync does:
      the index is remembered, and a line is sent only when it changed, the
      link is up and no gap holds. */
  lemma OnPositionGating(e: Engine, env: Env, position: int)
    requires e.lyrics != []
    ensures var r := OnPosition(e, env, position);
            var hit := Lyrics.LyricAt(e.lyrics, position, e.trackOffsetMs + env.globalOffsetMs);
            && r.engine.lastIdx == hit.index
            && (SendsLine(r.effects) <==> hit.index != e.lastIdx && env.connected && !r.engine.inGap)
  {
    LineGating(e, env, position);
    assert !SendsLine([ShowPosition(position)]);
    SendsLineAppend([ShowPosition(position)], SyncLyrics(e, env, position).effects);
  }

  /** The lookup adds the offset but the gap measure subtracts it. With a line
      at 1000-2000 ms, position 0 and offset +800, the lookup time is 800 ms,
      200 ms before the line; yet the gap measured is 1800 ms, so the display
      switches to the equalizer. */
  lemma GapSignWitness()
    ensures var lyrics := [Lyrics.LyricLine(1, 1000, 2000, "a")];
            var e := InitialEngine.(lyrics := lyrics, trackOffsetMs := 800);
            var env := Env("lyrics", 0, true);
            && Lyrics.LyricAt(lyrics, 0, 800).index == -1
            && lyrics[0].startMs - (0 + 800) == 200
            && GapUntilNext(lyrics, 0, 800) == 1800
            && SyncLyrics(e, env, 0).engine.inGap
  {
  }

  // ----- _load_and_play / _stop --------------------------------------------

  /** `_load_and_play`: the per-track state is reset; lyrics come from the
      subtitle file when it exists; a missing audio file only warns;
      otherwise playback starts, the controls show the track, and the
      device (when connected) and the simulator are cleared and given the
      configured mode and the meta text. */
  function LoadAndPlay(e: Engine, env: Env, disk: Disk, track: Track): (r: Reaction)
    ensures r.engine.current == Some(track) && r.engine.trackOffsetMs == track.lyricOffsetMs
    ensures r.engine.lastIdx == -1 && !r.engine.inGap
    ensures r.engine.lyrics == (if track.srtPath != [] && track.srtPath in disk.lyricFiles
                                then disk.lyricFiles[track.srtPath] else [])
    ensures r.engine.queue == e.queue && r.engine.queuePos == e.queuePos && r.engine.repeat == e.repeat
    ensures r.engine.playlistId == e.playlistId
    ensures track.audioPath == [] || track.audioPath !in disk.audioFiles ==> r.effects == [AudioMissing(track.audioPath)]
    ensures track.audioPath != [] && track.audioPath in disk.audioFiles ==>
              var meta := BuildMeta(track.title, track.artist);
              && |r.effects| >= 5 && r.effects[0] == PlayAudio(track.audioPath)
              && r.effects[1] == ShowNowPlaying(track.title, track.artist)
              && r.effects[|r.effects| - 3..] == [Sim(Oled.ClearCmd), Sim(Oled.ModeCmd(env.displayMode)), Sim(Oled.MetaCmd(meta))]
              && (Serial(Protocol.ClearCmd) in r.effects <==> env.connected)
              && (Serial(Protocol.ModeCmd(env.displayMode)) in r.effects <==> env.connected)
              && (Serial(Protocol.MetaCmd(meta)) in r.effects <==> env.connected)
  {
    var lyrics := if track.srtPath != [] && track.srtPath in disk.lyricFiles
                  then disk.lyricFiles[track.srtPath] else [];
    var e1 := e.(current := Some(track), trackOffsetMs := track.lyricOffsetMs,
                 lastIdx := -1, inGap := false, lyrics := lyrics);
    if track.audioPath == [] || track.audioPath !in disk.audioFiles then
      Reaction(e1, [AudioMissing(track.audioPath)])
    else
      Reaction(e1, StartEffects(env, track, BuildMeta(track.title, track.artist)))
  }

  /** The effects of starting a track whose audio exists: play it, show it
      on the controls, then clear the device (when connected) and the
      simulator and give them the mode and the meta text. */
  function StartEffects(env: Env, track: Track, meta: string): (fx: seq<Effect>)
    ensures |fx| >= 5 && fx[0] == PlayAudio(track.audioPath)
    ensures fx[1] == ShowNowPlaying(track.title, track.artist)
    ensures fx[|fx| - 3..] == [Sim(Oled.ClearCmd), Sim(Oled.ModeCmd(env.displayMode)), Sim(Oled.MetaCmd(meta))]
    ensures Serial(Protocol.ClearCmd) in fx <==> env.connected
    ensures Serial(Protocol.ModeCmd(env.displayMode)) in fx <==> env.connected
    ensures Serial(Protocol.MetaCmd(meta)) in fx <==> env.connected
  {
    var shown := [PlayAudio(track.audioPath), ShowNowPlaying(track.title, track.artist)];
    var sim := [Sim(Oled.ClearCmd), Sim(Oled.ModeCmd(env.displayMode)), Sim(Oled.MetaCmd(meta))];
    var device := if env.connected then
                    [Serial(Protocol.ClearCmd), Serial(Protocol.ModeCmd(env.displayMode)), Serial(Protocol.MetaCmd(meta))]
                  else [];
    var fx := shown + device + sim;
    assert fx[|fx| - 3..] == sim;
    SerialOnlyFrom(shown, device, sim, Serial(Protocol.ClearCmd));
    SerialOnlyFrom(shown, device, sim, Serial(Protocol.ModeCmd(env.displayMode)));
    SerialOnlyFrom(shown, device, sim, Serial(Protocol.MetaCmd(meta)));
    fx
  }

  /** Device commands in a list of effects come only from its device part. */
  lemma SerialOnlyFrom(pre: seq<Effect>, device: seq<Effect>, post: seq<Effect>, x: Effect)
    requires x.Serial?
    requires forall i :: 0 <= i < |pre| ==> !pre[i].Serial?
    requires forall i :: 0 <= i < |post| ==> !post[i].Serial?
    ensures x in pre + device + post <==> x in device
  {
    assert x !in pre && x !in post;
  }

  /** A newly loaded track has no line sent yet, so the first position tick
      with an active line sends it whenever the link is up and no gap holds. */
  lemma LoadThenSync(e: Engine, env: Env, disk: Disk, track: Track, position: int)
    requires track.srtPath != [] && track.srtPath in disk.lyricFiles && disk.lyricFiles[track.srtPath] != []
    ensures var l := LoadAndPlay(e, env, disk, track).engine;
            var hit := Lyrics.LyricAt(l.lyrics, position, track.lyricOffsetMs + env.globalOffsetMs);
            var r := OnPosition(l, env, position);
            && r.engine.lastIdx == hit.index
            && (SendsLine(r.effects) <==> hit.index != -1 && env.connected && !r.engine.inGap)
  {
    OnPositionGating(LoadAndPlay(e, env, disk, track).engine, env, position);
  }

  /** `_stop`: playback stops, the controls and the lyric label are cleared,
      the device (when connected) is cleared and told the stopped state and,
      in lyrics mode, the lyrics mode; the simulator mirrors it; the track is
      dropped and the per-track sync state reset. */
  function Stop(e: Engine, env: Env): (r: Reaction)
    ensures r.engine.current == None && r.engine.lastIdx == -1 && !r.engine.inGap
    ensures r.engine == e.(current := None, lastIdx := -1, inGap := false)
    ensures |r.effects| >= 6 && r.effects[..3] == [StopAudio, ClearControls, ShowLyric("")]
    ensures r.effects[|r.effects| - 3..] ==
              [Sim(Oled.ClearCmd), Sim(Oled.StateCmd("stopped")), Sim(Oled.ModeCmd(env.displayMode))]
    ensures Serial(Protocol.ClearCmd) in r.effects <==> env.connected
    ensures Serial(Protocol.StateCmd("stopped")) in r.effects <==> env.connected
    ensures Serial(Protocol.ModeCmd("lyrics")) in r.effects <==> env.connected && env.displayMode == "lyrics"
  {
    var sim := [Sim(Oled.ClearCmd), Sim(Oled.StateCmd("stopped")), Sim(Oled.ModeCmd(env.displayMode))];
    var device := if !env.connected then []
                  else [Serial(Protocol.ClearCmd), Serial(Protocol.StateCmd("stopped"))]
                       + (if env.displayMode == "lyrics" then [Serial(Protocol.ModeCmd("lyrics"))] else []);
    var shown := [StopAudio, ClearControls, ShowLyric("")];
    var fx := shown + device + sim;
    assert fx[..3] == shown && fx[|fx| - 3..] == sim;
    SerialOnlyFrom(shown, device, sim, Serial(Protocol.ClearCmd));
    SerialOnlyFrom(shown, device, sim, Serial(Protocol.StateCmd("stopped")));
    SerialOnlyFrom(shown, device, sim, Serial(Protocol.ModeCmd("lyrics")));
    Reaction(e.(current := None, lastIdx := -1, inGap := false), fx)
  }

  /** Stopping forgets only what loading sets again: loading a track after a
      stop gives the same engine as loading it directly. */
  lemma StopThenLoad(e: Engine, env: Env, disk: Disk, track: Track)
    ensures LoadAndPlay(Stop(e, env).engine, env, disk, track).engine == LoadAndPlay(e, env, disk, track).engine
  {
  }

  // ----- offsets -----------------------------------------------------------

  /** `_adjust_offset`: without a track nothing happens; otherwise the track
      offset moves by `delta` and the last index is forgotten. */
  function AdjustOffset(e: Engine, delta: int): (r: Engine)
    ensures e.current == None ==> r == e
    ensures e.current != None ==> r == e.(trackOffsetMs := e.trackOffsetMs + delta, lastIdx := -1)
  {
    if e.current == None then e else e.(trackOffsetMs := e.trackOffsetMs + delta, lastIdx := -1)
  }

  /** `_on_live_offset_change`: without a track nothing happens; otherwise the
      track offset is set and the last index is forgotten. */
  function LiveOffsetChange(e: Engine, offsetMs: int): (r: Engine)
    ensures e.current == None ==> r == e
    ensures e.current != None ==> r == e.(trackOffsetMs := offsetMs, lastIdx := -1)
  {
    if e.current == None then e else e.(trackOffsetMs := offsetMs, lastIdx := -1)
  }

  /** After an offset change the next sync resolves the line `delta` later,
      and resends it whenever some line is active there (the forgotten index
      is -1, which only "no line" matches). */
  lemma AdjustThenSync(e: Engine, env: Env, position: int, delta: int)
    requires e.current != None && e.lyrics != []
    ensures var a := AdjustOffset(e, delta);
            var hit := Lyrics.LyricAt(e.lyrics, position + delta, e.trackOffsetMs + env.globalOffsetMs);
            var r := SyncLyrics(a, env, position);
            && r.engine.lastIdx == hit.index
            && (SendsLine(r.effects) <==> hit.index != -1 && env.connected && !r.engine.inGap)
  {
    var a := AdjustOffset(e, delta);
    LineGating(a, env, position);
    Lyrics.OffsetIsAdditive(e.lyrics, position, e.trackOffsetMs + env.globalOffsetMs, delta);
    assert a.trackOffsetMs + env.globalOffsetMs == (e.trackOffsetMs + env.globalOffsetMs) + delta;
  }

  // ----- queue navigation --------------------------------------------------

  /** `_next_track`: on to the next queued track; at the end, back to the
      first only when repeating the playlist; nothing on an empty queue. */
  function NextTrack(e: Engine, env: Env, disk: Disk): (r: Reaction)
    requires Valid(e)
    ensures Valid(r.engine)
    ensures e.queue == [] ==> r == Reaction(e, [])
    ensures e.queue != [] && e.queuePos < |e.queue| - 1 ==>
              r.engine.queuePos == e.queuePos + 1 && r.engine.current == Some(e.queue[e.queuePos + 1])
    ensures e.queue != [] && e.queuePos == |e.queue| - 1 ==>
              if e.repeat == "playlist" then r.engine.queuePos == 0 && r.engine.current == Some(e.queue[0])
              else r == Reaction(e, [])
  {
    if e.queue == [] then Reaction(e, [])
    else if e.queuePos < |e.queue| - 1 then
      LoadAndPlay(e.(queuePos := e.queuePos + 1), env, disk, e.queue[e.queuePos + 1])
    else if e.repeat == "playlist" then
      LoadAndPlay(e.(queuePos := 0), env, disk, e.queue[0])
    else Reaction(e, [])
  }

  /** `_prev_track`: more than 3 s into the track it restarts it in place;
      otherwise back one track, or from the first to the last only when
      repeating the playlist. */
  function PrevTrack(e: Engine, env: Env, disk: Disk, playerPos: int): (r: Reaction)
    requires Valid(e)
    ensures Valid(r.engine)
    ensures playerPos > 3000 ==> r == Reaction(e, [SeekTo(0)])
    ensures playerPos <= 3000 && e.queue == [] ==> r == Reaction(e, [])
    ensures playerPos <= 3000 && e.queue != [] && e.queuePos > 0 ==>
              r.engine.queuePos == e.queuePos - 1 && r.engine.current == Some(e.queue[e.queuePos - 1])
    ensures playerPos <= 3000 && e.queue != [] && e.queuePos == 0 ==>
              if e.repeat == "playlist" then
                r.engine.queuePos == |e.queue| - 1 && r.engine.current == Some(e.queue[|e.queue| - 1])
              else r == Reaction(e, [])
  {
    if playerPos > 3000 then Reaction(e, [SeekTo(0)])
    else if e.queue == [] then Reaction(e, [])
    else if e.queuePos > 0 then
      LoadAndPlay(e.(queuePos := e.queuePos - 1), env, disk, e.queue[e.queuePos - 1])
    else if e.repeat == "playlist" then
      LoadAndPlay(e.(queuePos := |e.queue| - 1), env, disk, e.queue[|e.queue| - 1])
    else Reaction(e, [])
  }

  /** Going forward then back returns to the same queue slot when the
      forward step moved without wrapping and the player is near the start. */
  lemma NextThenPrev(e: Engine, env: Env, disk: Disk)
    requires Valid(e) && e.queue != [] && e.queuePos < |e.queue| - 1
    ensures PrevTrack(NextTrack(e, env, disk).engine, env, disk, 0).engine.queuePos == e.queuePos
    ensures PrevTrack(NextTrack(e, env, disk).engine, env, disk, 0).engine.current == Some(e.queue[e.queuePos])
  {
  }

  /** The engine after `n` forward steps. */
  function NextTimes(e: Engine, env: Env, disk: Disk, n: nat): (r: Engine)
    requires Valid(e)
    ensures Valid(r) && r.queue == e.queue && r.repeat == e.repeat
  {
    if n == 0 then e else NextTrack(NextTimes(e, env, disk, n - 1), env, disk).engine
  }

  /** Short of the end, `n` forward steps advance the position by `n`. */
  lemma {:induction false} NextAdvances(e: Engine, env: Env, disk: Disk, n: nat)
    requires Valid(e) && e.queue != [] && e.queuePos + n < |e.queue|
    ensures NextTimes(e, env, disk, n).queuePos == e.queuePos + n
    decreases n
  {
    if n > 0 {
      NextAdvances(e, env, disk, n - 1);
      var m := NextTimes(e, env, disk, n - 1);
      assert m.queue == e.queue && m.queuePos < |m.queue| - 1;
      assert NextTimes(e, env, disk, n) == NextTrack(m, env, disk).engine;
    }
  }

  /** Repeating the playlist, the step after the last track lands on the
      first one; so from the first track, `|queue|` steps come back to it. */
  lemma {:induction false} NextCycles(e: Engine, env: Env, disk: Disk)
    requires Valid(e) && e.queue != [] && e.queuePos == 0 && e.repeat == "playlist"
    ensures NextTimes(e, env, disk, |e.queue|).queuePos == 0
  {
    NextAdvances(e, env, disk, |e.queue| - 1);
    var m := NextTimes(e, env, disk, |e.queue| - 1);
    assert m.queuePos == |m.queue| - 1 && m.repeat == "playlist";
    assert NextTimes(e, env, disk, |e.queue|) == NextTrack(m, env, disk).engine;
  }

  /** `_play_playlist`: an empty playlist does nothing; otherwise the queue is
      the playlist and playback starts at its first track. */
  function PlayPlaylist(e: Engine, env: Env, disk: Disk, pid: int, tracks: seq<Track>): (r: Reaction)
    ensures Valid(r.engine) || (tracks == [] && r.engine == e)
    ensures tracks == [] ==> r == Reaction(e, [])
    ensures tracks != [] ==> && r.engine.queue == tracks && r.engine.queuePos == 0
                             && r.engine.current == Some(tracks[0]) && r.engine.playlistId == Some(pid)
  {
    if tracks == [] then Reaction(e, [])
    else LoadAndPlay(e.(playlistId := Some(pid), queue := tracks, queuePos := 0), env, disk, tracks[0])
  }

  /** The index of the first queued track with id `tid`, or 0 if none. */
  function FirstWithId(tracks: seq<Track>, tid: int): (i: nat)
    ensures tracks != [] ==> i < |tracks|
    ensures i < |tracks| && tracks[i].id == tid ==> forall j :: 0 <= j < i ==> tracks[j].id != tid
    ensures (forall j :: 0 <= j < |tracks| ==> tracks[j].id != tid) ==> i == 0
    ensures (exists j :: 0 <= j < |tracks| && tracks[j].id == tid) ==> i < |tracks| && tracks[i].id == tid
  {
    if tracks == [] then 0
    else if tracks[0].id == tid then 0
    else
      var k := FirstWithId(tracks[1..], tid);
      if k < |tracks| - 1 && tracks[1..][k].id == tid then k + 1 else 0
  }

  /** `_play_track_in_playlist`: like `PlayPlaylist`, but starting at the
      first occurrence of the chosen track (the first track if absent). */
  function PlayTrackInPlaylist(e: Engine, env: Env, disk: Disk, pid: int, tracks: seq<Track>, tid: int): (r: Reaction)
    ensures tracks == [] ==> r == Reaction(e, [])
    ensures tracks != [] ==> && Valid(r.engine) && r.engine.queue == tracks
                             && r.engine.queuePos == FirstWithId(tracks, tid)
                             && r.engine.current == Some(tracks[r.engine.queuePos])
                             && r.engine.playlistId == Some(pid)
  {
    if tracks == [] then Reaction(e, [])
    else
      var pos := FirstWithId(tracks, tid);
      LoadAndPlay(e.(playlistId := Some(pid), queue := tracks, queuePos := pos), env, disk, tracks[pos])
  }

  /** `_play_track_by_id`: an unknown track does nothing; otherwise the queue
      is emptied and the track played on its own. */
  function PlayTrackById(e: Engine, env: Env, disk: Disk, track: Option<Track>): (r: Reaction)
    ensures track == None ==> r == Reaction(e, [])
    ensures track != None ==> && r.engine.queue == [] && r.engine.queuePos == -1
                              && r.engine.playlistId == None && r.engine.current == track
    ensures Valid(r.engine) || (track == None && r.engine == e)
  {
    if track == None then Reaction(e, [])
    else LoadAndPlay(e.(queue := [], queuePos := -1, playlistId := None), env, disk, track.value)
  }

  /** `_on_media_ended`: repeat-one restarts the track; a queue moves on;
      otherwise the controls show paused. */
  function MediaEnded(e: Engine, env: Env, disk: Disk): (r: Reaction)
    requires Valid(e)
    ensures Valid(r.engine)
    ensures e.repeat == "one" ==> r == Reaction(e, [SeekTo(0), Resume])
    ensures e.repeat != "one" && e.queue != [] ==> r == NextTrack(e, env, disk)
    ensures e.repeat != "one" && e.queue == [] ==> r == Reaction(e, [ShowPlaying(false)])
  {
    if e.repeat == "one" then Reaction(e, [SeekTo(0), Resume])
    else if e.queue != [] then NextTrack(e, env, disk)
    else Reaction(e, [ShowPlaying(false)])
  }

  /** `_on_state`: the controls show whether it is playing, and the state
      goes to the device (when connected) and the simulator; on "playing" the
      equalizer levels are due, which only matter in equalizer mode or during
      a gap. */
  function OnState(e: Engine, env: Env, state: string): (r: Reaction)
    ensures r.engine == e
    ensures |r.effects| >= 2 && r.effects[0] == ShowPlaying(state == "playing")
    ensures Sim(Oled.StateCmd(state)) in r.effects
    ensures Serial(Protocol.StateCmd(state)) in r.effects <==> env.connected
    ensures RefreshLevels in r.effects <==> state == "playing" && (env.displayMode == "equalizer" || e.inGap)
  {
    var fx := [ShowPlaying(state == "playing")]
              + (if env.connected then [Serial(Protocol.StateCmd(state))] else []) + [Sim(Oled.StateCmd(state))];
    assert fx[|fx| - 1] == Sim(Oled.StateCmd(state));
    assert forall i :: 0 <= i < |fx| && fx[i].Serial? ==> env.connected && i == 1;
    if state == "playing" && (env.displayMode == "equalizer" || e.inGap) then
      Reaction(e, fx + [RefreshLevels])
    else Reaction(e, fx)
  }

  /** The handlers of the window that change the engine. */
  datatype Event =
    | Position(ms: int)
    | LoadTrack(track: Track)
    | StopPressed
    | NextPressed
    | PrevPressed(playerPos: int)
    | Ended
    | OffsetDelta(delta: int)
    | LiveOffset(ms: int)
    | RepeatSet(mode: string)
    | PlaylistPlayed(pid: int, tracks: seq<Track>)
    | PlaylistTrackPlayed(pid: int, tracks: seq<Track>, tid: int)
    | TrackPlayed(found: Option<Track>)
    | StateChanged(state: string)

  function Step(e: Engine, env: Env, disk: Disk, ev: Event): (r: Reaction)
    requires Valid(e)
    ensures Valid(r.engine)
  {
    match ev
    case Position(ms) => OnPosition(e, env, ms)
    case LoadTrack(t) => LoadAndPlay(e, env, disk, t)
    case StopPressed => Stop(e, env)
    case NextPressed => NextTrack(e, env, disk)
    case PrevPressed(p) => PrevTrack(e, env, disk, p)
    case Ended => MediaEnded(e, env, disk)
    case OffsetDelta(d) => Reaction(AdjustOffset(e, d), [])
    case LiveOffset(ms) => Reaction(LiveOffsetChange(e, ms), [])
    case RepeatSet(mode) => Reaction(e.(repeat := mode), [])
    case PlaylistPlayed(pid, ts) => PlayPlaylist(e, env, disk, pid, ts)
    case PlaylistTrackPlayed(pid, ts, tid) => PlayTrackInPlaylist(e, env, disk, pid, ts, tid)
    case TrackPlayed(t) => PlayTrackById(e, env, disk, t)
    case StateChanged(s) => OnState(e, env, s)
  }

  /** Any run of handlers from the initial engine keeps the queue position
      inside a non-empty queue. */
  function Run(e: Engine, env: Env, disk: Disk, events: seq<Event>): (r: Engine)
    requires Valid(e)
    ensures Valid(r)
    decreases |events|
  {
    if events == [] then e else Run(Step(e, env, disk, events[0]).engine, env, disk, events[1..])
  }
}
