# Lyric display: a verified model of the sync core

The application plays a music library on a PC and keeps a small 128x64 OLED,
driven by a microcontroller over a serial line, in step with playback. It shows
the lyric line being sung, or equalizer bars in the gaps between lines, and a
status bar with the play state and `artist – title`. This project models the
deterministic core of the program in Dafny and proves what that core promises.

The model has nine modules, one per component:

- `Lyrics` (`lyrics.dfy`) is the lyric timeline. It covers:
  - SRT timestamps, scanned as the timestamp regex matches them;
  - the SRT block parser, with a round trip from formatted cues back to lines;
  - the LRC fallback, with its stable sort and 1-based ranks;
  - the lookup of the line active at `position + offset`.
- `Sync` (`sync.dfy`) is the main window's playback engine. The window's fields become a record (current track, lyrics, last index, offset, gap flag, queue, queue position, repeat mode). Each handler becomes a function that returns the next record and the list of effects it performs, in order. The effects are device commands, simulator calls, player calls and calls on the playback controls (the position, playing flag, now-playing label, lyric label and clearing).
- `Protocol` (`protocol.dfy`) is the serial link. It covers:
  - the command encoders;
  - the inbound newline framing and line dispatch;
  - the open/close/heartbeat state machine, with time passed in as an integer number of milliseconds.
- `Oled` (`oled.dfy`) is the on-screen simulator of the firmware. It covers:
  - the word wrap, written as the firmware loop and proved against a recursive definition;
  - the monospace layout and the equalizer geometry;
  - the canvas state with its setters and scroll ticks.
- `PlaylistDb` (`playlist_db.dfy`) is the playlist side of the SQLite database. Each playlist is a sequence of `(track_id, position)` rows. The module also models the foreign-key behaviour of `add_track_to_playlist` and `delete_track`.
- `Config` (`config.dfy`) is the JSON settings. It covers:
  - the recursive merge of the defaults with the file;
  - loading;
  - the normalising setters.
- `Ui` (`ui.dfy`) holds the small widgets:
  - the `m:ss` time labels;
  - the repeat button;
  - the now-playing label;
  - the library search filter;
  - the playlist move buttons;
  - the "add to playlist" chooser.
- `Text`, `Options` (`text.dfy`) and `Sorting` (`sorting.dfy`) hold the Python string and list built-ins the code relies on:
  - `str.strip` over the exact `str.isspace` set;
  - `split` and `join`;
  - `int()` of a decimal string, with sign and underscores;
  - ASCII `lower()`;
  - substring search;
  - the stable `list.sort`.

Everything is a pure function over immutable datatypes, except four methods:
- the firmware's wrap loop (`Oled.WordWrap`, `Oled.WrapLine`);
- `_deep_merge` (`Config.DeepMerge`);
- the library filter loop (`Ui.FilterTable`);
- the add-to-playlist loop (`Ui.AddAll`, `Ui.AddTracksToChosen`).

Each method is proved equal to, or to agree with, a functional definition.

Inputs the program gets from outside become parameters:
- the player position;
- the time of day, in milliseconds;
- whether the serial port opens, and the reason when it does not;
- which audio and subtitle files exist (`Sync.Disk`, with the subtitle files already parsed);
- the JSON `json.load` produced;
- the rows `get_all_playlists` returns;
- the name the playlist dialog returned.

`_fmt_dur` in `app/ui/playlists_tab.py:289-294` is the same function as `_fmt_duration` in `app/ui/library_tab.py:167-172`. Both are modelled by `Ui.FmtDuration`.

## Model

| member | source | states |
|---|---|---|
| Lyrics.FracMillis | app/srt/parser.py:33-34 | a one- to three-digit fraction, right-padded with zeros, is a millisecond count below 1000 |
| Lyrics.ScanSrtStamp | app/srt/parser.py:19-21 | the timestamp pattern matches at the start of the text exactly when the hand-written scanner accepts it, and the value is the one every possible match shape gives |
| Lyrics.ShapesDetermined | app/srt/parser.py:19-21 | a match fixes its hour-digit and fraction-digit widths, so a timestamp has only one reading |
| Lyrics.ParseTimestamp | app/srt/parser.py:27-40 | `_parse_timestamp` is 0 when the stripped text does not start with the pattern, otherwise `h*3600000 + m*60000 + s*1000 + padded fraction` of the match |
| Lyrics.FormatStampShape | app/srt/parser.py:19-21 | the `HH:MM:SS,mmm` form of any time under 100 hours is itself a match whose value is that time |
| Lyrics.FormatStampRoundTrip | app/srt/parser.py:27-40 | parsing a formatted timestamp gives the milliseconds back, whatever text follows it |
| Lyrics.ShortFractionPadded | app/srt/parser.py:33-34 | a fraction of one to three digits is worth its right-zero-padded three-digit form: `,5` is 500 ms, `,05` is 50 ms |
| Lyrics.NonTimestampIsZero | app/srt/parser.py:29-31 | any text whose stripped form is shorter than the shortest stamp (nine characters) or does not start with a digit gives 0 |
| Lyrics.NormalizeNewlines | app/srt/parser.py:49 | CRLF-to-LF replacement never lengthens the text and is the identity on text without `\r` |
| Lyrics.SplitBlankRuns | app/srt/parser.py:53 | splitting at runs of two or more newlines gives at least one block, and no block holds a blank line |
| Lyrics.SplitBlankRunsJoin | app/srt/parser.py:53 | joining proper blocks with blank lines and splitting again gives the blocks back |
| Lyrics.SplitArrow | app/srt/parser.py:69 | the arrow split always yields at least one part |
| Lyrics.ArrowSplitsStamps | app/srt/parser.py:69 | `a --> b` with dash-free fields splits into exactly `[a, b]`, the spaces around the arrow dropped |
| Lyrics.StripTags | app/srt/parser.py:78-79 | tag removal never lengthens the text, keeps only characters of the input, and is the identity without `<` |
| Lyrics.StripTagsLeavesNoTag | app/srt/parser.py:78-79 | after tag removal no `<...>` tag is left in the text |
| Lyrics.ParseCueLines | app/srt/parser.py:57-82 | a block yields a line only when it has at least two lines, its first line parses as an integer that becomes the index, and its second splits in two at the arrow; the text is non-empty and tag-free |
| Lyrics.ParseSrtBlock | app/srt/parser.py:56-82 | a block that yields a line yields non-empty, tag-free text |
| Lyrics.CueText | app/srt/parser.py:77-79 | the subtitle text of a block holds no tag |
| Lyrics.ParseSrtBlocks | app/srt/parser.py:56-82 | the SRT pass yields at most one line per block, each with non-empty, tag-free text; that the lines are exactly the parses of the blocks that parse, in block order, is stated by `Lyrics.ParseSrtBlocksSomes` and `Lyrics.SrtBlocksProvenance` |
| Lyrics.ParseSrtBlocksSomes | app/srt/parser.py:56-82 | the SRT pass is the list of present block parses, in block order |
| Lyrics.SrtBlocksProvenance | app/srt/parser.py:56-82 | there is a strictly increasing list of block indices, one per output line, such that the k-th line is the parse of the k-th listed block, and every block that parses is listed |
| Lyrics.ParseSrt | app/srt/parser.py:43-87 | blank text after newline normalisation and stripping has no lyrics; otherwise the SRT lines are the result when there are any, and the LRC parse of the same text only when there are none |
| Lyrics.BlankTextHasNoLyrics | app/srt/parser.py:49-51 | empty or whitespace-only text parses to no lines |
| Lyrics.CueRoundTrip | app/srt/parser.py:56-82 | every SRT block written from a well-formed line parses back to exactly that line |
| Lyrics.SrtRoundTrip | app/srt/parser.py:43-87 | `parse_srt` of SRT text written from well-formed lines gives back exactly those lines, in order, without the LRC fallback |
| Lyrics.ParseFormattedCues | app/srt/parser.py:56-82 | the SRT pass reads each formatted block back to its line, keeping block order |
| Lyrics.ParseBlocksAll | app/srt/parser.py:56-82 | blocks that each parse to a line parse together to all the lines, in block order |
| Lyrics.LrcTagAt | app/srt/parser.py:22-24 | a tag is matched exactly when the text starts with `[`, one or two minute digits, `:`, two second digits, optionally `.` or `:` and one to three digits, then `]`; the match is worth `mm*60000 + ss*1000` plus the fraction right-padded to milliseconds (0 when there is none), and its length is that of the layout |
| Lyrics.MatchLrcTag | app/srt/parser.py:22-24 | the widths the scanner reads always form the regex's layout |
| Lyrics.MatchLrcTagComplete | app/srt/parser.py:22-24 | every layout the regex accepts is found, with its widths: a tag has exactly one reading |
| Lyrics.FormatLrcTagReadsBack | app/srt/parser.py:104-109 | a `[mm:ss.mmm]` tag is matched whole, whatever follows, and is worth the milliseconds it was written from |
| Lyrics.LrcTagCentiseconds | app/srt/parser.py:104-110 | a two-digit LRC fraction is right-padded like the SRT one: `[mm:ss.cc]` starts at `mm*60000 + ss*1000 + cc*10` |
| Lyrics.ScanLrcLine | app/srt/parser.py:99-102 | every tag found takes at least five characters out of the line: the kept text plus five per time fits in the line |
| Lyrics.PlainLrcText | app/srt/parser.py:99-102 | a line without `[` holds no tag and is kept whole |
| Lyrics.LrcLineRoundTrip | app/srt/parser.py:99-109 | formatted tags followed by text without `[` scan back to the tags' times, in order, and the text |
| Lyrics.RemovalCanFormTag | app/srt/parser.py:99-102 | removal is one pass, as `re.sub` is: `[`, a tag, then a second tag less its `[` finds only the first tag and leaves the second one whole in the text |
| Lyrics.LineEntries | app/srt/parser.py:95-111 | a blank line gives no entry; every tag takes at least five characters of the stripped line; all entries of a line share one stripped text |
| Lyrics.LineEntriesRoundTrip | app/srt/parser.py:95-111 | a line of formatted tags followed by stripped, non-blank text without `[` gives exactly one entry per tag, in tag order, each with that text |
| Lyrics.EntriesOfScan | app/srt/parser.py:99-111 | a stripped line gives its scan's times in order, each paired with the kept text |
| Lyrics.PlainLineHasNoEntries | app/srt/parser.py:99-101 | a line without `[` has no tag match and gives no entry |
| Lyrics.Ranks | app/srt/parser.py:118 | the indices of the lines, in order |
| Lyrics.NumberFrom | app/srt/parser.py:116-125 | each emitted line is the entry of its 1-based rank, with the next entry's start (or start + 5000 for the last) as its end; texts are non-empty and indices strictly increase |
| Lyrics.NumberFromCovers | app/srt/parser.py:118-124 | every sorted entry with non-empty text gets a line and no other entry does |
| Lyrics.ParseLrc | app/srt/parser.py:90-125 | no tagged lines means no lyrics, and every line has text |
| Lyrics.NumberedInOrder | app/srt/parser.py:116-124 | numbering entries sorted by start time gives lines ordered by start time |
| Lyrics.LrcLinesOrdered | app/srt/parser.py:116-125 | `_parse_lrc` output is ordered by start time |
| Lyrics.LookupFrom | app/srt/parser.py:148-151 | the scan from `from` returns the first active line at or after `from`, or `(-1, "")` exactly when none is active |
| Lyrics.LyricAt | app/srt/parser.py:140-151 | `get_lyric_at_position` returns the first index whose half-open interval holds `position + offset`, with its text, and `(-1, "")` exactly when no line holds it |
| Lyrics.OffsetIsAdditive | app/srt/parser.py:147 | only `position + offset` matters: raising the offset by `d` is the same as raising the position by `d` |
| Lyrics.LookupFindsContainingLine | app/srt/parser.py:147-151 | on non-overlapping lines the lookup finds the one line containing the time |
| Sync.BuildMeta | app/ui/main_window.py:409-416 | the status text is the stripped title when the stripped artist is empty, otherwise stripped artist, en-dash separator, stripped title |
| Sync.MetaSplitsBack | app/ui/main_window.py:409-416 | when the artist has no en dash, the status text splits at its first en dash into the stripped artist and the stripped title |
| Sync.FirstAfter | app/ui/main_window.py:606-608 | the first line, in list order, starting strictly after the adjusted time, every earlier line starting at or before it |
| Sync.GapUntilNext | app/ui/main_window.py:603-609 | `-1` exactly when no line starts after `position - offset`, otherwise the positive distance to the first such line in list order |
| Sync.GapSwitch | app/ui/main_window.py:574-588 | outside lyrics mode the flag is kept; in lyrics mode an empty line sets it (if the next line is absent or more than 300 ms away) and a non-empty line clears it; a command is sent exactly when the flag changes, and never a lyric command |
| Sync.LineEffects | app/ui/main_window.py:590-601 | a TXT or CLR reaches the device exactly when the link is connected and no gap is on |
| Sync.SyncLyrics | app/ui/main_window.py:560-601 | no lyrics means no reaction; otherwise only the gap flag and the last index change |
| Sync.OnPosition | app/ui/main_window.py:527-529 | the controls show the position first; without lyrics nothing else happens; only the gap flag and last index change |
| Sync.OnPositionGating | app/ui/main_window.py:527-529 | a position tick remembers the resolved index and sends a line exactly when the index changed, the link is up and no gap holds |
| Sync.Show | app/ui/main_window.py:560-601 | after the lookup and the gap switch the engine holds the new gap flag and the resolved index |
| Sync.ShowGating | app/ui/main_window.py:590-601 | a TXT or CLR goes out exactly when the index changed, the link is connected and no gap is on |
| Sync.GapHysteresis | app/ui/main_window.py:561-588 | in lyrics mode with lyrics, the flag is set only on an empty line whose next line is absent or more than 300 ms away, and cleared only on a non-empty line; otherwise it is untouched |
| Sync.LineGating | app/ui/main_window.py:591-597 | the last index becomes the resolved index, and the device's line is sent exactly when the index changed, the link is connected and no gap is on |
| Sync.GapSignWitness | app/srt/parser.py:147 | the lookup adds the offset while the gap measure subtracts it: a line 200 ms ahead of the lookup time is measured 1800 ms away and switches to the equalizer |
| Sync.LoadAndPlay | app/ui/main_window.py:418-454 | the track, its offset and its lyrics (or none) are loaded, and the last index and gap flag are reset; a missing audio file only warns; otherwise playback starts, the controls show the title and artist, the device gets CLR, MODE(configured mode) and META exactly when connected, and the simulator always ends with CLR, MODE and META |
| Sync.StartEffects | app/ui/main_window.py:438-454 | starting a track plays it, shows it on the controls, sends CLR, MODE and META to the device exactly when connected, and ends with the simulator's clear, mode and meta |
| Sync.LoadThenSync | app/ui/main_window.py:418-454 | after a load with lyrics, the first position tick sends the line active there whenever there is one, the link is up and no gap holds |
| Sync.StopThenLoad | app/ui/main_window.py:461-475 | stopping resets only what loading sets again: a load after a stop gives the engine a direct load gives |
| Sync.Stop | app/ui/main_window.py:461-475 | playback stops, then the controls and the lyric label are cleared; the track, last index and gap flag are reset; the simulator ends with clear, "stopped" and the configured mode; the device gets CLR and the stopped state exactly when connected, and the lyrics mode exactly when connected in lyrics mode |
| Sync.AdjustOffset | app/ui/main_window.py:641-646 | with no track nothing changes; otherwise the offset moves by `delta` and the last index is forgotten |
| Sync.LiveOffsetChange | app/ui/main_window.py:686-690 | with no track nothing changes; otherwise the offset is set and the last index is forgotten |
| Sync.AdjustThenSync | app/ui/main_window.py:641-646 | after an offset change the next sync resolves the line `delta` later and resends it whenever some line is active there |
| Sync.NextTrack | app/ui/main_window.py:477-487 | empty queue: no-op; before the end: position + 1 and that track plays; at the end: back to the first only under repeat "playlist", else no-op; the position stays inside the queue |
| Sync.PrevTrack | app/ui/main_window.py:489-501 | past 3000 ms: seek to 0 and nothing else; otherwise position - 1, or from the first to the last only under repeat "playlist"; the position stays inside the queue |
| Sync.NextThenPrev | app/ui/main_window.py:477-501 | next then previous, early in the track, returns to the same queue slot and track |
| Sync.NextTimes | app/ui/main_window.py:477-487 | repeated next steps keep the queue, the repeat mode and a valid position |
| Sync.NextAdvances | app/ui/main_window.py:480-482 | short of the end, `n` next steps advance the position by exactly `n` |
| Sync.NextCycles | app/ui/main_window.py:477-487 | under repeat "playlist", as many next steps as tracks come back to the first |
| Sync.PlayPlaylist | app/ui/main_window.py:397-407 | an empty playlist does nothing; otherwise the queue is the playlist, from position 0 |
| Sync.FirstWithId | app/ui/main_window.py:390-394 | the index of the first queued track with the id, or 0 when no track has it |
| Sync.PlayTrackInPlaylist | app/ui/main_window.py:380-395 | an empty playlist does nothing; otherwise the queue is the playlist and the position is the requested track's first occurrence, or 0 |
| Sync.PlayTrackById | app/ui/main_window.py:370-378 | an unknown track does nothing; otherwise the queue is emptied and the track plays outside any playlist |
| Sync.MediaEnded | app/ui/main_window.py:551-558 | repeat "one" restarts the track; a queue moves to the next track; otherwise the controls show not playing |
| Sync.OnState | app/ui/main_window.py:540-548 | the controls first show whether the state is "playing"; the state goes to the simulator, and to the device exactly when connected; levels are refreshed exactly when playing in equalizer mode or in a gap |
| Sync.Step | app/ui/main_window.py:370-690 | every handler keeps the queue position inside a non-empty queue |
| Sync.Run | app/ui/main_window.py:370-690 | any run of handlers keeps the queue position inside a non-empty queue |
| Protocol.Replace | app/serial_comm/connection.py:133 | replacing a character removes it unless the replacement holds it, and adds no other character |
| Protocol.Clean | app/serial_comm/connection.py:131-149 | the cleaned payload holds no `\n` and no `\r` |
| Protocol.CleanSpec | app/serial_comm/connection.py:131-149 | cleaning works character by character: `\n` becomes a space, `\r` is dropped, everything else is kept |
| Protocol.StateWord | app/serial_comm/connection.py:141-144 | playing, paused and stopped map to PLAY, PAUSE and STOP; anything else maps to STOP |
| Protocol.ModeWord | app/serial_comm/connection.py:151-154 | only "equalizer" maps to EQ; every other mode maps to LYR |
| Protocol.ClampLevel | app/serial_comm/connection.py:158 | a level is clamped into 0..12 |
| Protocol.LevelWords | app/serial_comm/connection.py:158 | one decimal word per input level, with no truncation to 12, each the clamped level |
| Protocol.EqualizerPayload | app/serial_comm/connection.py:156-160 | splitting the EQ payload on commas gives one field per level, and each field parses back to the clamped level |
| Protocol.ClampTenths | app/serial_comm/connection.py:138 | `max(1.0, min(3.0, size))` in tenths: in 1.0..3.0, the size itself inside it, the nearer bound outside it |
| Protocol.FontWord | app/serial_comm/connection.py:136-139 | the FONT payload is one digit from 1 to 3, a point and one digit, whose value is the clamped size |
| Protocol.FontWordReadsBack | app/serial_comm/connection.py:136-139 | the FONT payload splits at its point into two fields that parse back to the whole and tenths digits of the clamped size |
| Protocol.Encode | app/serial_comm/connection.py:127-160 | every frame ends with a newline |
| Protocol.OneNewlinePerFrame | app/serial_comm/connection.py:127-160 | every frame holds exactly one newline, at its end |
| Protocol.FrameLines | app/serial_comm/connection.py:202-207 | the partial line kept holds no newline, and every dispatched line is non-blank and stripped |
| Protocol.FrameLinesSplit | app/serial_comm/connection.py:202-207 | the dispatched lines are the stripped, non-blank pieces before the last newline, in order, and the rest is the text after it |
| Protocol.FrameReadsBack | app/serial_comm/connection.py:127-207 | every encoded frame is read by the framer as one line, its stripped body, with nothing left over |
| Protocol.Write | app/serial_comm/connection.py:175-182 | bytes reach the port only while it is open |
| Protocol.ClosePort | app/serial_comm/connection.py:106-125 | the link ends not running, closed and not connected; it emits `disconnected` exactly when it was connected |
| Protocol.CloseTwice | app/serial_comm/connection.py:106-125 | a second close changes nothing and emits nothing |
| Protocol.OpenPort | app/serial_comm/connection.py:73-104 | it closes first and never sets connected; on failure it reports an error and stays closed; on success it runs, resets the last pong to now, starts the ping timer and writes one PING |
| Protocol.OpenErrorNamesPort | app/serial_comm/connection.py:88-90 | a failed open's error message names the port |
| Protocol.SendPing | app/serial_comm/connection.py:162-173 | nothing when not running; otherwise a PING, and after 5000 ms without a pong it clears connected, emits an error and schedules a close |
| Protocol.DeferredClose | app/serial_comm/connection.py:173 | the scheduled close is a `close_port` |
| Protocol.ProcessLine | app/serial_comm/connection.py:217-227 | PONG refreshes the last pong and emits `connected` only on the false-to-true change; the button lines emit their events without touching the link; any other line does nothing |
| Protocol.Dispatch | app/serial_comm/connection.py:202-207 | after dispatching lines in order the link is connected exactly when it was or a PONG came; nothing else about the port changes |
| Protocol.ReadChunk | app/serial_comm/connection.py:184-207 | an empty read, or a stopped reader, changes nothing; otherwise the buffer keeps the partial line and the complete lines are dispatched |
| Protocol.StepKeepsValid | app/serial_comm/connection.py:73-227 | every event keeps "connected implies running, running implies open" |
| Protocol.TimeoutClosesSilently | app/serial_comm/connection.py:162-173 | after a heartbeat timeout the deferred close emits no `disconnected` (the emit at lines 123-125 needs connected), because the ping already cleared connected |
| Protocol.CloseReportsLoss | app/serial_comm/connection.py:123-125 | an explicit close of a connected link emits `disconnected` |
| Oled.ModeOf | app/ui/oled_simulator.py:175-176 | only "equalizer" and "EQ" select the bars; anything else is lyrics |
| Oled.PlayStateOf | app/ui/oled_simulator.py:182-184 | playing and paused are kept; every other state is stopped |
| Oled.Clamp | app/ui/oled_simulator.py:165-204 | the result lies in the range and equals the input when the input already does |
| Oled.LastSpaceIn | app/ui/oled_simulator.py:422-425 | the index of the last space in the window, or -1 when there is none |
| Oled.NextBreak | app/ui/oled_simulator.py:416-432 | each iteration emits a line of at most `width` characters and strictly advances the position |
| Oled.BreakRule | app/ui/oled_simulator.py:417-432 | a line ends at the end of the text, or at the last space strictly after its start and inside the window (consuming that one space), or `width` characters on |
| Oled.WrapFrom | app/ui/oled_simulator.py:415-432 | at most 32 lines in all, each of at most `width` characters, and none exactly when the text is used up or 32 lines are out |
| Oled.WordWrap | app/ui/oled_simulator.py:409-434 | the firmware loop computes the recursive wrap: no lines for empty text, never more than 32, each of at most `width` characters |
| Oled.WrapLine | app/ui/oled_simulator.py:416-432 | the inner scan for the last space computes one break of the recursive definition |
| Oled.NoSpaceWrap | app/ui/oled_simulator.py:421-432 | text without spaces that fits in 32 lines comes back as consecutive `width`-character slices whose concatenation is the text |
| Oled.NoSpaceWrapFrom | app/ui/oled_simulator.py:421-432 | from any position, space-free text within the line budget concatenates back to the rest of the text |
| Oled.NoSpaceChunk | app/ui/oled_simulator.py:421-432 | line `i` of a space-free wrap is the `i`-th `width`-character slice |
| Oled.CharsPerLine | app/ui/oled_simulator.py:289-291 | `max(1, 128 div (6*size))`: the most characters of the built-in font that fit the width, and at least one |
| Oled.LyricHeight | app/ui/oled_simulator.py:289-294 | total height is 0 exactly when there is no text (or no size), at least one line of `8*size` pixels otherwise, and at most 32 lines' worth |
| Oled.DrawnLinesContiguous | app/ui/oled_simulator.py:301-305 | the painted lines are a run of consecutive lines, no taller than the area plus one line |
| Oled.BarGeometry | app/ui/oled_simulator.py:340-351 | a bar of height `level*46 div 12` stands on y = 46, fits the lyrics area, stays inside its 10-pixel slot and grows with its level |
| Oled.InitialCanvas | app/ui/oled_simulator.py:116-135 | the starting canvas is valid |
| Oled.Clear | app/ui/oled_simulator.py:151-156 | no text, scrolled to the top, height 0, scroll timer stopped; nothing else changes |
| Oled.SetText | app/ui/oled_simulator.py:158-163 | new text restarts the scroll; the same text changes nothing |
| Oled.SetFontSize | app/ui/oled_simulator.py:165-173 | the scale is clamped to 1.0..3.0; the proportional font is used exactly for the scales near 1.5 and 2.5; otherwise the text size is the scale rounded; a change scrolls to the top and an unchanged scale changes nothing |
| Oled.SetMode | app/ui/oled_simulator.py:175-180 | the mapped mode is stored; a change scrolls the lyrics to the top; no change means nothing changes |
| Oled.SetState | app/ui/oled_simulator.py:182-187 | only the play state changes, to the normalised state |
| Oled.SetMeta | app/ui/oled_simulator.py:189-199 | new text sets the width to 6 per character, resets the scroll to 0 and scrolls exactly when the width exceeds 112; the same text changes nothing |
| Oled.SetEqualizer | app/ui/oled_simulator.py:201-209 | the first `min(12, len)` bars take the clamped levels, the other bars keep theirs, and nothing else changes |
| Oled.UpdateLyricTimer | app/ui/oled_simulator.py:213-221 | the lyric timer runs exactly in lyrics mode with text taller than 48 pixels |
| Oled.Paint | app/ui/oled_simulator.py:242-294 | lyrics with text get the height of their wrap; otherwise the height is kept; then the timer follows the height rule |
| Oled.OnLyricScroll | app/ui/oled_simulator.py:223-231 | content that fits stops the timer; otherwise the offset steps by 16 and wraps to 0 past `height - 48` |
| Oled.OnMetaScroll | app/ui/oled_simulator.py:233-238 | with no scrolling nothing changes; otherwise the offset moves one pixel, modulo width + 30 |
| Oled.StepKeepsValid | app/ui/oled_simulator.py:151-238 | every command and tick keeps the bars in 0..12, the text size in 1..3, the scale in 1.0..3.0 with the font choice following it, the meta width at 6 pixels per character with scrolling exactly above 112, and the meta offset in 0..width + 30 |
| Oled.Run | app/ui/oled_simulator.py:151-238 | any run of events from a valid canvas ends in a valid canvas |
| PlaylistDb.TrackIds | app/db/database.py:142-150 | the track ids of the rows, in row order |
| PlaylistDb.NextPosition | app/db/database.py:154-159 | `COALESCE(MAX(position), -1) + 1`: past every existing position, 0 for an empty playlist, and one past some existing position otherwise |
| PlaylistDb.AddEntry | app/db/database.py:152-164 | the new row sorts after every existing row, so the track is appended to the ordered ids |
| PlaylistDb.WithoutTrack | app/db/database.py:168-171 | exactly the rows of other tracks survive, still in position order |
| PlaylistDb.Renumber | app/db/database.py:191-201 | the i-th row in position order gets position i, keeping the track order |
| PlaylistDb.IdsWithout | app/db/database.py:168-171 | the filter the delete performs: the id is gone and every other id keeps its multiplicity |
| PlaylistDb.WithoutTrackIds | app/db/database.py:168-171 | the surviving rows carry exactly the filtered ids, in order |
| PlaylistDb.RemoveEntries | app/db/database.py:166-173 | the remaining tracks are exactly the filtered list, in order and with their multiplicities, at positions 0..n-1 |
| PlaylistDb.RemoveKeepsOrder | app/db/database.py:166-201 | two surviving rows keep their relative order after removal and renumbering |
| PlaylistDb.PopInsert | app/db/database.py:181-182 | `pop` then `insert` keeps the length and puts the moved id at the target |
| PlaylistDb.PopInsertPermutes | app/db/database.py:181-182 | the move keeps every id, each as often as before |
| PlaylistDb.PopInsertKeepsOthers | app/db/database.py:181-182 | taking the moved id out of the result leaves the other ids in their old order |
| PlaylistDb.PopInsertDistinct | app/db/database.py:181-182 | moving keeps ids distinct |
| PlaylistDb.RowPositions | app/db/database.py:183-188 | the positions the update-by-track-id loop leaves: every row lands on a slot that holds its own id after the move |
| PlaylistDb.DuplicateMoveCollides | app/db/database.py:183-188 | with a track listed twice, the update loop gives both of its rows the same position and leaves position 0 empty |
| PlaylistDb.MoveEntries | app/db/database.py:175-189 | an out-of-range index changes nothing; an in-range move renumbers the pop/insert order 0..n-1 |
| PlaylistDb.MoveKeepsTracks | app/db/database.py:180-188 | an in-range move keeps each track as often as before and the other tracks in their relative order |
| PlaylistDb.MoveUpdateAgrees | app/db/database.py:180-188 | on a playlist without repeated tracks the update loop gives distinct positions covering 0..n-1, each row's track at its slot of the pop/insert order |
| PlaylistDb.SlotsBijective | app/db/database.py:183-188 | sending the distinct ids to slots that hold them uses every slot exactly once |
| PlaylistDb.Joined | app/db/database.py:145-146 | the join keeps only rows whose track exists |
| PlaylistDb.PlaylistTracks | app/db/database.py:142-150 | an unknown playlist has no tracks; a valid one lists its rows' tracks in position order |
| PlaylistDb.JoinedAll | app/db/database.py:145-146 | when every row's track exists the join drops nothing |
| PlaylistDb.SetRowsValid | app/db/database.py:142-150 | replacing one playlist's rows with valid rows keeps the database valid and lists exactly those rows |
| PlaylistDb.AddTrackToPlaylist | app/db/database.py:152-164 | the insert succeeds exactly when the playlist and track exist; it then appends the track to that playlist only |
| PlaylistDb.RemoveTrackFromPlaylist | app/db/database.py:166-173 | the playlist's tracks become the filtered list without the track; the other playlists and the tracks are untouched |
| PlaylistDb.MoveTrackInPlaylist | app/db/database.py:175-189 | an unknown playlist is untouched; a move keeps the playlist's tracks as a multiset and touches no other playlist (the corrected move, see Findings) |
| PlaylistDb.MoveTrackAsWritten | app/db/database.py:175-189 | on a playlist without repeated tracks every row ends with its own track at the position the source's update loop gives it |
| PlaylistDb.MoveRowsValid | app/db/database.py:175-189 | a move keeps the multiset of tracks and the validity of the rows |
| PlaylistDb.Swap | app/ui/playlists_tab.py:231-245 | exchanging two places, the others kept |
| PlaylistDb.SwapTwice | app/ui/playlists_tab.py:231-245 | exchanging twice restores the order |
| PlaylistDb.PopInsertAdjacent | app/db/database.py:181-182 | moving an id one place up or down exchanges it with its neighbour |
| PlaylistDb.MoveAdjacent | app/db/database.py:175-189 | on a valid database the corrected one-place move up or down swaps the two tracks in the listed order |
| PlaylistDb.MoveAdjacentAsWritten | app/db/database.py:183-188 | without repeated tracks the source's update loop on a one-place move trades the two rows' positions and leaves every other row in place |
| PlaylistDb.RepeatedMoveUpWitness | app/db/database.py:183-188 | with track 7 twice in [7, 8, 9, 7], moving row 1 up intends [8, 7, 9, 7] but the update loop puts both rows of 7 at position 3 |
| PlaylistDb.DeleteTrack | app/db/database.py:99-105 | it returns the deleted track (if any); the track leaves the tracks and every playlist; the playlists and their names are kept; validity is kept |
| PlaylistDb.DeleteTrackKeepsOthers | app/db/database.py:103 | every row of another track survives the delete |
| PlaylistDb.DeletePlaylist | app/db/database.py:134-138 | the playlist and all of its rows go; the tracks and the other playlists are untouched |
| PlaylistDb.UpdateTrack | app/db/database.py:90-97 | no fields or an unknown track changes nothing; otherwise only that track changes |
| PlaylistDb.SetTrackOffset | app/db/database.py:107-108 | only the track's lyric offset changes |
| Config.Merged | app/settings/config.py:163-171 | the merged keys are the default keys plus the override keys |
| Config.DeepMerge | app/settings/config.py:163-171 | the loop over the overrides computes the key-by-key merge: defaults kept, overrides win, dicts on both sides merged recursively |
| Config.MergeEmpty | app/settings/config.py:165-171 | merging an empty override gives the defaults |
| Config.MergeEntry | app/settings/config.py:166-170 | an override key holds the override, unless both sides are dicts, when it holds their merge; a key only in the defaults keeps its default |
| Config.MergeIdempotent | app/settings/config.py:163-171 | merging the same overrides again changes nothing |
| Config.MergeAbsorbs | app/settings/config.py:163-171 | merging the defaults under an already merged result gives it back |
| Config.LoadSavedIsStable | app/settings/config.py:65-82 | a loaded configuration, saved and loaded again, is unchanged |
| Config.MergeSelf | app/settings/config.py:163-171 | merging a dict into itself gives it back |
| Config.At | app/settings/config.py:163-171 | a path lookup: the value itself for the empty path, nothing when a step is not a dict holding the key |
| Config.OverrideWins | app/settings/config.py:166-170 | every non-dict value of the overrides, at any depth, is in the result at the same path |
| Config.DefaultPathKept | app/settings/config.py:165-168 | every path of the defaults survives unless the overrides put a non-dict value on the way |
| Config.Load | app/settings/config.py:65-76 | a missing or unreadable file gives the defaults; a non-dict file fails; a loaded config holds every default key |
| Config.PartialHotkeysKeepDefaults | app/settings/config.py:65-76 | a file that overrides one hotkey gets that hotkey and still holds all nine default hotkey names, the others with their default bindings |
| Config.Get | app/settings/config.py:84-86 | the stored value when the key is present, the default otherwise |
| Config.Set | app/settings/config.py:88-91 | the key reads back as the value and every other key is unchanged |
| Config.SetDisplayMode | app/settings/config.py:137-142 | "lyrics" and "equalizer" are stored as given, anything else as "lyrics"; no other key changes |
| Config.ClampInt | app/settings/config.py:159 | `max(lo, min(hi, v))` lies in the range, is the input inside it and the nearer bound outside it |
| Config.ClampReal | app/settings/config.py:128-151 | the float setters' `max(lo, min(hi, v))`: in the range, the input inside it, the nearer bound outside it |
| Config.ClampRealAgrees | app/settings/config.py:128-151 | on whole numbers the float clamp gives the integer clamp's result |
| Config.ClampMonotone | app/settings/config.py:159 | clamping keeps order and clamping twice is clamping once |
| Config.SetLyricFontSize | app/settings/config.py:157-160 | the stored size is clamped to 8..32, and no other key changes |
| Config.SetEsp32FontSize | app/settings/config.py:128-131 | the stored scale is clamped to 1.0..3.0, and no other key changes |
| Config.SetVolume | app/settings/config.py:148-151 | the stored volume is clamped to 0.0..1.0, and no other key changes |
| Config.LoadedDisplayMode | app/settings/config.py:133-135 | a loaded config always holds a display mode, "lyrics" when there was no file |
| Ui.Clock | app/ui/playback_controls.py:226-227 | a clock label with its colon |
| Ui.Fmt | app/ui/playback_controls.py:221-227 | negative and zero times show as `0:00` |
| Ui.FmtReadsBack | app/ui/playback_controls.py:221-227 | the label reads back as the whole seconds elapsed, a negative time counting as 0 (minutes `ms div 60000`, two-digit seconds, sub-seconds truncated) |
| Ui.ClockReadsBack | app/ui/playback_controls.py:226-227 | every `m:ss` label reads back as the seconds it was made from |
| Ui.DigitsReadBack | app/ui/playback_controls.py:227 | a minute run and a two-digit second run around a colon read back as `m*60 + ss` |
| Ui.FmtDuration | app/ui/library_tab.py:167-172 | `--:--` exactly for non-positive times, otherwise the playback bar's `m:ss` |
| Ui.CycleRepeat | app/ui/playback_controls.py:208-213 | a click moves to another mode, and the emitted mode and the caption are those of the new index |
| Ui.RepeatCycles | app/ui/playback_controls.py:190-213 | three clicks visit off, playlist and one and come back to the start |
| Ui.RepeatLabelsDistinct | app/ui/playback_controls.py:211 | each mode has its own caption |
| Ui.RepeatAllWraps | app/ui/playback_controls.py:208-213 | one click from "off" gives "playlist", under which the engine wraps from the last queued track to the first |
| Ui.NowPlaying | app/ui/playback_controls.py:143-147 | the title alone without an artist; otherwise title, en-dash separator, artist, unstripped |
| Ui.NowPlayingMirrorsMeta | app/ui/playback_controls.py:143-147 | for trimmed fields the label reads `title – artist` while the OLED's status line reads `artist – title` |
| Ui.FilterTable | app/ui/library_tab.py:156-164 | one flag per row, a row hidden exactly when the lowered query is in neither its lowered title nor its lowered artist |
| Ui.EmptySearchShowsAll | app/ui/library_tab.py:163 | the empty query shows every row |
| Ui.SearchNarrows | app/ui/library_tab.py:163 | a row shown for a longer query is shown for every prefix of it |
| Ui.EmptyRowOnlyForEmptySearch | app/ui/library_tab.py:161-163 | a row with no title or artist cell is shown only for the empty query |
| Ui.SearchIgnoresCase | app/ui/library_tab.py:157 | lowering the query again changes no result |
| Ui.MoveUp | app/ui/playlists_tab.py:231-237 | without an open playlist or with the first row selected nothing changes; the playlists and validity are kept |
| Ui.MoveDown | app/ui/playlists_tab.py:239-245 | without an open playlist or outside `0 <= row < count - 1` nothing changes; the playlists and validity are kept |
| Ui.MoveUpSwaps | app/ui/playlists_tab.py:231-237 | a move up the guard lets through swaps the selected track with the one above |
| Ui.MoveDownSwaps | app/ui/playlists_tab.py:239-245 | a move down the guard lets through swaps the selected track with the one below |
| Ui.MoveUpThenDown | app/ui/playlists_tab.py:231-245 | up, then down on the row the selection followed, restores the order |
| Ui.FindId | app/ui/playlists_tab.py:270-273 | the first row with the id, or past the end when none has it |
| Ui.DefaultChoice | app/ui/playlists_tab.py:268-273 | the first row of the open playlist when it is listed and its id is truthy, else 0 |
| Ui.AddAll | app/ui/playlists_tab.py:282-283 | all tracks are appended in order exactly when they all exist; otherwise the loop fails on a track that does not exist |
| Ui.AddTracksToChosen | app/ui/playlists_tab.py:259-286 | no playlists: nothing; a cancelled or empty choice: nothing; otherwise the tracks go, in order, to the first listed playlist with the chosen name |
| Text.Strip | app/srt/parser.py:96 | the stripped text has no whitespace at either end and is no longer than the input |
| Text.SplitJoin | app/srt/parser.py:57 | splitting a join of separator-free pieces gives the pieces back |
| Text.NatToStringValue | app/serial_comm/connection.py:158 | the decimal form of a number reads back as that number |
| Text.ParseIntOfNatToString | app/srt/parser.py:63 | `int()` of the decimal form of a number is that number |
| Text.ZeroPad2 | app/ui/playback_controls.py:227 | two digits whose value is the number, for numbers below 100 |
| Text.Lower | app/ui/library_tab.py:157-162 | ASCII lowering, one character at a time |
| Text.ContainsPrefixOfNeedle | app/ui/library_tab.py:163 | a haystack holding a needle holds every prefix of it |
| Sorting.SortBySorted | app/srt/parser.py:116 | the sort orders the entries by key |
| Sorting.SortByPermutes | app/srt/parser.py:116 | the sort keeps every entry, each as often as before |
| Sorting.SortByStable | app/srt/parser.py:116 | entries with equal keys keep their input order |

## Left out

- Shuffle: `random.shuffle` in `_play_playlist`, `_play_track_in_playlist` and `_next_track` is left out, because it is randomness. Navigation is modelled with shuffle off.
- The spectrum analyser, and the equalizer level computation in `_send_equalizer_levels` (`app/ui/main_window.py:611-635`), are left out because they are FFT and floating-point sine waves. The engine only records that a refresh is due (`RefreshLevels`).
- Floating-point font scales are kept in tenths:
  - the simulator's `set_font_size` thresholds;
  - `send_font_size`'s clamp and `%.1f` formatting (`Protocol.FontWord`), so sizes between tenths, and Python's rounding of them, are not modelled;
  - the `float()` conversion in the `esp32_font_size` setter, which is left out.
- The `esp32_font_size` getter falls back to 2.0 while the default config holds 1.5. Getters with fallbacks are only modelled through `Config.Get`.
- The proportional-font wrap (`_paint_lyrics_custom_font`) depends on font metrics. It is a parameter of `Oled.Paint`: the number of lines it produced.
- All QPainter drawing, pixel scaling, the status-bar icons and the meta text's two drawn copies are left out. Only the geometry the setters and ticks compute is modelled.
- Threads, locks, `time.sleep`, QTimer scheduling and `list_serial_ports` are left out. The reader loop's exception path (`app/serial_comm/connection.py:208-215`) is also left out, because it is driven by the reader thread. A read is one `Chunk` event.
- On a heartbeat timeout the code emits only an error and no `disconnected`, because connected is cleared before the deferred close. The model follows the code, not a description of a disconnect/error pair.
- UTF-8 encoding and decoding of serial data and files are left out. Strings are sequences of characters.
- Python's `str.lower()` is modelled on ASCII letters only.
- `\d` and `int()` are modelled on ASCII digits only.
- `parse_srt_file`'s file read with encoding retries, JSON reading and writing (`save`), and SQLite connections and transactions are left out. Their results are parameters: `Sync.Disk` for the files, `Config.Load`'s `file` for the JSON.
- The database's id allocation (`add_track`, `create_playlist`, `rename_playlist`, autoincrement) and the `created_date` / `added_date` ordering are left out. The rows `get_all_playlists` returns are a parameter of `Ui.AddTracksToChosen`.
- `PlaylistDb.DeleteTrack` keeps the surviving rows' stored positions, gaps included, as the source does; it does not renumber them.
- `Oled.WordWrap` requires `width >= 1`: the only caller passes `max(1, ...)`.
- The Qt dialogs and widgets are left out: settings, import, offset editor, the choose-playlist dialog itself, the table and list widgets, the selection model and `_refresh_tracks`.
- `Ui.DefaultChoice` computes the default index. The index only preselects a dialog entry, so the chosen name is a parameter.
- The `on_duration` update of an unknown duration, `_toggle_play`, `_seek`, the volume handlers and the settings handler are left out. They are pass-throughs to the player, the database or the serial encoders already modelled.
- `Sync.LoadAndPlay`: the lyrics come already parsed from `Sync.Disk` instead of through `parse_srt_file`, and the delayed spectrum load is left out.
- `Sync.Stop`: the contract fixes the first three and the last three effects and which device commands occur, but not the order among the device commands, which the body fixes.
- `_on_duration`'s `set_duration` and the controls' volume and font-size calls from `_apply_config` are left out with the handlers above; every other call the sync handlers make on the controls is an effect.
- PlaylistDb.MoveTrackInPlaylist: follows the corrected move (`MoveEntries`, see Findings), so on a playlist with a repeated track its rows differ from the source's, whose positions may tie; without repeated tracks it equals the source's update (`PlaylistDb.MoveTrackAsWritten`).
- PlaylistDb.MoveAdjacent: states the swap of the corrected move; the source's update gives it only without repeated tracks (`PlaylistDb.MoveAdjacentAsWritten`, `PlaylistDb.RepeatedMoveUpWitness`).
- Ui.MoveUp: validity of the result holds of the corrected move it calls, not of the source's tied positions on repeated tracks.
- Ui.MoveDown: likewise, validity holds of the corrected move.
- Ui.MoveUpSwaps: the swap is of the corrected move; the source swaps only when the playlist has no repeated track.
- Ui.MoveDownSwaps: likewise.
- Ui.MoveUpThenDown: the restore is of the corrected move; on repeated tracks the source need not restore the order.
- Lyrics.ScanLrcLine: its own contract only bounds the kept text. The times and the kept text are stated for tags followed by text without `[` (`Lyrics.LrcLineRoundTrip`) and for one nested case (`Lyrics.RemovalCanFormTag`), not for every line.

## Findings

| source | as written | input that shows it | evidently intended | confidence | as-written member | corrected member |
|---|---|---|---|---|---|---|
| app/db/database.py:183-188 | after the pop/insert, positions are written by `UPDATE ... WHERE track_id = ?`, one statement per id, so every row of a repeated track gets the position of the id's last occurrence | playlist rows of tracks `[7, 8, 7]`, move from 2 to 2: both rows of track 7 get position 2, track 8 gets 1, and position 0 is left empty | each row gets the position of its own slot in the pop/insert order, so the positions are 0..n-1 and the moved row lands at the target | not executed | PlaylistDb.RowPositions, PlaylistDb.DuplicateMoveCollides, PlaylistDb.RepeatedMoveUpWitness | PlaylistDb.MoveEntries, PlaylistDb.MoveUpdateAgrees |
