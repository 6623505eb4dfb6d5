// The logic inside the Qt widgets: time labels, the repeat button, the
// now-playing label, the library search filter, the playlist move buttons
// and the choice of playlist when adding tracks.

module Ui {
  import opened Options
  import opened Text
  import PlaylistDb
  import Sync

  // ----- time labels -------------------------------------------------------

  /** `m:ss` for a whole number of seconds. */
  function Clock(seconds: nat): (s: string)
    ensures ':' in s
  {
    var m := seconds / 60;
    var text := NatToString(m) + ":" + ZeroPad2(seconds % 60);
    assert text[|NatToString(m)|] == ':';
    text
  }

  /** `_fmt` of the playback bar: negative times show as `0:00`. */
  function Fmt(ms: int): (s: string)
    ensures ms <= 0 ==> s == "0:00"
  {
    var shown := if ms < 0 then 0 else ms;
    assert shown < 1000 ==> shown / 1000 == 0;
    Clock(shown / 1000)
  }

  /** `_fmt_duration` of the library table, and `_fmt_dur` of the playlist
      table, which is the same function: a duration that is not positive is
      unknown. */
  function FmtDuration(ms: int): (s: string)
    ensures ms <= 0 <==> s == "--:--"
    ensures ms > 0 ==> s == Fmt(ms)
  {
    if ms <= 0 then "--:--"
    else
      var s := Fmt(ms);
      assert IsDigit(s[0]);
      s
  }

  /** The seconds a `m:ss` label stands for, if it is one: digits, a colon,
      exactly two digits below 60. */
  function ReadClock(s: string): (r: Option<nat>)
  {
    var i := IndexOf(s, ':');
    if i == |s| then None
    else
      var m := s[..i];
      var ss := s[i + 1..];
      if m != [] && AllDigits(m) && |ss| == 2 && AllDigits(ss) && DecimalValue(ss) < 60
      then Some(DecimalValue(m) * 60 + DecimalValue(ss))
      else None
  }

  /** A label reads back as the whole seconds it was made from. */
  lemma ClockReadsBack(seconds: nat)
    ensures ReadClock(Clock(seconds)) == Some(seconds)
  {
    var m := NatToString(seconds / 60);
    var ss := ZeroPad2(seconds % 60);
    NatToStringValue(seconds / 60);
    DigitsReadBack(m, ss);
    assert Clock(seconds) == m + [':'] + ss;
  }

  /** Two digit runs around a colon read back as the runs. */
  lemma DigitsReadBack(m: string, ss: string)
    requires m != [] && AllDigits(m) && |ss| == 2 && AllDigits(ss) && DecimalValue(ss) < 60
    ensures ReadClock(m + [':'] + ss) == Some(DecimalValue(m) * 60 + DecimalValue(ss))
  {
    assert ':' !in m by {
      assert forall k :: 0 <= k < |m| ==> IsDigit(m[k]);
    }
    IndexOfAfter(m, ':', ss);
    assert (m + [':'] + ss)[..|m|] == m;
    assert (m + [':'] + ss)[|m| + 1..] == ss;
  }

  /** The playback bar shows the whole seconds elapsed, counting a negative
      time as zero. */
  lemma FmtReadsBack(ms: int)
    ensures ReadClock(Fmt(ms)) == Some(if ms < 0 then 0 else ms / 1000)
  {
    ClockReadsBack(if ms < 0 then 0 else ms / 1000);
  }

  // ----- repeat button -----------------------------------------------------

  const RepeatModes: seq<string> := ["off", "playlist", "one"]

  /** The button text for each repeat mode. */
  function RepeatLabel(mode: string): string {
    if mode == "off" then "Repeat: Off"
    else if mode == "playlist" then "Repeat: All"
    else "Repeat: One"
  }

  /** The button after a click: its index, the mode it now shows (and
      emits through `repeat_changed`), and its text. */
  datatype RepeatButton = RepeatButton(idx: nat, mode: string, caption: string)

  /** `_cycle_repeat`: the next mode, wrapping after the last. */
  function CycleRepeat(idx: nat): (b: RepeatButton)
    requires idx < |RepeatModes|
    ensures b.idx < |RepeatModes| && b.idx != idx
    ensures b.mode == RepeatModes[b.idx] && b.caption == RepeatLabel(b.mode)
  {
    var next := if idx + 1 == |RepeatModes| then 0 else idx + 1;
    RepeatButton(next, RepeatModes[next], RepeatLabel(RepeatModes[next]))
  }

  /** Three clicks visit every mode once and come back to the start; the
      `repeat_mode` property then reads the mode the button emitted. */
  lemma RepeatCycles(idx: nat)
    requires idx < |RepeatModes|
    ensures var b1 := CycleRepeat(idx);
            var b2 := CycleRepeat(b1.idx);
            var b3 := CycleRepeat(b2.idx);
            && b3.idx == idx
            && {b1.mode, b2.mode, b3.mode} == {"off", "playlist", "one"}
  {
  }

  /** Each mode has its own label. */
  lemma RepeatLabelsDistinct(i: nat, j: nat)
    requires i < |RepeatModes| && j < |RepeatModes| && i != j
    ensures RepeatLabel(RepeatModes[i]) != RepeatLabel(RepeatModes[j])
  {
  }

  /** From the initial "off", one click gives "playlist", under which the
      engine wraps from the last queued track to the first. */
  lemma RepeatAllWraps(e: Sync.Engine, env: Sync.Env, disk: Sync.Disk)
    requires Sync.Valid(e) && e.queue != [] && e.queuePos == |e.queue| - 1
    ensures var mode := CycleRepeat(0).mode;
            Sync.NextTrack(e.(repeat := mode), env, disk).engine.queuePos == 0
  {
  }

  // ----- now-playing label -------------------------------------------------

  /** `set_now_playing`: the title, then ` – ` and the artist when the artist
      is non-empty. Neither part is stripped. */
  function NowPlaying(title: string, artist: string): (s: string)
    ensures artist == [] ==> s == title
    ensures artist != [] ==> |s| == |title| + 3 + |artist| && s[..|title|] == title && s[|s| - |artist|..] == artist
  {
    if artist != [] then
      var s := title + Sync.MetaSeparator + artist;
      assert s[..|title|] == title;
      assert s[|s| - |artist|..] == artist;
      s
    else title
  }

  /** For a trimmed title and artist the label and the OLED's status line
      hold the same two parts in opposite order. */
  lemma NowPlayingMirrorsMeta(title: string, artist: string)
    requires artist != [] && NoSpaceAtEnds(title) && NoSpaceAtEnds(artist)
    ensures NowPlaying(title, artist) == title + Sync.MetaSeparator + artist
    ensures Sync.BuildMeta(title, artist) == artist + Sync.MetaSeparator + title
  {
    StripKeepsTrimmed(title);
    StripKeepsTrimmed(artist);
  }

  // ----- library search ----------------------------------------------------

  /** A row of the library table: the title and artist cells, `None` when
      the cell has no item. */
  datatype LibraryRow = LibraryRow(title: Option<string>, artist: Option<string>)

  function CellText(cell: Option<string>): string {
    match cell
    case Some(t) => t
    case None => ""
  }

  /** The row matches the lowered query in its lowered title or artist. */
  predicate Matches(row: LibraryRow, query: string) {
    Contains(Lower(CellText(row.title)), query) || Contains(Lower(CellText(row.artist)), query)
  }

  /** `_filter_table`: row `i` is hidden exactly when it does not match. */
  method FilterTable(rows: seq<LibraryRow>, text: string) returns (hidden: seq<bool>)
    ensures |hidden| == |rows|
    ensures forall i :: 0 <= i < |rows| ==> (hidden[i] <==> !Matches(rows[i], Lower(text)))
  {
    var query := Lower(text);
    hidden := [];
    var row := 0;
    while row < |rows|
      invariant 0 <= row <= |rows| && |hidden| == row
      invariant forall i :: 0 <= i < row ==> (hidden[i] <==> !Matches(rows[i], query))
    {
      var title := Lower(CellText(rows[row].title));
      var artist := Lower(CellText(rows[row].artist));
      var matched := Contains(title, query) || Contains(artist, query);
      hidden := hidden + [!matched];
      row := row + 1;
    }
  }

  /** An empty search shows every row. */
  lemma EmptySearchShowsAll(row: LibraryRow)
    ensures Matches(row, Lower(""))
  {
    ContainsEmpty(Lower(CellText(row.title)));
  }

  /** Typing more only hides more: a row shown for `text + more` is shown
      for `text`. */
  lemma SearchNarrows(row: LibraryRow, text: string, more: string)
    requires Matches(row, Lower(text + more))
    ensures Matches(row, Lower(text))
  {
    LowerAppend(text, more);
    var t := Lower(CellText(row.title));
    var a := Lower(CellText(row.artist));
    if Contains(t, Lower(text) + Lower(more)) {
      ContainsPrefixOfNeedle(t, Lower(text), Lower(more));
    } else {
      ContainsPrefixOfNeedle(a, Lower(text), Lower(more));
    }
  }

  lemma {:induction false} LowerAppend(a: string, b: string)
    ensures Lower(a + b) == Lower(a) + Lower(b)
    decreases |a|
  {
    if a != [] {
      assert (a + b)[1..] == a[1..] + b;
      LowerAppend(a[1..], b);
    } else {
      assert a + b == b;
    }
  }

  /** A row with neither cell is shown only for the empty search. */
  lemma EmptyRowOnlyForEmptySearch(text: string)
    ensures Matches(LibraryRow(None, None), Lower(text)) <==> text == []
  {
    if text == [] {
      ContainsEmpty("");
    } else {
      assert Lower(text) != [];
      assert !Contains("", Lower(text));
    }
  }

  /** Matching ignores ASCII case in the query. */
  lemma SearchIgnoresCase(row: LibraryRow, text: string)
    ensures Matches(row, Lower(Lower(text))) <==> Matches(row, Lower(text))
  {
    assert Lower(Lower(text)) == Lower(text);
  }

  // ----- playlist move buttons ---------------------------------------------

  /** `_move_up`: with a playlist open and a selected row below the first,
      the row moves one place up; otherwise nothing changes. `row` is the
      selected row, or -1 when nothing is selected. */
  function MoveUp(db: PlaylistDb.Db, pid: Option<int>, row: int): (r: PlaylistDb.Db)
    ensures pid == None || row <= 0 ==> r == db
    ensures r.playlists.Keys == db.playlists.Keys && (PlaylistDb.Valid(db) ==> PlaylistDb.Valid(r))
  {
    if pid != None && row > 0 then PlaylistDb.MoveTrackInPlaylist(db, pid.value, row, row - 1) else db
  }

  /** `_move_down`: with a playlist open and a selected row above the last of
      `count` shown rows, the row moves one place down. */
  function MoveDown(db: PlaylistDb.Db, pid: Option<int>, row: int, count: int): (r: PlaylistDb.Db)
    ensures pid == None || !(0 <= row < count - 1) ==> r == db
    ensures r.playlists.Keys == db.playlists.Keys && (PlaylistDb.Valid(db) ==> PlaylistDb.Valid(r))
  {
    if pid != None && 0 <= row < count - 1 then PlaylistDb.MoveTrackInPlaylist(db, pid.value, row, row + 1) else db
  }

  /** When the guard lets a move up through, the selected track trades
      places with the one above and nothing else in the playlist changes. */
  lemma MoveUpSwaps(db: PlaylistDb.Db, pid: int, row: int)
    requires PlaylistDb.Valid(db) && pid in db.playlists
    requires 0 < row < |PlaylistDb.PlaylistTracks(db, pid)|
    ensures PlaylistDb.PlaylistTracks(MoveUp(db, Some(pid), row), pid)
            == PlaylistDb.Swap(PlaylistDb.PlaylistTracks(db, pid), row - 1, row)
  {
    assert MoveUp(db, Some(pid), row) == PlaylistDb.MoveTrackInPlaylist(db, pid, row, row - 1);
    PlaylistDb.MoveAdjacent(db, pid, row);
  }

  /** Likewise a move down trades the selected track with the one below. */
  lemma MoveDownSwaps(db: PlaylistDb.Db, pid: int, row: int)
    requires PlaylistDb.Valid(db) && pid in db.playlists
    requires 0 <= row < |PlaylistDb.PlaylistTracks(db, pid)| - 1
    ensures var n := |PlaylistDb.PlaylistTracks(db, pid)|;
            PlaylistDb.PlaylistTracks(MoveDown(db, Some(pid), row, n), pid)
            == PlaylistDb.Swap(PlaylistDb.PlaylistTracks(db, pid), row, row + 1)
  {
    var n := |PlaylistDb.PlaylistTracks(db, pid)|;
    assert MoveDown(db, Some(pid), row, n) == PlaylistDb.MoveTrackInPlaylist(db, pid, row, row + 1);
    PlaylistDb.MoveAdjacent(db, pid, row + 1);
  }

  /** Up then down on the row the selection followed restores the order. */
  lemma MoveUpThenDown(db: PlaylistDb.Db, pid: int, row: int)
    requires PlaylistDb.Valid(db) && pid in db.playlists
    requires 0 < row < |PlaylistDb.PlaylistTracks(db, pid)|
    ensures var up := MoveUp(db, Some(pid), row);
            var n := |PlaylistDb.PlaylistTracks(up, pid)|;
            PlaylistDb.PlaylistTracks(MoveDown(up, Some(pid), row - 1, n), pid) == PlaylistDb.PlaylistTracks(db, pid)
  {
    var ids := PlaylistDb.PlaylistTracks(db, pid);
    var up := MoveUp(db, Some(pid), row);
    var swapped := PlaylistDb.PlaylistTracks(up, pid);
    assert swapped == PlaylistDb.Swap(ids, row - 1, row) by {
      MoveUpSwaps(db, pid, row);
    }
    var down := MoveDown(up, Some(pid), row - 1, |swapped|);
    assert PlaylistDb.PlaylistTracks(down, pid) == PlaylistDb.Swap(swapped, row - 1, row) by {
      assert PlaylistDb.Valid(up) && pid in up.playlists;
      MoveDownSwaps(up, pid, row - 1);
    }
    PlaylistDb.SwapTwice(ids, row - 1, row);
  }

  // ----- adding to a playlist ----------------------------------------------

  /** A row of `get_all_playlists`, newest first. */
  datatype PlaylistRow = PlaylistRow(id: int, name: string)

  /** The index of the first row with id `pid`, or `|rows|`. */
  function FindId(rows: seq<PlaylistRow>, pid: int): (i: nat)
    ensures i <= |rows|
    ensures i < |rows| ==> rows[i].id == pid
    ensures forall k :: 0 <= k < i ==> rows[k].id != pid
  {
    if rows == [] then 0
    else if rows[0].id == pid then 0
    else 1 + FindId(rows[1..], pid)
  }

  /** The default entry of the "Choose playlist" list: the open playlist when
      it is listed, else the first. An open playlist with id 0 is falsy in
      Python and also falls back to the first entry. */
  function DefaultChoice(rows: seq<PlaylistRow>, current: Option<int>): (i: nat)
    requires rows != []
    ensures i < |rows|
    ensures current.Some? && current.value != 0 && (exists k :: 0 <= k < |rows| && rows[k].id == current.value) ==>
              rows[i].id == current.value && forall k :: 0 <= k < i ==> rows[k].id != current.value
    ensures current == None || current.value == 0 || (forall k :: 0 <= k < |rows| ==> rows[k].id != current.value) ==> i == 0
  {
    if current.Some? && current.value != 0 then
      var i := FindId(rows, current.value);
      if i < |rows| then i else 0
    else 0
  }

  /** How `add_tracks_to_current_or_choose` ended. */
  datatype AddOutcome =
    | NoPlaylists              // the "Create a playlist first." message
    | Cancelled                // the dialog was dismissed or gave no name
    | Added(db: PlaylistDb.Db, pid: int)
    | Failed(db: PlaylistDb.Db, pid: int, badTrack: int)  // IntegrityError part-way

  /** Add `tids` one at a time to playlist `pid`; an insert the foreign keys
      reject raises, leaving the earlier inserts committed. */
  method AddAll(db: PlaylistDb.Db, pid: int, tids: seq<int>) returns (r: AddOutcome)
    requires pid in db.playlists && PlaylistDb.Valid(db)
    ensures (r.Added? || r.Failed?) && r.pid == pid
    ensures r.Added? <==> forall i :: 0 <= i < |tids| ==> tids[i] in db.tracks
    ensures r.Added? ==> PlaylistDb.Valid(r.db)
                         && PlaylistDb.PlaylistTracks(r.db, pid) == PlaylistDb.PlaylistTracks(db, pid) + tids
    ensures r.Failed? ==> r.badTrack in tids && r.badTrack !in db.tracks
  {
    var cur := db;
    var k := 0;
    while k < |tids|
      invariant 0 <= k <= |tids|
      invariant PlaylistDb.Valid(cur) && pid in cur.playlists && cur.tracks == db.tracks
      invariant forall i :: 0 <= i < k ==> tids[i] in db.tracks
      invariant PlaylistDb.PlaylistTracks(cur, pid) == PlaylistDb.PlaylistTracks(db, pid) + tids[..k]
    {
      var next := PlaylistDb.AddTrackToPlaylist(cur, pid, tids[k]);
      if next == None {
        return Failed(cur, pid, tids[k]);
      }
      ghost var before := PlaylistDb.PlaylistTracks(db, pid);
      assert before + tids[..k + 1] == (before + tids[..k]) + [tids[k]] by {
        assert tids[..k + 1] == tids[..k] + [tids[k]];
      }
      cur := next.value;
      k := k + 1;
    }
    assert tids[..k] == tids;
    return Added(cur, pid);
  }

  /** `add_tracks_to_current_or_choose`: `choice` is the name the dialog
      returned, `None` when it was cancelled. The tracks go to the first
      listed playlist with that name. */
  method AddTracksToChosen(db: PlaylistDb.Db, rows: seq<PlaylistRow>, choice: Option<string>, tids: seq<int>)
    returns (r: AddOutcome)
    requires PlaylistDb.Valid(db)
    requires forall k :: 0 <= k < |rows| ==> rows[k].id in db.playlists
    ensures rows == [] ==> r == NoPlaylists
    ensures rows != [] && (choice == None || choice == Some("")) ==> r == Cancelled
    ensures r.Added? || r.Failed? ==>
              && choice.Some?
              && exists k :: 0 <= k < |rows| && rows[k].name == choice.value && rows[k].id == r.pid
                             && forall j :: 0 <= j < k ==> rows[j].name != choice.value
    ensures r.Added? ==> PlaylistDb.PlaylistTracks(r.db, r.pid) == PlaylistDb.PlaylistTracks(db, r.pid) + tids
  {
    if rows == [] {
      return NoPlaylists;
    }
    if choice == None || choice.value == [] {
      return Cancelled;
    }
    var k := 0;
    while k < |rows|
      invariant 0 <= k <= |rows|
      invariant forall j :: 0 <= j < k ==> rows[j].name != choice.value
    {
      if rows[k].name == choice.value {
        r := AddAll(db, rows[k].id, tids);
        assert rows[k].name == choice.value && rows[k].id == r.pid;
        return;
      }
      k := k + 1;
    }
    return Cancelled;
  }
}
