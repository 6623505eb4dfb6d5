/**
 The playlist side of the library database (`app/db/database.py`).

 A playlist's `playlist_tracks` rows are modelled as the sequence that
 `SELECT ... ORDER BY position` returns: one `Entry` per row, holding the
 row's track id and stored position. SQL connections, transactions and row
 ids are not modelled; the order of rows and their stored positions are.
 */
module PlaylistDb {
  import opened Options

  datatype Entry = Entry(trackId: int, position: int)

  /** Positions strictly increase along the rows, so the sequence is the
      `ORDER BY position` order with no ties. */
  predicate Ordered(es: seq<Entry>) {
    forall i, j :: 0 <= i < j < |es| ==> es[i].position < es[j].position
  }

  function TrackIds(es: seq<Entry>): (ids: seq<int>)
    ensures |ids| == |es|
    ensures forall i :: 0 <= i < |es| ==> ids[i] == es[i].trackId
  {
    seq(|es|, i requires 0 <= i < |es| => es[i].trackId)
  }

  predicate Distinct(ids: seq<int>) {
    forall i, j :: 0 <= i < j < |ids| ==> ids[i] != ids[j]
  }

  // ----- add_track_to_playlist ---------------------------------------------

  /** `COALESCE(MAX(position), -1) + 1` over a playlist's rows: one past the
      largest stored position, or 0 for an empty playlist. */
  function NextPosition(es: seq<Entry>): (p: int)
    ensures forall i :: 0 <= i < |es| ==> es[i].position < p
    ensures es == [] ==> p == 0
    ensures es != [] ==> exists i :: 0 <= i < |es| && es[i].position == p - 1
  {
    if es == [] then 0
    else
      var init := es[..|es| - 1];
      var rest := NextPosition(init);
      var last := es[|es| - 1].position;
      if |es| == 1 || last + 1 > rest then last + 1
      else
        var i :| 0 <= i < |init| && init[i].position == rest - 1;
        assert es[i].position == rest - 1;
        rest
  }

  /** One new row for `tid` at `NextPosition`: it sorts after every existing
      row, so the track becomes the last of the playlist. */
  function AddEntry(es: seq<Entry>, tid: int): (r: seq<Entry>)
    ensures Ordered(es) ==> Ordered(r)
    ensures TrackIds(r) == TrackIds(es) + [tid]
  {
    es + [Entry(tid, NextPosition(es))]
  }

  // ----- remove_track_from_playlist / _reorder_playlist --------------------

  /** The ids other than `tid`, in order: every other id kept as often as
      it occurs, every occurrence of `tid` gone. */
  function IdsWithout(ids: seq<int>, tid: int): (r: seq<int>)
    ensures tid !in r
    ensures multiset(r) == multiset(ids)[tid := 0]
  {
    if ids == [] then []
    else
      var rest := IdsWithout(ids[1..], tid);
      assert ids == [ids[0]] + ids[1..];
      (if ids[0] == tid then [] else [ids[0]]) + rest
  }

  /** `DELETE FROM playlist_tracks WHERE track_id = tid`, restricted to one
      playlist's rows: every row of `tid` goes, every other row stays with
      its stored position. */
  function WithoutTrack(es: seq<Entry>, tid: int): (r: seq<Entry>)
    ensures |r| <= |es|
    ensures forall e :: e in r <==> e in es && e.trackId != tid
    ensures Ordered(es) ==> Ordered(r)
  {
    if es == [] then []
    else
      var rest := WithoutTrack(es[1..], tid);
      assert forall e :: e in es <==> e == es[0] || e in es[1..];
      if es[0].trackId == tid then rest
      else
        assert Ordered(es) ==> forall k :: 0 <= k < |rest| ==> es[0].position < rest[k].position by {
          if Ordered(es) {
            forall k | 0 <= k < |rest|
              ensures es[0].position < rest[k].position
            {
              assert rest[k] in es[1..];
              var j :| 0 <= j < |es[1..]| && es[1..][j] == rest[k];
              assert es[j + 1] == rest[k];
            }
          }
        }
        [es[0]] + rest
  }

  /** The surviving rows carry exactly the other track ids, in order. */
  lemma {:induction false} WithoutTrackIds(es: seq<Entry>, tid: int)
    ensures TrackIds(WithoutTrack(es, tid)) == IdsWithout(TrackIds(es), tid)
    decreases |es|
  {
    if es != [] {
      WithoutTrackIds(es[1..], tid);
      assert TrackIds(es)[1..] == TrackIds(es[1..]);
      var rest := WithoutTrack(es[1..], tid);
      if es[0].trackId != tid {
        assert TrackIds([es[0]] + rest) == [es[0].trackId] + TrackIds(rest);
      }
    }
  }

  /** `_reorder_playlist`: the i-th row in position order gets position i. */
  function Renumber(ids: seq<int>): (r: seq<Entry>)
    ensures |r| == |ids|
    ensures Ordered(r)
    ensures TrackIds(r) == ids
    ensures forall i :: 0 <= i < |r| ==> r[i].position == i
  {
    seq(|ids|, i requires 0 <= i < |ids| => Entry(ids[i], i))
  }

  /** `remove_track_from_playlist`: delete the track's rows, then renumber the
      rest `0..n-1` in their stored order. */
  function RemoveEntries(es: seq<Entry>, tid: int): (r: seq<Entry>)
    ensures TrackIds(r) == IdsWithout(TrackIds(es), tid)
    ensures forall i :: 0 <= i < |r| ==> r[i].position == i
    ensures forall e :: e in es && e.trackId != tid ==> e.trackId in TrackIds(r)
    ensures |r| <= |es|
  {
    var kept := WithoutTrack(es, tid);
    var r := Renumber(TrackIds(kept));
    WithoutTrackIds(es, tid);
    assert forall e :: e in kept ==> e.trackId in TrackIds(kept) by {
      forall e | e in kept ensures e.trackId in TrackIds(kept) {
        var i :| 0 <= i < |kept| && kept[i] == e;
        assert TrackIds(kept)[i] == e.trackId;
      }
    }
    r
  }

  /** Removal keeps the surviving rows in their order: when two rows of other
      tracks stand in order before the removal, their tracks stand in the same
      order after it. */
  lemma {:induction false} RemoveKeepsOrder(es: seq<Entry>, tid: int, i: nat, j: nat)
    requires Ordered(es)
    requires i < j < |es| && es[i].trackId != tid && es[j].trackId != tid
    ensures exists a, b :: 0 <= a < b < |RemoveEntries(es, tid)|
                           && RemoveEntries(es, tid)[a].trackId == es[i].trackId
                           && RemoveEntries(es, tid)[b].trackId == es[j].trackId
  {
    var kept := WithoutTrack(es, tid);
    var a, b := KeptInOrder(es, tid, i, j);
    var r := RemoveEntries(es, tid);
    assert r == Renumber(TrackIds(kept));
    assert r[a].trackId == es[i].trackId && r[b].trackId == es[j].trackId;
  }

  /** Two surviving rows stand in the kept rows in their original order. */
  lemma KeptInOrder(es: seq<Entry>, tid: int, i: nat, j: nat) returns (a: nat, b: nat)
    requires Ordered(es)
    requires i < j < |es| && es[i].trackId != tid && es[j].trackId != tid
    ensures a < b < |WithoutTrack(es, tid)|
    ensures WithoutTrack(es, tid)[a] == es[i] && WithoutTrack(es, tid)[b] == es[j]
  {
    var kept := WithoutTrack(es, tid);
    assert es[i] in es && es[j] in es;
    a :| 0 <= a < |kept| && kept[a] == es[i];
    b :| 0 <= b < |kept| && kept[b] == es[j];
    assert Ordered(kept);
  }

  // ----- move_track_in_playlist --------------------------------------------

  /** `ids.pop(from)` followed by `ids.insert(to, item)`. */
  function PopInsert(ids: seq<int>, from: nat, to: nat): (r: seq<int>)
    requires from < |ids| && to < |ids|
    ensures |r| == |ids|
    ensures r[to] == ids[from]
  {
    var rest := ids[..from] + ids[from + 1..];
    rest[..to] + [ids[from]] + rest[to..]
  }

  /** The move rearranges the ids: the same ids, each as often as before. */
  lemma PopInsertPermutes(ids: seq<int>, from: nat, to: nat)
    requires from < |ids| && to < |ids|
    ensures multiset(PopInsert(ids, from, to)) == multiset(ids)
  {
    var a, x, b := ids[..from], ids[from], ids[from + 1..];
    var rest := a + b;
    var c, d := rest[..to], rest[to..];
    assert ids == a + [x] + b;
    assert rest == c + d;
    assert PopInsert(ids, from, to) == c + [x] + d;
    MultisetMiddle(c, x, d);
    MultisetMiddle(a, x, b);
  }

  lemma MultisetMiddle(c: seq<int>, x: int, d: seq<int>)
    ensures multiset(c + [x] + d) == multiset(c + d) + multiset{x}
  {
    assert multiset(c + [x] + d) == multiset(c) + multiset([x]) + multiset(d);
  }

  /** Taking the moved id out of the result leaves the other ids in their
      original relative order. */
  lemma PopInsertKeepsOthers(ids: seq<int>, from: nat, to: nat)
    requires from < |ids| && to < |ids|
    ensures PopInsert(ids, from, to)[..to] + PopInsert(ids, from, to)[to + 1..] == ids[..from] + ids[from + 1..]
  {
    var rest := ids[..from] + ids[from + 1..];
    var r := PopInsert(ids, from, to);
    assert r[..to] == rest[..to] && r[to + 1..] == rest[to..];
    assert rest[..to] + rest[to..] == rest;
  }

  lemma {:induction false} PopInsertDistinct(ids: seq<int>, from: nat, to: nat)
    requires from < |ids| && to < |ids| && Distinct(ids)
    ensures Distinct(PopInsert(ids, from, to))
  {
    var r := PopInsert(ids, from, to);
    forall i, j | 0 <= i < j < |r|
      ensures r[i] != r[j]
    {
      if r[i] == r[j] {
        PopInsertPermutes(ids, from, to);
        assert multiset(r)[r[i]] >= 2 by {
          assert r == r[..j] + r[j..];
          assert r[i] in multiset(r[..j]) && r[j] in multiset(r[j..]);
        }
        assert Distinct(ids);
        MultiplicityOne(ids, r[i]);
        assert false;
      }
    }
  }

  /** A value occurs at most once in a sequence without repetitions. */
  lemma {:induction false} MultiplicityOne(ids: seq<int>, x: int)
    requires Distinct(ids)
    ensures multiset(ids)[x] <= 1
    decreases |ids|
  {
    if ids != [] {
      MultiplicityOne(ids[1..], x);
      assert ids == [ids[0]] + ids[1..];
      if ids[0] == x {
        assert x !in ids[1..];
      }
    }
  }

  /** The last index of `x` in `s`. */
  function LastIndexOf(s: seq<int>, x: int): (i: nat)
    requires x in s
    ensures i < |s| && s[i] == x
    ensures forall j :: i < j < |s| ==> s[j] != x
  {
    if s[|s| - 1] == x then |s| - 1
    else
      assert x in s[..|s| - 1] by {
        var k :| 0 <= k < |s| && s[k] == x;
        assert s[..|s| - 1][k] == x;
      }
      LastIndexOf(s[..|s| - 1], x)
  }

  /** The positions the source's update loop leaves on the rows. It runs
      `UPDATE ... SET position = i WHERE track_id = ids[i]` for every i of the
      reordered ids, so every row of a track ends with the LAST index at which
      that track occurs; entry k is the position row k ends with. */
  function RowPositions(ids: seq<int>, from: nat, to: nat): (p: seq<int>)
    requires from < |ids| && to < |ids|
    ensures |p| == |ids|
    ensures forall k :: 0 <= k < |p| ==> 0 <= p[k] < |ids| && PopInsert(ids, from, to)[p[k]] == ids[k]
  {
    var moved := PopInsert(ids, from, to);
    PopInsertPermutes(ids, from, to);
    assert forall k :: 0 <= k < |ids| ==> ids[k] in moved by {
      forall k | 0 <= k < |ids| ensures ids[k] in moved {
        assert ids[k] in multiset(ids);
      }
    }
    seq(|ids|, k requires 0 <= k < |ids| => LastIndexOf(moved, ids[k]))
  }

  /** `move_track_in_playlist` as its evident intent: out-of-range indices
      change nothing, otherwise the rows take the popped-and-inserted order
      with positions `0..n-1`. */
  function MoveEntries(es: seq<Entry>, from: int, to: int): (r: seq<Entry>)
    ensures !(0 <= from < |es| && 0 <= to < |es|) ==> r == es
    ensures 0 <= from < |es| && 0 <= to < |es| ==>
              && Ordered(r)
              && |r| == |es|
              && (forall i :: 0 <= i < |r| ==> r[i].position == i)
              && r[to].trackId == es[from].trackId
  {
    if from < 0 || from >= |es| || to < 0 || to >= |es| then es
    else Renumber(PopInsert(TrackIds(es), from, to))
  }

  /** An in-range move keeps the playlist's tracks, each as often as before,
      and the tracks other than the moved one keep their relative order. */
  lemma MoveKeepsTracks(es: seq<Entry>, from: nat, to: nat)
    requires from < |es| && to < |es|
    ensures multiset(TrackIds(MoveEntries(es, from, to))) == multiset(TrackIds(es))
    ensures TrackIds(MoveEntries(es, from, to))[..to] + TrackIds(MoveEntries(es, from, to))[to + 1..]
            == TrackIds(es)[..from] + TrackIds(es)[from + 1..]
  {
    var moved := PopInsert(TrackIds(es), from, to);
    assert TrackIds(MoveEntries(es, from, to)) == moved;
    PopInsertPermutes(TrackIds(es), from, to);
    PopInsertKeepsOthers(TrackIds(es), from, to);
  }

  /** On a playlist without repeated tracks the source's update loop agrees
      with `MoveEntries`: row k ends at the slot where the move puts its
      track, no two rows share a position, and every position `0..n-1` is
      taken. */
  lemma {:induction false} MoveUpdateAgrees(es: seq<Entry>, from: nat, to: nat)
    requires from < |es| && to < |es| && Distinct(TrackIds(es))
    ensures forall k :: 0 <= k < |es| ==>
              MoveEntries(es, from, to)[RowPositions(TrackIds(es), from, to)[k]] == Entry(es[k].trackId, RowPositions(TrackIds(es), from, to)[k])
    ensures forall k, l :: 0 <= k < l < |es| ==>
              RowPositions(TrackIds(es), from, to)[k] != RowPositions(TrackIds(es), from, to)[l]
    ensures forall i :: 0 <= i < |es| ==> i in RowPositions(TrackIds(es), from, to)
  {
    var ids := TrackIds(es);
    var moved := PopInsert(ids, from, to);
    var p := RowPositions(ids, from, to);
    PopInsertDistinct(ids, from, to);
    PopInsertPermutes(ids, from, to);
    SlotsBijective(ids, moved, p);
    assert MoveEntries(es, from, to) == Renumber(moved);
  }

  /** When every element of a repetition-free `ids` is sent to a slot of a
      rearrangement `moved` that holds it, the slots are all different and
      cover every index. */
  lemma SlotsBijective(ids: seq<int>, moved: seq<int>, p: seq<int>)
    requires |moved| == |ids| == |p| && multiset(moved) == multiset(ids)
    requires Distinct(ids) && Distinct(moved)
    requires forall k :: 0 <= k < |p| ==> 0 <= p[k] < |moved| && moved[p[k]] == ids[k]
    ensures forall k, l :: 0 <= k < l < |p| ==> p[k] != p[l]
    ensures forall i :: 0 <= i < |p| ==> i in p
  {
    forall i | 0 <= i < |p|
      ensures i in p
    {
      assert moved[i] in multiset(ids);
      var k :| 0 <= k < |ids| && ids[k] == moved[i];
      assert moved[p[k]] == moved[i];
      assert p[k] == i;
    }
  }

  /** The update loop is wrong when a track occurs twice: moving the last
      entry of [7, 8, 7] onto its own slot leaves the order unchanged in
      intent, but both rows of track 7 end at position 2 and no row at 0, so
      `ORDER BY position` now yields 8 first. */
  lemma DuplicateMoveCollides()
    ensures PopInsert([7, 8, 7], 2, 2) == [7, 8, 7]
    ensures RowPositions([7, 8, 7], 2, 2) == [2, 1, 2]
    ensures 0 !in RowPositions([7, 8, 7], 2, 2)
  {
    var ids := [7, 8, 7];
    var moved := PopInsert(ids, 2, 2);
    assert ids[..2] + ids[3..] == [7, 8];
    assert moved == [7, 8, 7];
    assert LastIndexOf(moved, 7) == 2;
    assert LastIndexOf(moved, 8) == 1 by {
      assert moved[..2] == [7, 8];
    }
    var p := RowPositions(ids, 2, 2);
    assert p[0] == 2 && p[1] == 1 && p[2] == 2;
  }

  // ----- database state ----------------------------------------------------

  datatype Track = Track(title: string, artist: string, durationMs: int,
                         audioPath: string, srtPath: string, lyricOffsetMs: int)

  datatype Playlist = Playlist(name: string, rows: seq<Entry>)

  datatype Db = Db(tracks: map<int, Track>, playlists: map<int, Playlist>)

  /** Rows are in position order and every row names an existing track (the
      foreign key on `playlist_tracks.track_id`). */
  predicate RowsValid(tracks: map<int, Track>, rows: seq<Entry>) {
    Ordered(rows) && forall i :: 0 <= i < |rows| ==> rows[i].trackId in tracks
  }

  predicate Valid(db: Db) {
    forall pid :: pid in db.playlists ==> RowsValid(db.tracks, db.playlists[pid].rows)
  }

  /** Ids of the rows whose track exists (the `JOIN tracks`). */
  function Joined(tracks: map<int, Track>, rows: seq<Entry>): (ids: seq<int>)
    ensures |ids| <= |rows|
    ensures forall i :: 0 <= i < |ids| ==> ids[i] in tracks
  {
    if rows == [] then []
    else (if rows[0].trackId in tracks then [rows[0].trackId] else []) + Joined(tracks, rows[1..])
  }

  /** `get_playlist_tracks`: the playlist's tracks in position order; an
      unknown playlist has none. */
  function PlaylistTracks(db: Db, pid: int): (ids: seq<int>)
    ensures pid !in db.playlists ==> ids == []
    ensures Valid(db) && pid in db.playlists ==> ids == TrackIds(db.playlists[pid].rows)
  {
    if pid !in db.playlists then []
    else
      var rows := db.playlists[pid].rows;
      assert Valid(db) ==> Joined(db.tracks, rows) == TrackIds(rows) by {
        if Valid(db) { JoinedAll(db.tracks, rows); }
      }
      Joined(db.tracks, rows)
  }

  lemma {:induction false} JoinedAll(tracks: map<int, Track>, rows: seq<Entry>)
    requires forall i :: 0 <= i < |rows| ==> rows[i].trackId in tracks
    ensures Joined(tracks, rows) == TrackIds(rows)
    decreases |rows|
  {
    if rows != [] {
      JoinedAll(tracks, rows[1..]);
      assert TrackIds(rows) == [rows[0].trackId] + TrackIds(rows[1..]);
    }
  }

  function SetRows(db: Db, pid: int, rows: seq<Entry>): Db
    requires pid in db.playlists
  {
    db.(playlists := db.playlists[pid := db.playlists[pid].(rows := rows)])
  }

  lemma SetRowsValid(db: Db, pid: int, rows: seq<Entry>)
    requires Valid(db) && pid in db.playlists && RowsValid(db.tracks, rows)
    ensures Valid(SetRows(db, pid, rows))
    ensures PlaylistTracks(SetRows(db, pid, rows), pid) == TrackIds(rows)
  {
  }

  /** `add_track_to_playlist`: with foreign keys enforced, a row naming an
      unknown playlist or track is rejected (`None`); otherwise the track is
      appended after every existing entry and no other playlist changes. */
  function AddTrackToPlaylist(db: Db, pid: int, tid: int): (r: Option<Db>)
    ensures r.Some? <==> pid in db.playlists && tid in db.tracks
    ensures r.Some? ==> r.value.tracks == db.tracks && r.value.playlists.Keys == db.playlists.Keys
    ensures r.Some? ==> forall q :: q in db.playlists && q != pid ==> r.value.playlists[q] == db.playlists[q]
    ensures r.Some? && Valid(db) ==> Valid(r.value) && PlaylistTracks(r.value, pid) == PlaylistTracks(db, pid) + [tid]
  {
    if pid !in db.playlists || tid !in db.tracks then None
    else
      var rows := AddEntry(db.playlists[pid].rows, tid);
      var r := SetRows(db, pid, rows);
      assert Valid(db) ==> Valid(r) && PlaylistTracks(r, pid) == TrackIds(rows) by {
        if Valid(db) { SetRowsValid(db, pid, rows); }
      }
      Some(r)
  }

  /** `remove_track_from_playlist`: every entry of the track leaves the
      playlist and the rest are renumbered `0..n-1`. */
  function RemoveTrackFromPlaylist(db: Db, pid: int, tid: int): (r: Db)
    ensures pid !in db.playlists ==> r == db
    ensures r.tracks == db.tracks && r.playlists.Keys == db.playlists.Keys
    ensures forall q :: q in db.playlists && q != pid ==> r.playlists[q] == db.playlists[q]
    ensures Valid(db) ==> Valid(r) && PlaylistTracks(r, pid) == IdsWithout(PlaylistTracks(db, pid), tid)
  {
    if pid !in db.playlists then db
    else
      var rows := RemoveEntries(db.playlists[pid].rows, tid);
      var r := SetRows(db, pid, rows);
      assert Valid(db) ==> Valid(r) && PlaylistTracks(r, pid) == TrackIds(rows) by {
        if Valid(db) {
          var kept := WithoutTrack(db.playlists[pid].rows, tid);
          forall i | 0 <= i < |rows| ensures rows[i].trackId in db.tracks {
            assert kept[i] in db.playlists[pid].rows;
          }
          SetRowsValid(db, pid, rows);
        }
      }
      r
  }

  /** `move_track_in_playlist` (see `MoveEntries`); an unknown playlist has no
      tracks, so every index is out of range. */
  function MoveTrackInPlaylist(db: Db, pid: int, from: int, to: int): (r: Db)
    ensures pid !in db.playlists ==> r == db
    ensures r.tracks == db.tracks && r.playlists.Keys == db.playlists.Keys
    ensures forall q :: q in db.playlists && q != pid ==> r.playlists[q] == db.playlists[q]
    ensures Valid(db) ==> Valid(r) && multiset(PlaylistTracks(r, pid)) == multiset(PlaylistTracks(db, pid))
  {
    if pid !in db.playlists then db
    else
      var before := db.playlists[pid].rows;
      var rows := MoveEntries(before, from, to);
      var r := SetRows(db, pid, rows);
      MoveRowsValid(db.tracks, before, from, to);
      assert Valid(db) ==> Valid(r) && PlaylistTracks(r, pid) == TrackIds(rows) by {
        if Valid(db) { SetRowsValid(db, pid, rows); }
      }
      r
  }

  /** Where the playlist has no repeated track, the rows `MoveTrackInPlaylist`
      leaves are the source's rows: row k keeps its track and sits at the
      position the update loop gives it. */
  lemma MoveTrackAsWritten(db: Db, pid: int, from: nat, to: nat)
    requires Valid(db) && pid in db.playlists
    requires from < |PlaylistTracks(db, pid)| && to < |PlaylistTracks(db, pid)| && Distinct(PlaylistTracks(db, pid))
    ensures var rows := db.playlists[pid].rows;
            var p := RowPositions(TrackIds(rows), from, to);
            var moved := MoveTrackInPlaylist(db, pid, from, to).playlists[pid].rows;
            forall k :: 0 <= k < |rows| ==> moved[p[k]] == Entry(rows[k].trackId, p[k])
  {
    MoveUpdateAgrees(db.playlists[pid].rows, from, to);
  }

  lemma MoveRowsValid(tracks: map<int, Track>, before: seq<Entry>, from: int, to: int)
    ensures multiset(TrackIds(MoveEntries(before, from, to))) == multiset(TrackIds(before))
    ensures RowsValid(tracks, before) ==> RowsValid(tracks, MoveEntries(before, from, to))
  {
    var rows := MoveEntries(before, from, to);
    if 0 <= from < |before| && 0 <= to < |before| {
      MoveKeepsTracks(before, from, to);
      if RowsValid(tracks, before) {
        forall i | 0 <= i < |rows| ensures rows[i].trackId in tracks {
          assert TrackIds(rows)[i] in multiset(TrackIds(before));
          var k :| 0 <= k < |before| && TrackIds(before)[k] == rows[i].trackId;
        }
      }
    }
  }

  /** `s` with the elements at `a` and `b` exchanged. */
  function Swap(s: seq<int>, a: nat, b: nat): (r: seq<int>)
    requires a < |s| && b < |s|
    ensures |r| == |s| && r[a] == s[b] && r[b] == s[a]
    ensures forall k :: 0 <= k < |s| && k != a && k != b ==> r[k] == s[k]
  {
    s[a := s[b]][b := s[a]]
  }

  /** Exchanging twice restores the order. */
  lemma SwapTwice(s: seq<int>, a: nat, b: nat)
    requires a < |s| && b < |s|
    ensures Swap(Swap(s, a, b), a, b) == s
  {
  }

  /** Moving a track one place up or down exchanges it with its neighbour. */
  lemma PopInsertAdjacent(ids: seq<int>, i: nat)
    requires 0 < i < |ids|
    ensures PopInsert(ids, i, i - 1) == Swap(ids, i - 1, i)
    ensures PopInsert(ids, i - 1, i) == Swap(ids, i - 1, i)
  {
    var a, b := ids[..i - 1], ids[i + 1..];
    assert ids == a + [ids[i - 1], ids[i]] + b;
    AdjacentUp(a, ids[i - 1], ids[i], b);
    AdjacentDown(a, ids[i - 1], ids[i], b);
    AdjacentSwapped(a, ids[i - 1], ids[i], b);
  }

  lemma AdjacentUp(a: seq<int>, x: int, y: int, b: seq<int>)
    ensures PopInsert(a + [x, y] + b, |a| + 1, |a|) == a + [y, x] + b
  {
    var s := a + [x, y] + b;
    var rest := s[..|a| + 1] + s[|a| + 2..];
    assert s[..|a| + 1] == a + [x];
    assert s[|a| + 2..] == b;
    assert rest[..|a|] == a && rest[|a|..] == [x] + b;
  }

  lemma AdjacentDown(a: seq<int>, x: int, y: int, b: seq<int>)
    ensures PopInsert(a + [x, y] + b, |a|, |a| + 1) == a + [y, x] + b
  {
    var s := a + [x, y] + b;
    var rest := s[..|a|] + s[|a| + 1..];
    assert s[..|a|] == a;
    assert s[|a| + 1..] == [y] + b;
    assert rest[..|a| + 1] == a + [y] && rest[|a| + 1..] == b;
  }

  lemma AdjacentSwapped(a: seq<int>, x: int, y: int, b: seq<int>)
    ensures Swap(a + [x, y] + b, |a|, |a| + 1) == a + [y, x] + b
  {
  }

  /** On a valid database, moving the track at `i` one place up, or the one
      at `i - 1` one place down, exchanges the two in the playlist. */
  lemma MoveAdjacent(db: Db, pid: int, i: nat)
    requires Valid(db) && pid in db.playlists && 0 < i < |PlaylistTracks(db, pid)|
    ensures PlaylistTracks(MoveTrackInPlaylist(db, pid, i, i - 1), pid) == Swap(PlaylistTracks(db, pid), i - 1, i)
    ensures PlaylistTracks(MoveTrackInPlaylist(db, pid, i - 1, i), pid) == Swap(PlaylistTracks(db, pid), i - 1, i)
  {
    var rows := db.playlists[pid].rows;
    var ids := TrackIds(rows);
    PopInsertAdjacent(ids, i);
    MoveRowsValid(db.tracks, rows, i, i - 1);
    MoveRowsValid(db.tracks, rows, i - 1, i);
    SetRowsValid(db, pid, MoveEntries(rows, i, i - 1));
    SetRowsValid(db, pid, MoveEntries(rows, i - 1, i));
  }

  /** The source's update loop on an adjacent move, for a playlist without
      repeated tracks: the two rows trade positions and every other row keeps
      its slot, which is the exchange `MoveAdjacent` states. */
  lemma MoveAdjacentAsWritten(ids: seq<int>, i: nat)
    requires 0 < i < |ids| && Distinct(ids)
    ensures var p := RowPositions(ids, i, i - 1);
            p[i] == i - 1 && p[i - 1] == i && forall k :: 0 <= k < |ids| && k != i && k != i - 1 ==> p[k] == k
    ensures var p := RowPositions(ids, i - 1, i);
            p[i] == i - 1 && p[i - 1] == i && forall k :: 0 <= k < |ids| && k != i && k != i - 1 ==> p[k] == k
  {
    PopInsertAdjacent(ids, i);
    var sw := Swap(ids, i - 1, i);
    SlotIsUnique(ids, sw, RowPositions(ids, i, i - 1), i);
    SlotIsUnique(ids, sw, RowPositions(ids, i - 1, i), i);
  }

  /** In a rearrangement without repetitions each id has one slot, so a slot
      holding `ids[k]` is the one the exchange put it in. */
  lemma SlotIsUnique(ids: seq<int>, sw: seq<int>, p: seq<int>, i: nat)
    requires 0 < i < |ids| && Distinct(ids) && sw == Swap(ids, i - 1, i)
    requires |p| == |ids| && forall k :: 0 <= k < |p| ==> 0 <= p[k] < |sw| && sw[p[k]] == ids[k]
    ensures p[i] == i - 1 && p[i - 1] == i && forall k :: 0 <= k < |ids| && k != i && k != i - 1 ==> p[k] == k
  {
    assert sw[i - 1] == ids[i] && sw[i] == ids[i - 1];
    forall k | 0 <= k < |ids|
      ensures p[k] == (if k == i then i - 1 else if k == i - 1 then i else k)
    {
      var q := p[k];
      var src := if q == i then i - 1 else if q == i - 1 then i else q;
      assert sw[q] == ids[src];
      assert src == k;
    }
  }

  /** On a playlist with a repeated track the update loop departs from the
      exchange: moving row 1 of [7, 8, 9, 7] up intends [8, 7, 9, 7], but both
      rows of track 7 end at position 3, so `ORDER BY position` lists 8, 9, 7, 7. */
  lemma RepeatedMoveUpWitness()
    ensures PopInsert([7, 8, 9, 7], 1, 0) == Swap([7, 8, 9, 7], 0, 1) == [8, 7, 9, 7]
    ensures RowPositions([7, 8, 9, 7], 1, 0) == [3, 0, 2, 3]
  {
    var ids := [7, 8, 9, 7];
    var moved := PopInsert(ids, 1, 0);
    assert ids[..1] + ids[2..] == [7, 9, 7];
    assert moved == [8, 7, 9, 7];
    assert LastIndexOf(moved, 7) == 3;
    assert LastIndexOf(moved, 9) == 2 by {
      assert moved[..3] == [8, 7, 9];
    }
    assert LastIndexOf(moved, 8) == 0 by {
      assert moved[..3] == [8, 7, 9];
      assert moved[..3][..2] == [8, 7];
      assert moved[..3][..2][..1] == [8];
    }
    var p := RowPositions(ids, 1, 0);
    assert p[0] == 3 && p[1] == 0 && p[2] == 2 && p[3] == 3;
  }

  datatype Deleted = Deleted(db: Db, track: Option<Track>)

  /** `delete_track`: returns the deleted track (if any); its rows leave every
      playlist, and the other rows keep their stored positions (no
      renumbering). */
  function DeleteTrack(db: Db, tid: int): (r: Deleted)
    ensures r.track == (if tid in db.tracks then Some(db.tracks[tid]) else None)
    ensures r.db.tracks == db.tracks - {tid}
    ensures r.db.playlists.Keys == db.playlists.Keys
    ensures forall q :: q in r.db.playlists ==> r.db.playlists[q].name == db.playlists[q].name
    ensures forall q :: q in r.db.playlists ==> tid !in TrackIds(r.db.playlists[q].rows)
    ensures Valid(db) ==> Valid(r.db)
  {
    var playlists := map q | q in db.playlists :: db.playlists[q].(rows := WithoutTrack(db.playlists[q].rows, tid));
    var r := Deleted(Db(db.tracks - {tid}, playlists), if tid in db.tracks then Some(db.tracks[tid]) else None);
    assert Valid(db) ==> Valid(r.db) by {
      if Valid(db) {
        forall q | q in playlists ensures RowsValid(r.db.tracks, playlists[q].rows) {
          var rows := playlists[q].rows;
          forall i | 0 <= i < |rows| ensures rows[i].trackId in r.db.tracks {
            assert rows[i] in rows;
            var j :| 0 <= j < |db.playlists[q].rows| && db.playlists[q].rows[j] == rows[i];
          }
        }
      }
    }
    r
  }

  /** Deleting a track keeps every other entry of every playlist, in order. */
  lemma DeleteTrackKeepsOthers(db: Db, tid: int, q: int, e: Entry)
    requires q in db.playlists && e in db.playlists[q].rows && e.trackId != tid
    ensures e in DeleteTrack(db, tid).db.playlists[q].rows
  {
  }

  /** `delete_playlist`: the playlist and all of its entries go; nothing else
      changes. */
  function DeletePlaylist(db: Db, pid: int): (r: Db)
    ensures pid !in r.playlists && PlaylistTracks(r, pid) == []
    ensures r.tracks == db.tracks
    ensures forall q :: q != pid ==> (q in r.playlists <==> q in db.playlists)
    ensures forall q :: q in r.playlists ==> r.playlists[q] == db.playlists[q]
    ensures Valid(db) ==> Valid(r)
  {
    db.(playlists := db.playlists - {pid})
  }

  /** One `column = value` pair of `update_track`'s keyword arguments. */
  datatype Change =
    | Title(title: string)
    | Artist(artist: string)
    | DurationMs(ms: int)
    | AudioPath(path: string)
    | SrtPath(path: string)
    | LyricOffsetMs(offset: int)

  function ApplyChange(t: Track, c: Change): Track {
    match c
    case Title(s) => t.(title := s)
    case Artist(s) => t.(artist := s)
    case DurationMs(ms) => t.(durationMs := ms)
    case AudioPath(p) => t.(audioPath := p)
    case SrtPath(p) => t.(srtPath := p)
    case LyricOffsetMs(o) => t.(lyricOffsetMs := o)
  }

  function ApplyChanges(t: Track, cs: seq<Change>): Track
    decreases |cs|
  {
    if cs == [] then t else ApplyChanges(ApplyChange(t, cs[0]), cs[1..])
  }

  /** `update_track`: no keyword arguments means no statement at all; an
      unknown id matches no row. Only that track's columns change. */
  function UpdateTrack(db: Db, tid: int, changes: seq<Change>): (r: Db)
    ensures changes == [] || tid !in db.tracks ==> r == db
    ensures r.playlists == db.playlists && r.tracks.Keys == db.tracks.Keys
    ensures forall t :: t in db.tracks && t != tid ==> r.tracks[t] == db.tracks[t]
    ensures Valid(db) ==> Valid(r)
  {
    if changes == [] || tid !in db.tracks then db
    else db.(tracks := db.tracks[tid := ApplyChanges(db.tracks[tid], changes)])
  }

  /** `set_track_offset`: only the track's lyric offset changes. */
  lemma SetTrackOffset(db: Db, tid: int, ms: int)
    requires tid in db.tracks
    ensures UpdateTrack(db, tid, [LyricOffsetMs(ms)]).tracks[tid] == db.tracks[tid].(lyricOffsetMs := ms)
  {
    assert ApplyChanges(db.tracks[tid], [LyricOffsetMs(ms)]) == ApplyChange(db.tracks[tid], LyricOffsetMs(ms)) by {
      assert [LyricOffsetMs(ms)][1..] == [];
    }
  }
}
