/** back_end/src/databases/playlists.rs: creating playlists, adding tracks to them, and the
    three playlist queries. */
module Playlists {
  import opened Wrappers
  import opened Models
  import opened Dtos
  import opened Tables

  /** `create_playlist`: one new playlist owned by `userId`, with a fresh id. */
  method CreatePlaylist(db: Database, userId: Uuid, title: string, thumbnailPath: string)
    requires db.Valid()
    modifies db
    ensures db.Valid()
    ensures db.playlists == old(db.playlists) + [PlaylistRow(old(db.nextId), userId, title, Some(thumbnailPath))]
    ensures db.nextId == old(db.nextId) + 1
    ensures db.tracks == old(db.tracks) && db.userFavorites == old(db.userFavorites) && db.favorites == old(db.favorites)
    ensures db.history == old(db.history) && db.playlistTracks == old(db.playlistTracks)
  {
    db.playlists := db.playlists + [PlaylistRow(db.nextId, userId, title, Some(thumbnailPath))];
    db.nextId := db.nextId + 1;
  }

  /** `add_track_to_playlist`: one new `(playlist, track, order)` row; no other row changes. */
  method AddTrackToPlaylist(db: Database, playlistId: Uuid, trackId: Uuid, trackOrder: Int32)
    requires db.Valid()
    modifies db
    ensures db.Valid()
    ensures db.playlistTracks == old(db.playlistTracks) + [PlaylistTrackRow(playlistId, trackId, Some(trackOrder))]
    ensures db.tracks == old(db.tracks) && db.userFavorites == old(db.userFavorites) && db.favorites == old(db.favorites)
    ensures db.history == old(db.history) && db.playlists == old(db.playlists) && db.nextId == old(db.nextId)
  {
    db.playlistTracks := db.playlistTracks + [PlaylistTrackRow(playlistId, trackId, Some(trackOrder))];
  }

  predicate InPlaylist(row: PlaylistTrackRow, playlist: Uuid) {
    row.playlist == playlist
  }

  /** SQL `MAX(track_order)` over the rows of `playlist`: the largest non-NULL order, or NULL
      when there is none. */
  function MaxTrackOrder(rows: seq<PlaylistTrackRow>, playlist: Uuid): (m: Option<Int32>)
    ensures m.None? <==> forall i :: 0 <= i < |rows| && InPlaylist(rows[i], playlist) ==> rows[i].trackOrder.None?
    ensures m.Some? ==> exists i :: 0 <= i < |rows| && InPlaylist(rows[i], playlist) && rows[i].trackOrder == m
    ensures m.Some? ==> forall i :: 0 <= i < |rows| && InPlaylist(rows[i], playlist) && rows[i].trackOrder.Some? ==>
                          rows[i].trackOrder.value <= m.value
  {
    if rows == [] then None
    else
      var last := rows[|rows| - 1];
      var earlier := MaxTrackOrder(rows[..|rows| - 1], playlist);
      assert forall i :: 0 <= i < |rows| - 1 ==> rows[..|rows| - 1][i] == rows[i];
      if !InPlaylist(last, playlist) || last.trackOrder.None? then earlier
      else if earlier.None? || earlier.value < last.trackOrder.value then last.trackOrder
      else earlier
  }

  /** The last order of `playlist`, as `COALESCE(MAX(track_order), 0)` computes it: the largest
      order among its rows, or 0 when it has none. This is the lookup `get_last_track_order`
      is evidently meant to be. */
  function LastTrackOrder(rows: seq<PlaylistTrackRow>, playlist: Uuid): (r: Int32)
    ensures (forall i :: 0 <= i < |rows| && InPlaylist(rows[i], playlist) ==> rows[i].trackOrder.None?) ==> r == 0
    ensures forall i :: 0 <= i < |rows| && InPlaylist(rows[i], playlist) && rows[i].trackOrder.Some? ==>
              rows[i].trackOrder.value <= r
    ensures (exists i :: 0 <= i < |rows| && InPlaylist(rows[i], playlist) && rows[i].trackOrder.Some?) ==>
              exists i :: 0 <= i < |rows| && InPlaylist(rows[i], playlist) && rows[i].trackOrder == Some(r)
  {
    var m := MaxTrackOrder(rows, playlist);
    if m.None? then 0 else m.value
  }

  /** `get_last_track_order` as written: the first row of `ORDER BY track_order DESC`, taken by
      `fetch_one`. No row is an error, and since a descending order puts NULLs first, any NULL
      order makes the answer 0. */
  function LastTrackOrderAsWritten(rows: seq<PlaylistTrackRow>, playlist: Uuid): (r: Result<Int32, SqlError>)
    ensures r == Failure(RowNotFound) <==> forall i :: 0 <= i < |rows| ==> !InPlaylist(rows[i], playlist)
    ensures r.Failure? ==> r.error == RowNotFound
    ensures (exists i :: 0 <= i < |rows| && InPlaylist(rows[i], playlist) && rows[i].trackOrder.None?) ==> r == Success(0)
  {
    if forall i | 0 <= i < |rows| :: !InPlaylist(rows[i], playlist) then Failure(RowNotFound)
    else if exists i | 0 <= i < |rows| :: InPlaylist(rows[i], playlist) && rows[i].trackOrder.None? then Success(0)
    else Success(LastTrackOrder(rows, playlist))
  }

  /** Where the playlist has rows and none with a NULL order, the lookup as written agrees with
      the intended one. */
  lemma AsWrittenAgreesWithoutNulls(rows: seq<PlaylistTrackRow>, playlist: Uuid, i: nat)
    requires i < |rows| && InPlaylist(rows[i], playlist)
    requires forall j :: 0 <= j < |rows| && InPlaylist(rows[j], playlist) ==> rows[j].trackOrder.Some?
    ensures LastTrackOrderAsWritten(rows, playlist) == Success(LastTrackOrder(rows, playlist))
  {
  }

  /** As written, an empty playlist makes the lookup fail, where the intended order is 0. */
  lemma EmptyPlaylistFails(rows: seq<PlaylistTrackRow>, playlist: Uuid)
    requires forall i :: 0 <= i < |rows| ==> !InPlaylist(rows[i], playlist)
    ensures LastTrackOrderAsWritten(rows, playlist) == Failure(RowNotFound)
    ensures LastTrackOrder(rows, playlist) == 0
  {
  }

  /** As written, a NULL order hides the largest one: orders 3 and NULL give 0, not 3. */
  lemma NullOrderHidesMaximum(playlist: Uuid, a: Uuid, b: Uuid)
    ensures var rows := [PlaylistTrackRow(playlist, a, Some(3)), PlaylistTrackRow(playlist, b, None)];
            LastTrackOrderAsWritten(rows, playlist) == Success(0) && LastTrackOrder(rows, playlist) == 3
  {
    var rows := [PlaylistTrackRow(playlist, a, Some(3)), PlaylistTrackRow(playlist, b, None)];
    assert InPlaylist(rows[1], playlist) && rows[1].trackOrder.None?;
    assert InPlaylist(rows[0], playlist) && rows[0].trackOrder == Some(3);
  }

  /** Appending at the next order makes that order the playlist's last, greater than every
      order before it, and leaves every other playlist's last order alone. */
  lemma AppendAtNextOrder(rows: seq<PlaylistTrackRow>, playlist: Uuid, track: Uuid, other: Uuid)
    requires LastTrackOrder(rows, playlist) < 0x7fff_ffff
    requires other != playlist
    ensures var next := LastTrackOrder(rows, playlist) + 1;
            var after := rows + [PlaylistTrackRow(playlist, track, Some(next))];
            && LastTrackOrder(after, playlist) == next
            && (forall i :: 0 <= i < |rows| && InPlaylist(rows[i], playlist) && rows[i].trackOrder.Some? ==>
                  rows[i].trackOrder.value < next)
            && LastTrackOrder(after, other) == LastTrackOrder(rows, other)
  {
  }

  /** The listing row for playlist `p`: its id, title and thumbnail, and its last order. */
  function Summary(p: PlaylistRow, rows: seq<PlaylistTrackRow>): PlayListDto {
    PlayListDto(p.id, p.title, p.thumbnailPath, Some(LastTrackOrder(rows, p.id)))
  }

  /** The playlists `user` owns, in table order. */
  function OwnedPlaylists(playlists: seq<PlaylistRow>, user: Uuid): (owned: seq<PlaylistRow>)
    ensures forall p :: p in owned <==> p in playlists && p.owner == user
    ensures forall p :: multiset(owned)[p] == if p.owner == user then multiset(playlists)[p] else 0
  {
    if playlists == [] then []
    else
      var earlier := OwnedPlaylists(playlists[..|playlists| - 1], user);
      var p := playlists[|playlists| - 1];
      assert playlists == playlists[..|playlists| - 1] + [p];
      if p.owner == user then earlier + [p] else earlier
  }

  /** The listing rows of the playlists `user` owns, in table order. */
  function UserSummaries(playlists: seq<PlaylistRow>, rows: seq<PlaylistTrackRow>, user: Uuid): (r: seq<PlayListDto>)
    ensures |r| == |OwnedPlaylists(playlists, user)|
    ensures forall k :: 0 <= k < |r| ==> r[k] == Summary(OwnedPlaylists(playlists, user)[k], rows)
    ensures forall d :: d in r <==> exists p :: p in playlists && p.owner == user && d == Summary(p, rows)
  {
    var owned := OwnedPlaylists(playlists, user);
    var r := seq(|owned|, k requires 0 <= k < |owned| => Summary(owned[k], rows));
    SummariesOfOwned(playlists, rows, user, r);
    r
  }

  lemma SummariesOfOwned(playlists: seq<PlaylistRow>, rows: seq<PlaylistTrackRow>, user: Uuid, r: seq<PlayListDto>)
    requires |r| == |OwnedPlaylists(playlists, user)|
    requires forall k :: 0 <= k < |r| ==> r[k] == Summary(OwnedPlaylists(playlists, user)[k], rows)
    ensures forall d :: d in r <==> exists p :: p in playlists && p.owner == user && d == Summary(p, rows)
  {
    var owned := OwnedPlaylists(playlists, user);
    forall d ensures d in r <==> exists p :: p in playlists && p.owner == user && d == Summary(p, rows) {
      if d in r {
        var k :| 0 <= k < |r| && r[k] == d;
        assert owned[k] in owned;
      }
      if p :| p in playlists && p.owner == user && d == Summary(p, rows) {
        assert p in owned;
        var k :| 0 <= k < |owned| && owned[k] == p;
        assert r[k] == d;
      }
    }
  }



  /** String order of `ORDER BY title` under a byte-wise collation: lexicographic on code points. */
  predicate TitleLe(a: string, b: string) {
    a == [] || (b != [] && (a[0] < b[0] || (a[0] == b[0] && TitleLe(a[1..], b[1..]))))
  }

  lemma {:induction false} TitleLeTotal(a: string, b: string)
    ensures TitleLe(a, b) || TitleLe(b, a)
  {
    if a != [] && b != [] && a[0] == b[0] {
      TitleLeTotal(a[1..], b[1..]);
    }
  }

  lemma {:induction false} TitleLeTransitive(a: string, b: string, c: string)
    requires TitleLe(a, b) && TitleLe(b, c)
    ensures TitleLe(a, c)
  {
    if a != [] && b != [] && c != [] && a[0] == b[0] && b[0] == c[0] {
      TitleLeTransitive(a[1..], b[1..], c[1..]);
    }
  }

  ghost predicate SortedByTitle(r: seq<PlayListDto>) {
    forall i, j :: 0 <= i < j < |r| ==> TitleLe(r[i].title, r[j].title)
  }

  /** `d` placed into the title-sorted `sorted`, after every row whose title is not greater. */
  function InsertByTitle(d: PlayListDto, sorted: seq<PlayListDto>): (r: seq<PlayListDto>)
    requires SortedByTitle(sorted)
    ensures SortedByTitle(r)
    ensures multiset(r) == multiset(sorted) + multiset{d}
  {
    if sorted == [] then [d]
    else if !TitleLe(sorted[0].title, d.title) then
      TitleLeTotal(sorted[0].title, d.title);
      forall j | 0 <= j < |sorted| ensures TitleLe(d.title, sorted[j].title) {
        if j > 0 { TitleLeTransitive(d.title, sorted[0].title, sorted[j].title); }
      }
      [d] + sorted
    else
      var rest := InsertByTitle(d, sorted[1..]);
      assert sorted == [sorted[0]] + sorted[1..];
      forall x | x in rest ensures TitleLe(sorted[0].title, x.title) {
        assert x in multiset(rest);
      }
      [sorted[0]] + rest
  }

  function SortByTitle(s: seq<PlayListDto>): (r: seq<PlayListDto>)
    ensures SortedByTitle(r)
    ensures multiset(r) == multiset(s)
  {
    if s == [] then []
    else
      assert s == s[..|s| - 1] + [s[|s| - 1]];
      InsertByTitle(s[|s| - 1], SortByTitle(s[..|s| - 1]))
  }

  /** `get_user_playlists`: the user's playlists, one row each, sorted by title, each with the
      largest order of its tracks or 0 when it has none. */
  function GetUserPlaylists(playlists: seq<PlaylistRow>, rows: seq<PlaylistTrackRow>, user: Uuid): (r: seq<PlayListDto>)
    ensures SortedByTitle(r)
    ensures multiset(r) == multiset(UserSummaries(playlists, rows, user))
    ensures forall d :: d in r <==> exists p :: p in playlists && p.owner == user && d == Summary(p, rows)
  {
    var summaries := UserSummaries(playlists, rows, user);
    var r := SortByTitle(summaries);
    forall d ensures d in r <==> d in summaries {
      assert d in r <==> d in multiset(r);
      assert d in summaries <==> d in multiset(summaries);
    }
    r
  }

  /** The rows of `playlist_tracks` for `playlist` whose track exists, in table order. */
  function PlaylistEntries(rows: seq<PlaylistTrackRow>, playlist: Uuid, tracks: map<Uuid, TrackRow>): (entries: seq<PlaylistTrackRow>)
    ensures |entries| <= |rows|
    ensures forall e :: e in entries <==> e in rows && InPlaylist(e, playlist) && e.track in tracks
    ensures forall e :: multiset(entries)[e] == if InPlaylist(e, playlist) && e.track in tracks then multiset(rows)[e] else 0
  {
    if rows == [] then []
    else
      var earlier := PlaylistEntries(rows[..|rows| - 1], playlist, tracks);
      var row := rows[|rows| - 1];
      assert rows == rows[..|rows| - 1] + [row];
      if InPlaylist(row, playlist) && row.track in tracks then earlier + [row] else earlier
  }

  /** `get_playlist_tracks`: one row per entry of the playlist whose track exists, in table
      order, each with the user's favourite flag, the user's play of it (zero when none) and
      whether the user owns it. There is no `upload_status` filter. */
  function GetPlaylistTracks(tracks: map<Uuid, TrackRow>, favorites: seq<FavoriteRow>, history: seq<HistoryRow>,
                             rows: seq<PlaylistTrackRow>, playlist: Uuid, user: Uuid): (r: seq<TrackDto>)
    ensures var entries := PlaylistEntries(rows, playlist, tracks);
            |r| == |entries| &&
            forall k :: 0 <= k < |r| ==>
              && entries[k] in entries
              && r[k].id == entries[k].track
              && r[k] == JoinedTrack(r[k].id, tracks[r[k].id], IsFavorite(favorites, user, r[k].id),
                                     FindHistory(history, user, r[k].id), user)
  {
    if rows == [] then []
    else
      var row := rows[|rows| - 1];
      var earlier := GetPlaylistTracks(tracks, favorites, history, rows[..|rows| - 1], playlist, user);
      if InPlaylist(row, playlist) && row.track in tracks then
        earlier + [JoinedTrack(row.track, tracks[row.track], IsFavorite(favorites, user, row.track),
                               FindHistory(history, user, row.track), user)]
      else
        earlier
  }

  /** The flags of every playlist row: favourite iff the user saved the track, created-by-user
      iff the user owns it, and a zero play duration when the user has not played it. */
  lemma PlaylistTrackFlags(tracks: map<Uuid, TrackRow>, favorites: seq<FavoriteRow>, history: seq<HistoryRow>,
                           rows: seq<PlaylistTrackRow>, playlist: Uuid, user: Uuid, k: nat)
    requires k < |GetPlaylistTracks(tracks, favorites, history, rows, playlist, user)|
    ensures var d := GetPlaylistTracks(tracks, favorites, history, rows, playlist, user)[k];
            && PlaylistTrackRow(playlist, d.id, PlaylistEntries(rows, playlist, tracks)[k].trackOrder) in rows
            && d.isFavorite == Some(FavoriteRow(user, d.id) in favorites)
            && d.isCreatedByUser == Some(tracks[d.id].owner == user)
            && ((forall j :: 0 <= j < |history| ==> !HistoryMatches(history[j], user, d.id)) ==>
                  d.durationPlayed == DefaultDuration() && d.playedAt.None?)
  {
  }
}
