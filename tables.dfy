/** The tables the data-access layer reads and writes, held in memory, and the row that
    the track queries build from a join.

    Ids the database generates (`gen_random_uuid()` defaults) come from the counter `nextId`. */
module Tables {
  import opened Wrappers
  import opened Models
  import opened Dtos

  const Complete: string := "complete"

  /** A row of `tracks`, keyed by its id. */
  datatype TrackRow = TrackRow(
    owner: Uuid,
    title: Option<string>,
    artist: Option<string>,
    duration: Option<PgInterval>,
    fileName: Option<string>,
    uploadStatus: Option<string>,
    thumbnailName: Option<string>)

  /** A row of `user_favorites` (and of the table `favorites`). */
  datatype FavoriteRow = FavoriteRow(user: Uuid, track: Uuid)

  /** A row of `playback_history`. */
  datatype HistoryRow = HistoryRow(id: Uuid, user: Uuid, track: Uuid, durationPlayed: PgInterval, playedAt: Timestamp)

  /** A row of `playlists`. */
  datatype PlaylistRow = PlaylistRow(id: Uuid, owner: Uuid, title: string, thumbnailPath: Option<string>)

  /** A row of `playlist_tracks`; `track_order` is a nullable column. */
  datatype PlaylistTrackRow = PlaylistTrackRow(playlist: Uuid, track: Uuid, trackOrder: Option<Int32>)

  /** The ways a query fails in this model: `fetch_one` finding no row, a statement naming a
      relation the schema lacks, and an expression whose operand types cannot be unified. */
  datatype SqlError = RowNotFound | UndefinedTable(name: string) | CannotMatchTypes(left: string, right: string)

  predicate IsComplete(t: TrackRow) {
    t.uploadStatus == Some(Complete)
  }

  /** `(user, track)` is among the favorite rows. */
  predicate IsFavorite(favorites: seq<FavoriteRow>, user: Uuid, track: Uuid) {
    FavoriteRow(user, track) in favorites
  }

  predicate HistoryMatches(row: HistoryRow, user: Uuid, track: Uuid) {
    row.user == user && row.track == track
  }

  /** The index of the first history row for `(user, track)`, or -1. */
  function FindHistoryIndex(history: seq<HistoryRow>, user: Uuid, track: Uuid): (i: int)
    ensures -1 <= i < |history|
    ensures i >= 0 ==> HistoryMatches(history[i], user, track)
    ensures forall j :: 0 <= j < (if i < 0 then |history| else i) ==> !HistoryMatches(history[j], user, track)
  {
    if history == [] then -1
    else if HistoryMatches(history[0], user, track) then 0
    else
      var i := FindHistoryIndex(history[1..], user, track);
      if i < 0 then -1 else i + 1
  }

  /** The history row a lookup by `(user, track)` returns: the first in table order. */
  function FindHistory(history: seq<HistoryRow>, user: Uuid, track: Uuid): (r: Option<HistoryRow>)
    ensures r.Some? ==> r.value in history && HistoryMatches(r.value, user, track)
    ensures r.None? <==> forall j :: 0 <= j < |history| ==> !HistoryMatches(history[j], user, track)
  {
    var i := FindHistoryIndex(history, user, track);
    if i < 0 then None else Some(history[i])
  }

  /** The row the track queries select for track `id` as seen by `user`: the track's own
      columns, `is_favorite`, the played-at time and duration of `played` (zero when there is
      none), and whether `user` owns the track. */
  function JoinedTrack(id: Uuid, t: TrackRow, isFavorite: bool, played: Option<HistoryRow>, user: Uuid): (d: TrackDto)
    ensures d.id == id && d.title == t.title && d.artist == t.artist && d.fileName == t.fileName
    ensures d.uploadStatus == t.uploadStatus && d.thumbnailName == t.thumbnailName
    ensures d.duration == FromOptionalInterval(t.duration)
    ensures d.isFavorite == Some(isFavorite)
    ensures d.isCreatedByUser == Some(t.owner == user)
    ensures played.None? ==> d.playedAt == None && d.durationPlayed == DefaultDuration()
    ensures played.Some? ==> d.playedAt == Some(played.value.playedAt)
                             && d.durationPlayed == FromInterval(played.value.durationPlayed)
  {
    TrackDto(id, t.title, t.artist, FromOptionalInterval(t.duration), t.fileName, t.uploadStatus, t.thumbnailName,
             Some(isFavorite),
             FromInterval(if played.Some? then played.value.durationPlayed else ZeroInterval),
             if played.Some? then Some(played.value.playedAt) else None,
             Some(t.owner == user))
  }

  ghost predicate HistoryIdsUnder(history: seq<HistoryRow>, bound: nat) {
    forall i :: 0 <= i < |history| ==> history[i].id < bound
  }

  ghost predicate PlaylistIdsUnder(playlists: seq<PlaylistRow>, bound: nat) {
    forall i :: 0 <= i < |playlists| ==> playlists[i].id < bound
  }

  ghost predicate DistinctHistoryIds(history: seq<HistoryRow>) {
    forall i, j :: 0 <= i < j < |history| ==> history[i].id != history[j].id
  }

  ghost predicate DistinctPlaylistIds(playlists: seq<PlaylistRow>) {
    forall i, j :: 0 <= i < j < |playlists| ==> playlists[i].id != playlists[j].id
  }

  /** The database the `DBClient` methods work on. `favorites` is the table that
      `delete_favorite` names; `None` means the schema has no such relation. */
  class Database {
    var tracks: map<Uuid, TrackRow>
    var userFavorites: seq<FavoriteRow>
    var favorites: Option<seq<FavoriteRow>>
    var history: seq<HistoryRow>
    var playlists: seq<PlaylistRow>
    var playlistTracks: seq<PlaylistTrackRow>
    var nextId: nat

    /** Generated ids are unique per table and below the counter. */
    ghost predicate Valid()
      reads this
    {
      && HistoryIdsUnder(history, nextId) && DistinctHistoryIds(history)
      && PlaylistIdsUnder(playlists, nextId) && DistinctPlaylistIds(playlists)
    }

    /** A database holding `tracks` and, when given, a `favorites` relation; every other table empty. */
    constructor (tracks: map<Uuid, TrackRow>, favorites: Option<seq<FavoriteRow>>)
      ensures Valid()
      ensures this.tracks == tracks && this.favorites == favorites
      ensures userFavorites == [] && history == [] && playlists == [] && playlistTracks == []
    {
      this.tracks := tracks;
      this.favorites := favorites;
      userFavorites := [];
      history := [];
      playlists := [];
      playlistTracks := [];
      nextId := 0;
    }
  }
}
