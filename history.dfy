/** back_end/src/databases/history.rs: recording a play and reading a user's history. */
module History {
  import opened Wrappers
  import opened Models
  import opened Dtos
  import opened Tables

  const MicrosPerSecond: int := 1_000_000

  /** The largest number of seconds whose microsecond count fits in an `i64`. */
  const MaxExactSeconds: int := 9_223_372_036_854

  /** Two's-complement wrap-around of `i64` arithmetic, as a release build computes it. */
  function WrapInt64(x: int): Int64 {
    (x + 0x8000_0000_0000_0000) % 0x1_0000_0000_0000_0000 - 0x8000_0000_0000_0000
  }

  /** The interval stored for `duration_time` seconds: no months, no days, and
      `duration_time * 1_000_000` microseconds, exact exactly when that product fits an `i64`. */
  function PlayedInterval(durationTime: Int64): (iv: PgInterval)
    ensures iv.months == 0 && iv.days == 0
    ensures iv.microseconds == durationTime * MicrosPerSecond <==> -MaxExactSeconds <= durationTime <= MaxExactSeconds
  {
    PgInterval(0, 0, WrapInt64(durationTime * MicrosPerSecond))
  }

  /** `UPDATE playback_history SET duration_played = iv, played_at = now WHERE id = target`. */
  function SetWhereId(history: seq<HistoryRow>, target: Uuid, iv: PgInterval, now: Timestamp): (r: seq<HistoryRow>)
    ensures |r| == |history|
    ensures forall i :: 0 <= i < |history| ==>
              r[i] == if history[i].id == target then history[i].(durationPlayed := iv, playedAt := now) else history[i]
  {
    if history == [] then []
    else
      var row := history[0];
      [if row.id == target then row.(durationPlayed := iv, playedAt := now) else row]
        + SetWhereId(history[1..], target, iv, now)
  }

  /** The history after a play of `track` by `user`: the existing row found by the lookup on
      `(user, track)` gets the new duration and time; without one, a row is inserted with the
      id `freshId`. */
  function Upserted(history: seq<HistoryRow>, freshId: Uuid, user: Uuid, track: Uuid, iv: PgInterval, now: Timestamp): seq<HistoryRow> {
    var i := FindHistoryIndex(history, user, track);
    if i >= 0 then SetWhereId(history, history[i].id, iv, now)
    else history + [HistoryRow(freshId, user, track, iv, now)]
  }

  /** The same, with the insert's values bound as the source binds them: `track_id` into the
      `user_id` column and `user_id` into the `track_id` column. */
  function UpsertedAsWritten(history: seq<HistoryRow>, freshId: Uuid, user: Uuid, track: Uuid, iv: PgInterval, now: Timestamp): seq<HistoryRow> {
    var i := FindHistoryIndex(history, user, track);
    if i >= 0 then SetWhereId(history, history[i].id, iv, now)
    else history + [HistoryRow(freshId, track, user, iv, now)]
  }

  /** `update_insert_playback_history`, with the insert binding its values in column order. */
  method UpdateInsertPlaybackHistory(db: Database, trackId: Uuid, userId: Uuid, durationTime: Int64, now: Timestamp)
    requires db.Valid()
    modifies db
    ensures db.Valid()
    ensures db.history == Upserted(old(db.history), old(db.nextId), userId, trackId, PlayedInterval(durationTime), now)
    ensures db.nextId == if FindHistory(old(db.history), userId, trackId).Some? then old(db.nextId) else old(db.nextId) + 1
    ensures db.tracks == old(db.tracks) && db.userFavorites == old(db.userFavorites) && db.favorites == old(db.favorites)
    ensures db.playlists == old(db.playlists) && db.playlistTracks == old(db.playlistTracks)
  {
    var existingEntry := FindHistoryIndex(db.history, userId, trackId);
    var interval := PlayedInterval(durationTime);
    if existingEntry >= 0 {
      db.history := SetWhereId(db.history, db.history[existingEntry].id, interval, now);
    } else {
      db.history := db.history + [HistoryRow(db.nextId, userId, trackId, interval, now)];
      db.nextId := db.nextId + 1;
    }
  }

  /** `update_insert_playback_history` as written, inserting with the two ids swapped. */
  method UpdateInsertPlaybackHistoryAsWritten(db: Database, trackId: Uuid, userId: Uuid, durationTime: Int64, now: Timestamp)
    requires db.Valid()
    modifies db
    ensures db.Valid()
    ensures db.history == UpsertedAsWritten(old(db.history), old(db.nextId), userId, trackId, PlayedInterval(durationTime), now)
    ensures db.nextId == if FindHistory(old(db.history), userId, trackId).Some? then old(db.nextId) else old(db.nextId) + 1
    ensures db.tracks == old(db.tracks) && db.userFavorites == old(db.userFavorites) && db.favorites == old(db.favorites)
    ensures db.playlists == old(db.playlists) && db.playlistTracks == old(db.playlistTracks)
  {
    var existingEntry := FindHistoryIndex(db.history, userId, trackId);
    var interval := PlayedInterval(durationTime);
    if existingEntry >= 0 {
      db.history := SetWhereId(db.history, db.history[existingEntry].id, interval, now);
    } else {
      db.history := db.history + [HistoryRow(db.nextId, trackId, userId, interval, now)];
      db.nextId := db.nextId + 1;
    }
  }

  /** After a play, the lookup on `(user, track)` finds a row holding exactly the new duration
      and time: the duration is replaced, not added to. */
  lemma UpsertReplaces(history: seq<HistoryRow>, freshId: Uuid, user: Uuid, track: Uuid, iv: PgInterval, now: Timestamp)
    ensures var found := FindHistory(Upserted(history, freshId, user, track, iv, now), user, track);
            found.Some? && found.value.durationPlayed == iv && found.value.playedAt == now
  {
    var i := FindHistoryIndex(history, user, track);
    var after := Upserted(history, freshId, user, track, iv, now);
    if i >= 0 {
      assert HistoryMatches(after[i], user, track);
      assert forall j :: 0 <= j < i ==> after[j].user == history[j].user && after[j].track == history[j].track;
    } else {
      assert HistoryMatches(after[|history|], user, track);
    }
  }

  /** With unique ids and a fresh id, a play changes only the row for `(user, track)`
      (or only appends). */
  lemma UpsertTouchesOneRow(history: seq<HistoryRow>, freshId: Uuid, user: Uuid, track: Uuid, iv: PgInterval, now: Timestamp)
    requires DistinctHistoryIds(history) && HistoryIdsUnder(history, freshId)
    ensures var i := FindHistoryIndex(history, user, track);
            Upserted(history, freshId, user, track, iv, now) ==
              if i >= 0 then history[i := history[i].(durationPlayed := iv, playedAt := now)]
              else history + [HistoryRow(freshId, user, track, iv, now)]
    ensures DistinctHistoryIds(Upserted(history, freshId, user, track, iv, now))
    ensures HistoryIdsUnder(Upserted(history, freshId, user, track, iv, now), freshId + 1)
  {
  }

  /** Plays of other pairs are not disturbed: the lookup for any other `(u, t)` is unchanged. */
  lemma UpsertLeavesOtherPairs(history: seq<HistoryRow>, freshId: Uuid, user: Uuid, track: Uuid, iv: PgInterval,
                               now: Timestamp, u: Uuid, t: Uuid)
    requires DistinctHistoryIds(history) && HistoryIdsUnder(history, freshId)
    requires u != user || t != track
    ensures FindHistory(Upserted(history, freshId, user, track, iv, now), u, t) == FindHistory(history, u, t)
  {
    UpsertTouchesOneRow(history, freshId, user, track, iv, now);
    var after := Upserted(history, freshId, user, track, iv, now);
    var k, k' := FindHistoryIndex(history, u, t), FindHistoryIndex(after, u, t);
    assert forall j :: 0 <= j < |history| ==> (HistoryMatches(after[j], u, t) <==> HistoryMatches(history[j], u, t));
    if k >= 0 {
      assert HistoryMatches(after[k], u, t);
      assert k' == k;
      assert after[k] == history[k] by {
        var i := FindHistoryIndex(history, user, track);
        assert i != k;
      }
    } else {
      assert k' < 0;
    }
  }

  /** No two history rows share a `(user, track)` pair. */
  ghost predicate UniquePairs(history: seq<HistoryRow>) {
    forall i, j :: 0 <= i < j < |history| ==>
      !HistoryMatches(history[j], history[i].user, history[i].track)
  }

  /** Recording plays keeps one row per `(user, track)`, however many plays there are. */
  lemma UpsertKeepsPairsUnique(history: seq<HistoryRow>, freshId: Uuid, user: Uuid, track: Uuid, iv: PgInterval, now: Timestamp)
    requires UniquePairs(history)
    ensures UniquePairs(Upserted(history, freshId, user, track, iv, now))
  {
  }

  /** As written, a first play by `user` of `track` (two different ids) stores a row the
      lookup does not find, so every later play inserts yet another row instead of replacing. */
  lemma SwappedInsertIsNeverFound(history: seq<HistoryRow>, freshId: Uuid, user: Uuid, track: Uuid,
                                  iv1: PgInterval, iv2: PgInterval, now1: Timestamp, now2: Timestamp)
    requires user != track
    requires FindHistory(history, user, track).None?
    ensures var once := UpsertedAsWritten(history, freshId, user, track, iv1, now1);
            var twice := UpsertedAsWritten(once, freshId + 1, user, track, iv2, now2);
            && FindHistory(once, user, track).None?
            && FindHistory(twice, user, track).None?
            && |twice| == |history| + 2
  {
  }

  /** The swap is harmless only when the two ids coincide. */
  lemma SwapHarmlessForEqualIds(history: seq<HistoryRow>, freshId: Uuid, id: Uuid, iv: PgInterval, now: Timestamp)
    ensures UpsertedAsWritten(history, freshId, id, id, iv, now) == Upserted(history, freshId, id, id, iv, now)
  {
  }

  /** The history rows of `user` whose track still exists, in table order. */
  function UserPlays(history: seq<HistoryRow>, tracks: map<Uuid, TrackRow>, user: Uuid): (rows: seq<HistoryRow>)
    ensures |rows| <= |history|
    ensures forall row :: row in rows <==> row in history && row.user == user && row.track in tracks
    ensures forall row :: multiset(rows)[row] == if row.user == user && row.track in tracks then multiset(history)[row] else 0
  {
    if history == [] then []
    else
      var earlier := UserPlays(history[..|history| - 1], tracks, user);
      var row := history[|history| - 1];
      assert history == history[..|history| - 1] + [row];
      if row.user == user && row.track in tracks then earlier + [row] else earlier
  }

  /** The result row for one play: the track joined with the user's favourite flag and the play. */
  function PlayedTrack(tracks: map<Uuid, TrackRow>, favorites: seq<FavoriteRow>, user: Uuid, row: HistoryRow): TrackDto
    requires row.track in tracks
  {
    JoinedTrack(row.track, tracks[row.track], IsFavorite(favorites, user, row.track), Some(row), user)
  }

  /** `get_user_playback_history`: one row per play of `user`, in table order, each the played
      track with that play's duration and time. There is no `upload_status` filter. */
  function PlaybackHistoryOf(tracks: map<Uuid, TrackRow>, favorites: seq<FavoriteRow>,
                             history: seq<HistoryRow>, user: Uuid): (r: seq<TrackDto>)
    ensures |r| == |UserPlays(history, tracks, user)|
    ensures forall k :: 0 <= k < |r| ==>
              UserPlays(history, tracks, user)[k] in UserPlays(history, tracks, user) &&
              r[k] == PlayedTrack(tracks, favorites, user, UserPlays(history, tracks, user)[k])
  {
    if history == [] then []
    else
      var row := history[|history| - 1];
      var earlier := PlaybackHistoryOf(tracks, favorites, history[..|history| - 1], user);
      if row.user == user && row.track in tracks then
        earlier + [PlayedTrack(tracks, favorites, user, row)]
      else
        earlier
  }
}
