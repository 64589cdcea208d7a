/** back_end/src/databases/favorites.rs: saving and deleting a favourite, and the user's
    favourite tracks. */
module Favorites {
  import opened Wrappers
  import opened Models
  import opened Dtos
  import opened Tables

  /** `save_favorite`: the pair `(userId, trackId)` is added to `user_favorites`. */
  method SaveFavorite(db: Database, trackId: Uuid, userId: Uuid)
    requires db.Valid()
    modifies db
    ensures db.Valid()
    ensures db.userFavorites == old(db.userFavorites) + [FavoriteRow(userId, trackId)]
    ensures db.tracks == old(db.tracks) && db.favorites == old(db.favorites) && db.history == old(db.history)
    ensures db.playlists == old(db.playlists) && db.playlistTracks == old(db.playlistTracks) && db.nextId == old(db.nextId)
  {
    db.userFavorites := db.userFavorites + [FavoriteRow(userId, trackId)];
  }

  /** `DELETE ... WHERE track_id = track AND user_id = user`: every other row, in order. */
  function RemovePair(rows: seq<FavoriteRow>, user: Uuid, track: Uuid): (r: seq<FavoriteRow>)
    ensures |r| <= |rows|
    ensures forall f :: f in r <==> f in rows && f != FavoriteRow(user, track)
    ensures forall f :: multiset(r)[f] == if f == FavoriteRow(user, track) then 0 else multiset(rows)[f]
  {
    if rows == [] then []
    else
      var rest := RemovePair(rows[1..], user, track);
      assert rows == [rows[0]] + rows[1..];
      if rows[0] == FavoriteRow(user, track) then rest else [rows[0]] + rest
  }

  /** `delete_favorite` with the table the favourites are saved in, `user_favorites`. */
  method DeleteFavorite(db: Database, trackId: Uuid, userId: Uuid)
    requires db.Valid()
    modifies db
    ensures db.Valid()
    ensures db.userFavorites == RemovePair(old(db.userFavorites), userId, trackId)
    ensures db.tracks == old(db.tracks) && db.favorites == old(db.favorites) && db.history == old(db.history)
    ensures db.playlists == old(db.playlists) && db.playlistTracks == old(db.playlistTracks) && db.nextId == old(db.nextId)
  {
    db.userFavorites := RemovePair(db.userFavorites, userId, trackId);
  }

  /** `delete_favorite` as written: it deletes from the table `favorites`, which fails when the
      schema has no such table and never touches `user_favorites`. */
  method DeleteFavoriteAsWritten(db: Database, trackId: Uuid, userId: Uuid) returns (result: Result<(), SqlError>)
    requires db.Valid()
    modifies db
    ensures db.Valid()
    ensures old(db.favorites).None? ==> result == Failure(UndefinedTable("favorites")) && db.favorites == None
    ensures old(db.favorites).Some? ==>
              result == Success(()) && db.favorites == Some(RemovePair(old(db.favorites).value, userId, trackId))
    ensures db.userFavorites == old(db.userFavorites)
    ensures db.tracks == old(db.tracks) && db.history == old(db.history)
    ensures db.playlists == old(db.playlists) && db.playlistTracks == old(db.playlistTracks) && db.nextId == old(db.nextId)
  {
    if db.favorites.None? {
      return Failure(UndefinedTable("favorites"));
    }
    db.favorites := Some(RemovePair(db.favorites.value, userId, trackId));
    return Success(());
  }

  /** Deleting a pair undoes saving it: whatever was saved before, the pair is gone and every
      other row is as it was. */
  lemma {:induction false} DeleteUndoesSave(rows: seq<FavoriteRow>, user: Uuid, track: Uuid)
    ensures RemovePair(rows + [FavoriteRow(user, track)], user, track) == RemovePair(rows, user, track)
    ensures !IsFavorite(RemovePair(rows + [FavoriteRow(user, track)], user, track), user, track)
  {
    if rows != [] {
      assert (rows + [FavoriteRow(user, track)])[1..] == rows[1..] + [FavoriteRow(user, track)];
      DeleteUndoesSave(rows[1..], user, track);
    }
  }

  /** Saving and then deleting as written leaves the favourite saved. */
  method SaveThenDeleteAsWritten(db: Database, trackId: Uuid, userId: Uuid) returns (result: Result<(), SqlError>)
    requires db.Valid()
    modifies db
    ensures db.Valid()
    ensures IsFavorite(db.userFavorites, userId, trackId)
    ensures db.userFavorites == old(db.userFavorites) + [FavoriteRow(userId, trackId)]
  {
    SaveFavorite(db, trackId, userId);
    result := DeleteFavoriteAsWritten(db, trackId, userId);
  }

  /** Saving and then deleting with `user_favorites` leaves no such favourite. */
  method SaveThenDelete(db: Database, trackId: Uuid, userId: Uuid)
    requires db.Valid()
    modifies db
    ensures db.Valid()
    ensures !IsFavorite(db.userFavorites, userId, trackId)
    ensures db.userFavorites == RemovePair(old(db.userFavorites), userId, trackId)
  {
    SaveFavorite(db, trackId, userId);
    DeleteFavorite(db, trackId, userId);
    DeleteUndoesSave(old(db.userFavorites), userId, trackId);
  }

  /** The favourite rows of `user` whose track exists and is `complete`, in table order. */
  function FavoriteEntries(favorites: seq<FavoriteRow>, tracks: map<Uuid, TrackRow>, user: Uuid): (entries: seq<FavoriteRow>)
    ensures |entries| <= |favorites|
    ensures forall f :: f in entries <==> f in favorites && f.user == user && f.track in tracks && IsComplete(tracks[f.track])
    ensures forall f :: multiset(entries)[f] ==
              if f.user == user && f.track in tracks && IsComplete(tracks[f.track]) then multiset(favorites)[f] else 0
  {
    if favorites == [] then []
    else
      var earlier := FavoriteEntries(favorites[..|favorites| - 1], tracks, user);
      var f := favorites[|favorites| - 1];
      assert favorites == favorites[..|favorites| - 1] + [f];
      if f.user == user && f.track in tracks && IsComplete(tracks[f.track]) then earlier + [f] else earlier
  }

  /** `get_user_favorite_tracks`: one row per favourite of `user` whose track is `complete`, in
      table order, each marked favourite, with the user's play of it (zero when none) and whether
      the user owns it. */
  function GetUserFavoriteTracks(tracks: map<Uuid, TrackRow>, favorites: seq<FavoriteRow>,
                                 history: seq<HistoryRow>, user: Uuid): (r: seq<TrackDto>)
    ensures var entries := FavoriteEntries(favorites, tracks, user);
            |r| == |entries| &&
            forall k :: 0 <= k < |r| ==>
              && entries[k] in entries
              && r[k].id == entries[k].track
              && r[k] == JoinedTrack(r[k].id, tracks[r[k].id], true, FindHistory(history, user, r[k].id), user)
  {
    if favorites == [] then []
    else
      var f := favorites[|favorites| - 1];
      var earlier := GetUserFavoriteTracks(tracks, favorites[..|favorites| - 1], history, user);
      if f.user == user && f.track in tracks && IsComplete(tracks[f.track]) then
        earlier + [JoinedTrack(f.track, tracks[f.track], true, FindHistory(history, user, f.track), user)]
      else
        earlier
  }

  /** Every favourite row is a saved `complete` track of the user, marked favourite, created-by-user
      iff the user owns it, with a zero play duration when the user has not played it. */
  lemma FavoriteTrackFlags(tracks: map<Uuid, TrackRow>, favorites: seq<FavoriteRow>, history: seq<HistoryRow>,
                           user: Uuid, k: nat)
    requires k < |GetUserFavoriteTracks(tracks, favorites, history, user)|
    ensures var d := GetUserFavoriteTracks(tracks, favorites, history, user)[k];
            && IsFavorite(favorites, user, d.id)
            && d.isFavorite == Some(true)
            && d.uploadStatus == Some(Complete)
            && d.isCreatedByUser == Some(tracks[d.id].owner == user)
            && ((forall j :: 0 <= j < |history| ==> !HistoryMatches(history[j], user, d.id)) ==>
                  d.durationPlayed == DefaultDuration() && d.playedAt.None?)
  {
  }
}
