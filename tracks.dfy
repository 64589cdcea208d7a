/** back_end/src/databases/track.rs: twenty random `complete` tracks as seen by a user.

    `ORDER BY RANDOM()` is the parameter `order`: the sequence of track ids in the order the
    database happened to draw them. */
module Tracks {
  import opened Wrappers
  import opened Models
  import opened Dtos
  import opened Tables

  const RandomTrackLimit: nat := 20

  /** `x` occurs in `s` at an earlier position than `y`. */
  ghost predicate Before(s: seq<Uuid>, x: Uuid, y: Uuid) {
    exists a, b :: 0 <= a < b < |s| && s[a] == x && s[b] == y
  }

  /** Every two elements of `sub` occur in `s` in the same order. */
  ghost predicate InOrderOf(sub: seq<Uuid>, s: seq<Uuid>) {
    forall i, j :: 0 <= i < j < |sub| ==> Before(s, sub[i], sub[j])
  }

  /** The ids of `order` that name `complete` tracks, in that order. */
  function CompleteIds(order: seq<Uuid>, tracks: map<Uuid, TrackRow>): (ids: seq<Uuid>)
    ensures |ids| <= |order|
    ensures forall id :: id in ids <==> id in order && id in tracks && IsComplete(tracks[id])
    ensures forall id :: multiset(ids)[id] == if id in tracks && IsComplete(tracks[id]) then multiset(order)[id] else 0
    ensures InOrderOf(ids, order)
    ensures (forall i, j :: 0 <= i < j < |order| ==> order[i] != order[j]) ==>
              forall i, j :: 0 <= i < j < |ids| ==> ids[i] != ids[j]
  {
    if order == [] then []
    else
      var prefix := order[..|order| - 1];
      var id := order[|order| - 1];
      var earlier := CompleteIds(prefix, tracks);
      assert order == prefix + [id];
      assert (forall i, j :: 0 <= i < j < |order| ==> order[i] != order[j]) ==> id !in prefix;
      InOrderOfExtended(earlier, prefix, id);
      if id in tracks && IsComplete(tracks[id]) then earlier + [id] else earlier
  }

  /** Appending one element to `s`, and optionally to `sub`, keeps `sub` in the order of `s`. */
  lemma InOrderOfExtended(sub: seq<Uuid>, s: seq<Uuid>, x: Uuid)
    requires InOrderOf(sub, s)
    requires forall y :: y in sub ==> y in s
    ensures InOrderOf(sub, s + [x])
    ensures InOrderOf(sub + [x], s + [x])
  {
    var t := s + [x];
    forall i, j | 0 <= i < j < |sub| ensures Before(t, sub[i], sub[j]) {
      assert Before(s, sub[i], sub[j]);
      var a, b :| 0 <= a < b < |s| && s[a] == sub[i] && s[b] == sub[j];
      assert t[a] == s[a] && t[b] == s[b];
    }
    var sub' := sub + [x];
    forall i, j | 0 <= i < j < |sub'| ensures Before(t, sub'[i], sub'[j]) {
      if j < |sub| {
        assert sub'[i] == sub[i] && sub'[j] == sub[j];
      } else {
        assert sub[i] in sub;
        var a :| 0 <= a < |s| && s[a] == sub[i];
        assert t[a] == sub'[i] && t[|s|] == sub'[j];
      }
    }
  }

  function Min(a: nat, b: nat): nat {
    if a <= b then a else b
  }

  /** The row the query selects for track `id`: favourite iff `user` saved it, the user's play
      of it (zero when none), and whether the user owns it. */
  function TrackFor(tracks: map<Uuid, TrackRow>, favorites: seq<FavoriteRow>, history: seq<HistoryRow>,
                    user: Uuid, id: Uuid): TrackDto
    requires id in tracks
  {
    JoinedTrack(id, tracks[id], IsFavorite(favorites, user, id), FindHistory(history, user, id), user)
  }

  /** `get_random_tracks` with the outer-join default of `duration_played` typed as an interval:
      the first 20 `complete` tracks of the drawn order. */
  function RandomTracks(tracks: map<Uuid, TrackRow>, favorites: seq<FavoriteRow>, history: seq<HistoryRow>,
                        user: Uuid, order: seq<Uuid>): (r: seq<TrackDto>)
    ensures |r| <= RandomTrackLimit
    ensures |r| == Min(RandomTrackLimit, |CompleteIds(order, tracks)|)
    ensures forall k :: 0 <= k < |r| ==>
              && r[k].id == CompleteIds(order, tracks)[k]
              && r[k].id in tracks && IsComplete(tracks[r[k].id])
              && r[k].uploadStatus == Some(Complete)
              && r[k] == TrackFor(tracks, favorites, history, user, r[k].id)
  {
    var ids := CompleteIds(order, tracks);
    var chosen := ids[..Min(RandomTrackLimit, |ids|)];
    assert forall k :: 0 <= k < |chosen| ==> chosen[k] == ids[k] && ids[k] in ids;
    seq(|chosen|, k requires 0 <= k < |chosen| => TrackFor(tracks, favorites, history, user, chosen[k]))
  }

  /** The types PostgreSQL's planner gives the expressions of the query: `Unknown` is an
      untyped `NULL` literal, an integer literal such as `0` is `Integer`. */
  datatype SqlType = Unknown | Integer | Interval | TimestampTz

  function TypeName(t: SqlType): string {
    match t
    case Unknown => "unknown"
    case Integer => "integer"
    case Interval => "interval"
    case TimestampTz => "timestamp with time zone"
  }

  /** The type of `COALESCE(args)`: every typed argument must have one and the same type, which
      the untyped ones adopt; with two different types the query is rejected. An all-`NULL` list
      stays `Unknown` here. */
  function CoalesceType(args: seq<SqlType>): (t: Option<SqlType>)
    ensures t.Some? <==> forall i, j :: 0 <= i < |args| && 0 <= j < |args| && args[i] != Unknown && args[j] != Unknown ==>
                           args[i] == args[j]
    ensures t.Some? ==> forall i :: 0 <= i < |args| && args[i] != Unknown ==> args[i] == t.value
    ensures t.Some? && t.value != Unknown ==> t.value in args
    ensures t == Some(Unknown) ==> forall i :: 0 <= i < |args| ==> args[i] == Unknown
  {
    if args == [] then Some(Unknown)
    else
      var rest := CoalesceType(args[1..]);
      assert forall i :: 1 <= i < |args| ==> args[i] == args[1..][i - 1];
      if rest.None? then
        assert exists i, j :: 1 <= i < |args| && 1 <= j < |args| && args[i] != Unknown && args[j] != Unknown && args[i] != args[j];
        None
      else if args[0] == Unknown then rest
      else if rest.value == Unknown || rest.value == args[0] then Some(args[0])
      else
        assert rest.value in args[1..];
        None
  }

  /** `get_random_tracks` with `duration_played` defaulting to a value of type `durationDefault`:
      the planner checks both `COALESCE` columns, and only a well-typed query yields rows. */
  function RunRandomTracks(durationDefault: SqlType, tracks: map<Uuid, TrackRow>, favorites: seq<FavoriteRow>,
                           history: seq<HistoryRow>, user: Uuid, order: seq<Uuid>): (r: Result<seq<TrackDto>, SqlError>)
    ensures r.Success? <==> durationDefault == Interval || durationDefault == Unknown
    ensures r.Success? ==> r.value == RandomTracks(tracks, favorites, history, user, order)
    ensures r.Failure? ==> r.error == CannotMatchTypes("interval", TypeName(durationDefault))
  {
    var playedAt := CoalesceType([TimestampTz, Unknown]);
    var durationPlayed := CoalesceType([Interval, durationDefault]);
    assert [Interval, durationDefault][0] == Interval && [Interval, durationDefault][1] == durationDefault;
    assert playedAt.Some?;
    if durationPlayed.None? then Failure(CannotMatchTypes(TypeName(Interval), TypeName(durationDefault)))
    else if playedAt.None? then Failure(CannotMatchTypes(TypeName(TimestampTz), TypeName(Unknown)))
    else Success(RandomTracks(tracks, favorites, history, user, order))
  }

  /** `get_random_tracks` as written: `COALESCE(ph.duration_played, 0)` pairs an interval with an
      integer, so the query is rejected whatever the tables hold. */
  function GetRandomTracksAsWritten(tracks: map<Uuid, TrackRow>, favorites: seq<FavoriteRow>, history: seq<HistoryRow>,
                                    user: Uuid, order: seq<Uuid>): (r: Result<seq<TrackDto>, SqlError>)
    ensures r.Failure? && r.error == CannotMatchTypes("interval", "integer")
  {
    RunRandomTracks(Integer, tracks, favorites, history, user, order)
  }

  /** `get_random_tracks` with the default written `INTERVAL '0 seconds'`: the query is accepted
      and returns the first 20 drawn `complete` tracks. */
  function GetRandomTracks(tracks: map<Uuid, TrackRow>, favorites: seq<FavoriteRow>, history: seq<HistoryRow>,
                           user: Uuid, order: seq<Uuid>): (r: Result<seq<TrackDto>, SqlError>)
    ensures r == Success(RandomTracks(tracks, favorites, history, user, order))
  {
    RunRandomTracks(Interval, tracks, favorites, history, user, order)
  }

  /** The two `COALESCE` columns as written and as corrected: mixing `interval` with `integer`
      has no type, two intervals are an interval, and a timestamp with `NULL` is a timestamp. */
  lemma CoalesceTyping()
    ensures CoalesceType([Interval, Integer]) == None
    ensures CoalesceType([Interval, Interval]) == Some(Interval)
    ensures CoalesceType([TimestampTz, Unknown]) == Some(TimestampTz)
  {
  }

  /** Whatever order the database draws, when it draws every track once: no track appears
      twice, and when fewer than 20 rows come back, every `complete` track is among them. */
  lemma AnyDrawnOrder(tracks: map<Uuid, TrackRow>, favorites: seq<FavoriteRow>, history: seq<HistoryRow>,
                      user: Uuid, order: seq<Uuid>)
    requires forall i, j :: 0 <= i < j < |order| ==> order[i] != order[j]
    requires forall id :: id in order <==> id in tracks
    ensures var r := RandomTracks(tracks, favorites, history, user, order);
            && (forall i, j :: 0 <= i < j < |r| ==> r[i].id != r[j].id)
            && (|r| < RandomTrackLimit ==>
                  forall id :: id in tracks && IsComplete(tracks[id]) ==> exists k :: 0 <= k < |r| && r[k].id == id)
  {
  }
}
