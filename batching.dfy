/** `create_playlist_with_tracks` (QuickShuffleMaker.py:57-65): create one
    playlist, then add the tracks to it 100 at a time, because the service
    accepts at most 100 items per call. */
module Batching {
  import opened Common

  /** Items per `playlist_add_items` call. */
  const BatchSize := 100

  /** A call that changes the user's library, as the program issues it. */
  datatype ApiCall =
    | CreatePlaylist(user: string, name: string)   // sp.user_playlist_create(user_id, name)
    | AddItems(playlist: string, items: seq<TrackId>)   // sp.playlist_add_items(playlist["id"], chunk)

  /** `s` cut into consecutive pieces of `BatchSize`, the last one possibly
      shorter; an empty list has no pieces. */
  function Chunks(s: seq<TrackId>): (cs: seq<seq<TrackId>>)
    ensures |cs| == (|s| + BatchSize - 1) / BatchSize
    ensures forall k :: 0 <= k < |cs| ==> 0 < |cs[k]| <= BatchSize
    ensures forall k :: 0 <= k < |cs| - 1 ==> |cs[k]| == BatchSize
  {
    if |s| <= BatchSize then (if s == [] then [] else [s])
    else [s[..BatchSize]] + Chunks(s[BatchSize..])
  }

  /** The concatenation of some lists, in order. */
  function Flatten(cs: seq<seq<TrackId>>): seq<TrackId> {
    if cs == [] then [] else cs[0] + Flatten(cs[1..])
  }

  /** The pieces, put back together, are the list. */
  lemma {:induction false} FlattenChunks(s: seq<TrackId>)
    ensures Flatten(Chunks(s)) == s
  {
    if |s| > BatchSize {
      FlattenChunks(s[BatchSize..]);
      assert Chunks(s)[1..] == Chunks(s[BatchSize..]);
    } else if s != [] {
      assert Chunks(s)[1..] == [];
    }
  }

  /** Piece `k` is the slice `s[100 * k : 100 * k + 100]` of Python. */
  lemma {:induction false} ChunkIsSlice(s: seq<TrackId>, k: nat)
    requires k < |Chunks(s)|
    ensures BatchSize * k < |s|
    ensures Chunks(s)[k] == s[BatchSize * k .. Min(BatchSize * k + BatchSize, |s|)]
  {
    if k > 0 {
      var rest := s[BatchSize..];
      assert Chunks(s) == [s[..BatchSize]] + Chunks(rest);
      ChunkIsSlice(rest, k - 1);
      assert Chunks(s)[k] == Chunks(rest)[k - 1];
      assert rest[BatchSize * (k - 1) .. Min(BatchSize * (k - 1) + BatchSize, |rest|)]
          == s[BatchSize * k .. Min(BatchSize * k + BatchSize, |s|)];
    }
  }

  function Min(a: int, b: int): int {
    if a <= b then a else b
  }

  /** The calls that publish `trackIds` as a new playlist: it is created
      once, before anything else, and then ceil(n / 100) additions follow, of
      at most 100 tracks each and all but the last of exactly 100; an empty
      list gives the creation alone. */
  function PlaylistCalls(name: string, trackIds: seq<TrackId>, userId: string, playlistId: string): (calls: seq<ApiCall>)
    ensures |calls| == 1 + (|trackIds| + BatchSize - 1) / BatchSize
    ensures calls[0] == CreatePlaylist(userId, name)
    ensures forall k :: 1 <= k < |calls| ==>
              (calls[k].AddItems? && calls[k].playlist == playlistId && 0 < |calls[k].items| <= BatchSize)
    ensures forall k :: 1 <= k < |calls| - 1 ==> |calls[k].items| == BatchSize
  {
    var cs := Chunks(trackIds);
    [CreatePlaylist(userId, name)] + seq(|cs|, k requires 0 <= k < |cs| => AddItems(playlistId, cs[k]))
  }

  /** The tracks the calls add, call after call. */
  function ItemsAdded(calls: seq<ApiCall>): seq<TrackId> {
    if calls == [] then []
    else (if calls[0].AddItems? then calls[0].items else []) + ItemsAdded(calls[1..])
  }

  /** The additions, in call order, add exactly the given tracks in order. */
  lemma PlaylistCallsAddAll(name: string, trackIds: seq<TrackId>, userId: string, playlistId: string)
    ensures ItemsAdded(PlaylistCalls(name, trackIds, userId, playlistId)) == trackIds
  {
    var cs := Chunks(trackIds);
    var adds := seq(|cs|, k requires 0 <= k < |cs| => AddItems(playlistId, cs[k]));
    assert PlaylistCalls(name, trackIds, userId, playlistId)[1..] == adds;
    ItemsAddedOfAdds(playlistId, cs);
    FlattenChunks(trackIds);
  }

  /** Additions of some lists add their concatenation. */
  lemma {:induction false} ItemsAddedOfAdds(playlistId: string, cs: seq<seq<TrackId>>)
    ensures ItemsAdded(seq(|cs|, k requires 0 <= k < |cs| => AddItems(playlistId, cs[k]))) == Flatten(cs)
  {
    if cs != [] {
      ItemsAddedOfAdds(playlistId, cs[1..]);
      var adds := seq(|cs|, k requires 0 <= k < |cs| => AddItems(playlistId, cs[k]));
      assert adds[1..] == seq(|cs| - 1, k requires 0 <= k < |cs| - 1 => AddItems(playlistId, cs[1..][k]));
    }
  }

  /** `create_playlist_with_tracks`: creates the playlist, then adds
      `track_ids[i:i+100]` for `i` in `range(0, len(track_ids), 100)`.
      `userId` and `playlistId` stand for what `sp.current_user()` and
      `sp.user_playlist_create` return; the calls are returned in the order
      they are issued. */
  method CreatePlaylistWithTracks(name: string, trackIds: seq<TrackId>, userId: string, playlistId: string)
    returns (calls: seq<ApiCall>)
    ensures calls == PlaylistCalls(name, trackIds, userId, playlistId)
  {
    calls := [CreatePlaylist(userId, name)];
    var n := |trackIds|;
    var cs := Chunks(trackIds);
    var i := 0;
    while i < n
      invariant i % BatchSize == 0 && i / BatchSize <= |cs|
      invariant i < n ==> i / BatchSize < |cs|
      invariant calls == [CreatePlaylist(userId, name)] + seq(i / BatchSize, k requires 0 <= k < i / BatchSize => AddItems(playlistId, cs[k]))
    {
      ChunkIsSlice(trackIds, i / BatchSize);
      calls := calls + [AddItems(playlistId, trackIds[i..Min(i + BatchSize, n)])];
      i := i + BatchSize;
    }
  }
}
