/** Finding artists and gathering their tracks: `get_artist_id`
    (QuickShuffleMaker.py:35-39), `get_all_tracks` (:44-52) and the loop of
    `main` that accumulates every artist's tracks (:136-142). The service's
    answers are given as a `Catalog` of functions. */
module Discography {
  import opened Common

  /** What the music service answers, as seen by this program:
      - `search(q)`: the artist IDs of a one-result artist search for `q`
        (`sp.search(q=..., type="artist", limit=1)`), best match first;
      - `albums(a)`: the one page of album and single IDs that
        `sp.artist_albums(a, album_type="album,single", limit=50)` lists;
      - `tracks(b)`: the one page of track IDs that `sp.album_tracks(b)` lists. */
  datatype Catalog = Catalog(
    search: string -> seq<ArtistId>,
    albums: ArtistId -> seq<AlbumId>,
    tracks: AlbumId -> seq<TrackId>)

  /** `get_artist_id`: the best match of the search, or `None` when the search
      finds nothing. */
  function GetArtistId(cat: Catalog, name: string): (aid: Option<ArtistId>)
    ensures aid.None? <==> cat.search(name) == []
    ensures aid.Some? ==> aid.value == cat.search(name)[0]
  {
    var items := cat.search(name);
    if items != [] then Some(items[0]) else None
  }

  /** `if aid:` in `main`: an artist counts as found when the search gave a
      non-empty ID. */
  predicate Found(cat: Catalog, name: string) {
    Truthy(GetArtistId(cat, name))
  }

  /** The tracks of some albums, album after album, each in listing order. */
  function AlbumTracks(albums: seq<AlbumId>, tracks: AlbumId -> seq<TrackId>): seq<TrackId> {
    if albums == [] then []
    else AlbumTracks(albums[..|albums| - 1], tracks) + tracks(albums[|albums| - 1])
  }

  /** `get_all_tracks`: for each listed album, append each of its tracks. */
  method GetAllTracks(cat: Catalog, artist: ArtistId) returns (tracks: seq<TrackId>)
    ensures tracks == AlbumTracks(cat.albums(artist), cat.tracks)
  {
    tracks := [];
    var albums := cat.albums(artist);
    for a := 0 to |albums|
      invariant tracks == AlbumTracks(albums[..a], cat.tracks)
    {
      var albumTracks := cat.tracks(albums[a]);
      for t := 0 to |albumTracks|
        invariant tracks == AlbumTracks(albums[..a], cat.tracks) + albumTracks[..t]
      {
        tracks := tracks + [albumTracks[t]];
      }
      assert albums[..a + 1][..a] == albums[..a];
    }
    assert albums[..|albums|] == albums;
  }

  /** A track is collected exactly when some listed album lists it. */
  lemma {:induction false} AlbumTracksMember(albums: seq<AlbumId>, tracks: AlbumId -> seq<TrackId>, t: TrackId)
    ensures t in AlbumTracks(albums, tracks) <==> exists a :: 0 <= a < |albums| && t in tracks(albums[a])
  {
    if albums != [] {
      var n := |albums| - 1;
      AlbumTracksMember(albums[..n], tracks, t);
      if t in tracks(albums[n]) {
        assert 0 <= n < |albums| && t in tracks(albums[n]);
      }
      if exists a :: 0 <= a < |albums| && t in tracks(albums[a]) {
        var a :| 0 <= a < |albums| && t in tracks(albums[a]);
        if a < n {
          assert albums[..n][a] == albums[a];
        }
      }
    }
  }

  /** The tracks of an artist that the search found. */
  function ArtistTracks(cat: Catalog, name: string): seq<TrackId>
    requires Found(cat, name)
  {
    AlbumTracks(cat.albums(GetArtistId(cat, name).value), cat.tracks)
  }

  /** `track_ids` after the loop: the tracks of every found artist, artist
      after artist in input order. */
  function Collected(cat: Catalog, names: seq<string>): seq<TrackId> {
    if names == [] then []
    else
      var n := |names| - 1;
      Collected(cat, names[..n]) + (if Found(cat, names[n]) then ArtistTracks(cat, names[n]) else [])
  }

  /** The names reported as not found, in input order. */
  function Unresolved(cat: Catalog, names: seq<string>): seq<string> {
    if names == [] then []
    else
      var n := |names| - 1;
      Unresolved(cat, names[..n]) + (if Found(cat, names[n]) then [] else [names[n]])
  }

  /** The loop of `main` over the artist names: look each one up; append the
      tracks of a found artist, report an artist that is not found. */
  method CollectTracks(cat: Catalog, names: seq<string>) returns (trackIds: seq<TrackId>, notFound: seq<string>)
    ensures trackIds == Collected(cat, names)
    ensures notFound == Unresolved(cat, names)
  {
    trackIds := [];
    notFound := [];
    for i := 0 to |names|
      invariant trackIds == Collected(cat, names[..i])
      invariant notFound == Unresolved(cat, names[..i])
    {
      var name := names[i];
      var aid := GetArtistId(cat, name);
      if Truthy(aid) {
        var tracks := GetAllTracks(cat, aid.value);
        trackIds := trackIds + tracks;
      } else {
        notFound := notFound + [name];
      }
      assert names[..i + 1][..i] == names[..i];
    }
    assert names[..|names|] == names;
  }

  /** Tracks of consecutive stretches of names are concatenated. */
  lemma {:induction false} CollectedAppend(cat: Catalog, a: seq<string>, b: seq<string>)
    ensures Collected(cat, a + b) == Collected(cat, a) + Collected(cat, b)
    ensures Unresolved(cat, a + b) == Unresolved(cat, a) + Unresolved(cat, b)
  {
    if b == [] {
      assert a + b == a;
    } else {
      var n := |b| - 1;
      assert (a + b)[..|a + b| - 1] == a + b[..n];
      assert (a + b)[|a + b| - 1] == b[n];
      CollectedAppend(cat, a, b[..n]);
    }
  }

  /** A track is collected exactly when a found artist's album lists it. */
  lemma {:induction false} CollectedMember(cat: Catalog, names: seq<string>, t: TrackId)
    ensures t in Collected(cat, names) <==>
              exists i :: 0 <= i < |names| && Found(cat, names[i]) && t in ArtistTracks(cat, names[i])
  {
    if names != [] {
      var n := |names| - 1;
      CollectedMember(cat, names[..n], t);
      if Found(cat, names[n]) && t in ArtistTracks(cat, names[n]) {
        assert 0 <= n < |names| && Found(cat, names[n]) && t in ArtistTracks(cat, names[n]);
      }
      if exists i :: 0 <= i < |names| && Found(cat, names[i]) && t in ArtistTracks(cat, names[i]) {
        var i :| 0 <= i < |names| && Found(cat, names[i]) && t in ArtistTracks(cat, names[i]);
        if i < n {
          assert names[..n][i] == names[i];
        }
      }
    }
  }

  /** Each report names an input artist that was not found. */
  lemma {:induction false} UnresolvedSound(cat: Catalog, names: seq<string>)
    ensures |Unresolved(cat, names)| <= |names|
    ensures forall k :: 0 <= k < |Unresolved(cat, names)| ==>
              Unresolved(cat, names)[k] in names && !Found(cat, Unresolved(cat, names)[k])
  {
    if names != [] {
      var n := |names| - 1;
      UnresolvedSound(cat, names[..n]);
      assert forall x :: x in names[..n] ==> x in names;
    }
  }

  /** Every input artist that is not found is reported. */
  lemma {:induction false} UnresolvedComplete(cat: Catalog, names: seq<string>)
    ensures forall i :: 0 <= i < |names| && !Found(cat, names[i]) ==> names[i] in Unresolved(cat, names)
  {
    if names != [] {
      var n := |names| - 1;
      UnresolvedComplete(cat, names[..n]);
      assert forall i :: 0 <= i < n ==> names[..n][i] == names[i];
    }
  }

  /** When no artist is found, nothing is collected and every name is
      reported. */
  lemma {:induction false} NoneFound(cat: Catalog, names: seq<string>)
    requires forall i :: 0 <= i < |names| ==> !Found(cat, names[i])
    ensures Collected(cat, names) == []
    ensures Unresolved(cat, names) == names
  {
    if names != [] {
      var n := |names| - 1;
      var front := names[..n];
      assert forall i :: 0 <= i < n ==> front[i] == names[i];
      NoneFound(cat, front);
      assert !Found(cat, names[n]);
      assert Collected(cat, names) == Collected(cat, front);
      assert Unresolved(cat, names) == front + [names[n]];
      assert front + [names[n]] == names;
    }
  }
}
