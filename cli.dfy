/** `main` (QuickShuffleMaker.py:110-152): choose the artists and the
    playlist name from the command line, gather and deduplicate the tracks,
    and publish them as a new playlist. The parsed options, the file system
    and the service are parameters. */
module Cli {
  import opened Common
  import opened PyStr
  import opened ArtistsFile
  import opened Discography
  import opened Dedup
  import opened Batching

  /** The artists used when neither a file nor `--artists` is given. */
  const DefaultArtists: seq<string> := ["Yoasobi", "Eve"]

  /** The playlist name used when neither `--playlist-name` nor the file
      gives a non-empty one. */
  const DefaultPlaylistName: string := "まとめプレイリスト"

  /** The parsed options `--artists-file`, `--artists` and `--playlist-name`
      (`None` when absent). */
  datatype Args = Args(artistsFile: Option<string>, artists: Option<string>, playlistName: Option<string>)

  /** The artists to look up and the playlist name the file set, if any. */
  datatype Selection = Selection(names: seq<string>, fileName: Option<string>)

  /** What a run leaves behind: an early return because there is no artist,
      or the chosen name, the not-found reports and the calls that created
      and filled the playlist. */
  datatype Outcome =
    | NoArtists
    | Published(playlistName: string, notFound: seq<string>, calls: seq<ApiCall>)

  /** `[s.strip() for s in pieces if s.strip()]`. */
  function StrippedNonEmpty(pieces: seq<string>): (r: seq<string>)
    ensures |r| <= |pieces|
    ensures forall k :: 0 <= k < |r| ==> r[k] != [] && IsStripped(r[k])
  {
    if pieces == [] then []
    else
      var rest := StrippedNonEmpty(pieces[1..]);
      var s := Strip(pieces[0]);
      if s != [] then [s] + rest else rest
  }

  /** The names of `--artists`: its comma-separated entries, stripped, with
      empty ones dropped. */
  function SplitArtists(arg: string): seq<string> {
    StrippedNonEmpty(Split(arg, ','))
  }

  /** Every `--artists` entry is non-empty, stripped and free of commas. */
  lemma SplitArtistsValid(arg: string)
    ensures forall k :: 0 <= k < |SplitArtists(arg)| ==>
              SplitArtists(arg)[k] != [] && IsStripped(SplitArtists(arg)[k]) && ',' !in SplitArtists(arg)[k]
  {
    var pieces := Split(arg, ',');
    StrippedNoSep(pieces, ',');
  }

  /** Stripping separator-free pieces leaves them separator-free. */
  lemma {:induction false} StrippedNoSep(pieces: seq<string>, sep: char)
    requires forall k :: 0 <= k < |pieces| ==> sep !in pieces[k]
    ensures forall k :: 0 <= k < |StrippedNonEmpty(pieces)| ==> sep !in StrippedNonEmpty(pieces)[k]
  {
    if pieces != [] {
      StrippedNoSep(pieces[1..], sep);
      var p := pieces[0];
      StripSlice(p);
      var i := |p| - |LStrip(p)|;
      assert Strip(p) == p[i..i + |Strip(p)|];
      assert forall c :: c in Strip(p) ==> c in p;
    }
  }

  /** The artist list and the file's playlist name: from the file when
      `--artists-file` is given (a missing file gives nothing), else from
      `--artists`, else the defaults. An empty option string counts as
      absent. */
  function SelectArtists(args: Args, readFile: string -> Option<seq<string>>): Selection {
    if Truthy(args.artistsFile) then
      match readFile(args.artistsFile.value)
      case None => Selection([], None)
      case Some(lines) => Selection(ArtistNames(lines), LastDirective(lines))
    else if Truthy(args.artists) then Selection(SplitArtists(args.artists.value), None)
    else Selection(DefaultArtists, None)
  }

  /** Whatever the source, every selected artist name is non-empty and
      stripped; only a file can set a playlist name. */
  lemma SelectedNamesValid(args: Args, readFile: string -> Option<seq<string>>)
    ensures var sel := SelectArtists(args, readFile);
            && (forall k :: 0 <= k < |sel.names| ==> sel.names[k] != [] && IsStripped(sel.names[k]))
            && (sel.fileName.Some? ==> Truthy(args.artistsFile))
  {
    if Truthy(args.artistsFile) {
      if readFile(args.artistsFile.value).Some? {
        ArtistNamesValid(readFile(args.artistsFile.value).value);
      }
    } else if Truthy(args.artists) {
      SplitArtistsValid(args.artists.value);
    }
  }

  /** The playlist name: `--playlist-name` when non-empty, else the file's
      directive when non-empty, else the default; so it is never empty. */
  function ChoosePlaylistName(cli: Option<string>, fromFile: Option<string>): (name: string)
    ensures name != []
    ensures Truthy(cli) ==> name == cli.value
    ensures !Truthy(cli) && Truthy(fromFile) ==> name == fromFile.value
    ensures !Truthy(cli) && !Truthy(fromFile) ==> name == DefaultPlaylistName
  {
    if Truthy(cli) then cli.value
    else if Truthy(fromFile) then fromFile.value
    else DefaultPlaylistName
  }

  /** The whole run, as a value. */
  function Pipeline(args: Args, readFile: string -> Option<seq<string>>, cat: Catalog,
                    userId: string, playlistId: string): Outcome
  {
    var sel := SelectArtists(args, readFile);
    if sel.names == [] then NoArtists
    else
      var name := ChoosePlaylistName(args.playlistName, sel.fileName);
      var unique := FirstOccurrences(Collected(cat, sel.names));
      Published(name, Unresolved(cat, sel.names), PlaylistCalls(name, unique, userId, playlistId))
  }

  /** `main`, after the options are parsed. `readFile(path)` is the file's
      lines, or `None` when it does not exist; `userId` and `playlistId`
      stand for the answers of `sp.current_user()` and
      `sp.user_playlist_create`. */
  method Run(args: Args, readFile: string -> Option<seq<string>>, cat: Catalog,
             userId: string, playlistId: string) returns (out: Outcome)
    ensures out == Pipeline(args, readFile, cat, userId, playlistId)
  {
    var artistNames: seq<string> := [];
    var filePlaylistName: Option<string> := None;
    if Truthy(args.artistsFile) {
      artistNames, filePlaylistName := ReadArtistsFile(readFile(args.artistsFile.value));
    } else if Truthy(args.artists) {
      artistNames := SplitArtists(args.artists.value);
    } else {
      artistNames := DefaultArtists;
    }

    if artistNames == [] {
      return NoArtists;
    }

    var playlistName := ChoosePlaylistName(args.playlistName, filePlaylistName);
    var trackIds, notFound := CollectTracks(cat, artistNames);
    var uniqueTracks := RemoveDuplicates(trackIds);
    var calls := CreatePlaylistWithTracks(playlistName, uniqueTracks, userId, playlistId);
    out := Published(playlistName, notFound, calls);
  }

  /** A run returns early, before any lookup or call, exactly when no artist
      was selected; a missing artists file is one such case. */
  lemma EarlyReturn(args: Args, readFile: string -> Option<seq<string>>, cat: Catalog,
                    userId: string, playlistId: string)
    ensures Pipeline(args, readFile, cat, userId, playlistId) == NoArtists <==> SelectArtists(args, readFile).names == []
    ensures Truthy(args.artistsFile) && readFile(args.artistsFile.value).None? ==>
              Pipeline(args, readFile, cat, userId, playlistId) == NoArtists
    ensures !Truthy(args.artistsFile) && !Truthy(args.artists) ==>
              Pipeline(args, readFile, cat, userId, playlistId).Published?
  {
  }

  /** When no artist is found, the playlist is still created, left empty,
      and every selected name is reported as not found. */
  lemma NothingFound(args: Args, readFile: string -> Option<seq<string>>, cat: Catalog,
                     userId: string, playlistId: string)
    requires SelectArtists(args, readFile).names != []
    requires forall i :: 0 <= i < |SelectArtists(args, readFile).names| ==> !Found(cat, SelectArtists(args, readFile).names[i])
    ensures var out := Pipeline(args, readFile, cat, userId, playlistId);
            && out.Published?
            && out.notFound == SelectArtists(args, readFile).names
            && out.calls == [CreatePlaylist(userId, out.playlistName)]
  {
    var names := SelectArtists(args, readFile).names;
    NoneFound(cat, names);
    assert FirstOccurrences([]) == [];
  }

  /** What ends up in the playlist: every track of every found artist, each
      once, in the order of its first appearance across the artists. */
  lemma PublishedTracks(args: Args, readFile: string -> Option<seq<string>>, cat: Catalog,
                        userId: string, playlistId: string)
    requires Pipeline(args, readFile, cat, userId, playlistId).Published?
    ensures var names := SelectArtists(args, readFile).names;
            var added := ItemsAdded(Pipeline(args, readFile, cat, userId, playlistId).calls);
            && NoDuplicates(added)
            && InFirstOccurrenceOrder(Collected(cat, names), added)
            && (forall t :: t in added <==>
                  exists i :: 0 <= i < |names| && Found(cat, names[i]) && t in ArtistTracks(cat, names[i]))
  {
    var sel := SelectArtists(args, readFile);
    var name := ChoosePlaylistName(args.playlistName, sel.fileName);
    var collected := Collected(cat, sel.names);
    var unique := FirstOccurrences(collected);
    PlaylistCallsAddAll(name, unique, userId, playlistId);
    FirstOccurrencesOrder(collected);
    forall t ensures t in unique <==>
                 exists i :: 0 <= i < |sel.names| && Found(cat, sel.names[i]) && t in ArtistTracks(cat, sel.names[i])
    {
      CollectedMember(cat, sel.names, t);
    }
  }
}
