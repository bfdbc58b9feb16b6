# QuickShuffleMaker, modelled in Dafny

QuickShuffleMaker is a command-line script. It gathers every track of a list of artists from a music service and publishes them as one new playlist. Each track appears once, in the order in which it was first met.

This project models the script's logic and proves what it guarantees:

- **Artists file.** `read_artists_file` reads a text file line by line. It skips blank lines and `#` comments. A `playlist: NAME` line, or the same line written as a comment, sets the playlist name; every other line is one artist name.
- **Choice of artists and name.** `main` takes the artists from the file, else from the comma-separated `--artists` option, else from two default artists. The playlist name comes from `--playlist-name`, else from the file's directive, else from a default.
- **Collecting tracks.** `get_artist_id` is applied to every artist, and `get_all_tracks` to every found artist. The tracks of found artists are collected in order; artists that are not found are reported.
- **Removing duplicates.** The collected track IDs keep only the first occurrence of each ID, and the order is kept.
- **Publishing.** `create_playlist_with_tracks` creates the playlist, then adds the tracks to it in calls of at most 100.

Each imperative loop of the script is a `method` with a `while` or `for` loop. Its `ensures` ties the result to a recursive specification function, and lemmas prove the script's promises about that function.

The music service is a `Catalog` of three functions:

- the artist search;
- the album listing;
- the track listing.

The calls that change the user's library are returned as a log of `ApiCall` values. The file system is a function from a path to the file's lines, or `None` when the file does not exist. The parsed command-line options are an `Args` value.

The modules, one file each:

| module | file | models |
|---|---|---|
| `Common` | common.dfy | `Option`, ID types, Python truthiness of an optional string |
| `PyStr` | pystr.dfy | the `str` methods used: `strip()`, `lstrip('#')`, `split(',')`, `split(':', 1)[1]`, `lower().startswith(...)` |
| `ArtistsFile` | artists_file.dfy | `read_artists_file` |
| `Discography` | discography.dfy | `get_artist_id`, `get_all_tracks`, the collecting loop of `main` |
| `Dedup` | dedup.dfy | the order-preserving deduplication in `main` |
| `Batching` | batching.dfy | `create_playlist_with_tracks` |
| `Cli` | cli.dfy | `main`: selecting the input, the name precedence, the whole run |
| `Examples` | examples.dfy | concrete runs of the above |

## Model

| member | source | states |
|---|---|---|
| PyStr.Strip | QuickShuffleMaker.py:86 | `line.strip()` is no longer than the line, and neither of its ends is whitespace |
| PyStr.StripSlice | QuickShuffleMaker.py:86 | `strip()` keeps a contiguous slice of the line and cuts only whitespace from either end |
| PyStr.StripStripped | QuickShuffleMaker.py:92 | `strip()` of an already stripped string is that string, so stripping twice is stripping once |
| PyStr.StripAppendSpace | QuickShuffleMaker.py:94 | trailing whitespace does not change the result of `strip()` |
| PyStr.LStripCharDrops | QuickShuffleMaker.py:92 | `lstrip('#')` removes exactly the leading run of `#` and keeps the rest as a suffix |
| PyStr.LowerStartsWithLiteral | QuickShuffleMaker.py:93 | a line that literally begins with `playlist:` passes the case-insensitive test |
| PyStr.LowerStartsWithAt | QuickShuffleMaker.py:93 | each of the first characters of a line that passes the test lower-cases to the tag's character |
| PyStr.AfterFirstSuffix | QuickShuffleMaker.py:94 | `split(':', 1)[1]` is the suffix behind the first `:`, and no `:` stands before that one |
| PyStr.Split | QuickShuffleMaker.py:125 | `split(',')` gives at least one piece, and no piece contains a comma |
| PyStr.JoinSplit | QuickShuffleMaker.py:125 | joining the pieces of `split(',')` with commas gives back the argument |
| PyStr.SplitJoin | QuickShuffleMaker.py:125 | splitting a comma-join of comma-free pieces gives back the pieces |
| ArtistsFile.ReadArtistsFile | QuickShuffleMaker.py:70-107 | the loop returns, for an existing file, the names of its artist lines in file order and its last directive's name; a missing file gives `[]` and `None` |
| ArtistsFile.ReadStep | QuickShuffleMaker.py:85-104 | reading one more line appends its artist name or replaces the playlist name with its directive's name, and changes nothing else |
| ArtistsFile.ClassifyArtist | QuickShuffleMaker.py:86-104 | a line is an artist line exactly when its stripped text is non-empty, does not start with `#` and is not a directive; that stripped text is the name |
| ArtistsFile.ClassifyDirective | QuickShuffleMaker.py:91-101 | a directive line, bare or behind `#`s, names the stripped text after the first `:` of the stripped line |
| ArtistsFile.DirectiveHasColon | QuickShuffleMaker.py:93-94 | a line that passes the `playlist:` test contains a `:`, so `split(':', 1)[1]` cannot fail |
| ArtistsFile.DirectiveNameAfterTag | QuickShuffleMaker.py:94 | a directive's name is the stripped text right after the nine-character tag |
| ArtistsFile.HashedColon | QuickShuffleMaker.py:92-94 | the first `:` of a `#` line lies behind its `#`s, so the name taken from the comment text is the one after the line's first `:` |
| ArtistsFile.ArtistNamesValid | QuickShuffleMaker.py:86-104 | there are at most as many names as lines, and every name is non-empty, stripped, not a comment and not a directive |
| ArtistsFile.ArtistNamesAppend | QuickShuffleMaker.py:85-104 | the names of two stretches of lines read one after the other are the names of the first followed by those of the second |
| ArtistsFile.ArtistNamesAt | QuickShuffleMaker.py:104 | an artist line adds its stripped text at its own position among the names |
| ArtistsFile.ArtistNamesSkip | QuickShuffleMaker.py:87-101 | a blank, comment or directive line adds no name |
| ArtistsFile.LastDirectiveNone | QuickShuffleMaker.py:82 | the playlist name stays `None` exactly when no line is a directive |
| ArtistsFile.LastDirectiveSome | QuickShuffleMaker.py:94-100 | a playlist name comes from a directive with no directive after it, so the last directive wins |
| ArtistsFile.LastDirectiveLines | QuickShuffleMaker.py:82-101 | the same two facts, stated over the file's lines |
| ArtistsFile.LastDirectiveLinesAppend | QuickShuffleMaker.py:94-100 | a later stretch of lines overrides the playlist name of an earlier one exactly when it has a directive |
| Discography.GetArtistId | QuickShuffleMaker.py:35-39 | the result is `None` exactly when the search finds nothing, and is otherwise the first match |
| Discography.GetAllTracks | QuickShuffleMaker.py:44-52 | the nested loops return the tracks of every listed album, album after album, each in listing order |
| Discography.AlbumTracksMember | QuickShuffleMaker.py:48-51 | a track is returned exactly when some listed album lists it |
| Discography.CollectTracks | QuickShuffleMaker.py:136-142 | the loop returns the tracks of the found artists in input order, and reports the artists that are not found, in input order |
| Discography.CollectedAppend | QuickShuffleMaker.py:137-142 | the tracks and the reports of consecutive stretches of names are concatenated |
| Discography.CollectedMember | QuickShuffleMaker.py:137-140 | a track is collected exactly when a found artist's album lists it |
| Discography.UnresolvedSound | QuickShuffleMaker.py:141-142 | every reported name is an input name that is not found, and there are no more reports than names |
| Discography.UnresolvedComplete | QuickShuffleMaker.py:141-142 | every input name that is not found is reported |
| Discography.NoneFound | QuickShuffleMaker.py:137-142 | when no artist is found, no track is collected and every name is reported |
| Dedup.IndexOf | QuickShuffleMaker.py:147-150 | the first position of an ID: it holds the ID and nothing before it does |
| Dedup.FirstOccurrences | QuickShuffleMaker.py:144-150 | the deduplicated list has no repeats and holds exactly the IDs of the input |
| Dedup.RemoveDuplicates | QuickShuffleMaker.py:144-150 | the loop over `seen` returns the first occurrences, which have no repeats and hold the same IDs |
| Dedup.FirstOccurrencesLength | QuickShuffleMaker.py:144-150 | deduplication never lengthens the list |
| Dedup.FirstOccurrencesOfUnique | QuickShuffleMaker.py:144-150 | a list without repeats is left unchanged |
| Dedup.FirstOccurrencesOrder | QuickShuffleMaker.py:144-150 | the kept IDs stand in the order of their first occurrences in the input |
| Dedup.FirstOccurrencesUnique | QuickShuffleMaker.py:144-150 | any repeat-free list with the input's IDs in first-occurrence order is the deduplicated list, so the three properties define it |
| Batching.Chunks | QuickShuffleMaker.py:62-63 | there are ceil(n / 100) pieces; each has 1 to 100 tracks, and all but the last have exactly 100 |
| Batching.FlattenChunks | QuickShuffleMaker.py:62-63 | the pieces, concatenated, are the whole list |
| Batching.ChunkIsSlice | QuickShuffleMaker.py:62-63 | piece `k` is the slice `track_ids[100k : 100k + 100]` |
| Batching.PlaylistCalls | QuickShuffleMaker.py:57-63 | the playlist is created once, first, by the user; ceil(n / 100) additions to that playlist follow, each of 1 to 100 tracks, all but the last of 100 |
| Batching.PlaylistCallsAddAll | QuickShuffleMaker.py:59-63 | the additions add exactly the given tracks, in order |
| Batching.ItemsAddedOfAdds | QuickShuffleMaker.py:62-63 | one addition per piece adds the concatenation of the pieces |
| Batching.CreatePlaylistWithTracks | QuickShuffleMaker.py:57-63 | the loop stepping by 100 issues exactly the calls of `PlaylistCalls` |
| Cli.StrippedNonEmpty | QuickShuffleMaker.py:125 | the kept entries are no more than the pieces, and each is non-empty and stripped |
| Cli.SplitArtistsValid | QuickShuffleMaker.py:125 | every `--artists` entry is non-empty, stripped and free of commas |
| Cli.StrippedNoSep | QuickShuffleMaker.py:125 | stripping comma-free pieces leaves them comma-free |
| Cli.SelectedNamesValid | QuickShuffleMaker.py:119-127 | whatever the input, every selected name is non-empty and stripped, and only an artists file can set a playlist name |
| Cli.ChoosePlaylistName | QuickShuffleMaker.py:133-134 | the name is the non-empty option, else the file's non-empty directive, else the default; it is never empty |
| Cli.Run | QuickShuffleMaker.py:110-152 | `main`, after option parsing, produces the outcome `Pipeline` describes |
| Cli.EarlyReturn | QuickShuffleMaker.py:129-131 | a run stops before any lookup exactly when no artist is selected; a missing file stops it; with neither a file nor `--artists`, the defaults always publish |
| Cli.NothingFound | QuickShuffleMaker.py:136-152 | when no artist is found, an empty playlist is still created and every selected name is reported |
| Cli.PublishedTracks | QuickShuffleMaker.py:136-152 | the published playlist holds every track of every found artist exactly once, in first-occurrence order across the artists |
| Examples.FileExample | QuickShuffleMaker.py:70-107 | a file with a commented directive, a blank line and a plain comment gives two artists and the directive's name |
| Examples.DirectiveNameExample | QuickShuffleMaker.py:99-100 | `playlist: My Mix` is a directive naming `My Mix` |
| Examples.CommentDirectiveExample | QuickShuffleMaker.py:91-94 | `# playlist: My Mix` is a directive naming `My Mix` |
| Examples.PlainCommentExample | QuickShuffleMaker.py:91-96 | `# note` is a comment and adds nothing |
| Examples.DedupExample | QuickShuffleMaker.py:144-150 | `[a, b, a, c, b]` deduplicates to `[a, b, c]` |
| Examples.BatchExample | QuickShuffleMaker.py:62-63 | 250 tracks are added in three calls, of 100, 100 and 50 |

## Left out

- Loading `.env`, reading the client credentials and building the OAuth client (QuickShuffleMaker.py:1-30): these are configuration and I/O, with no logic to model.
- Option parsing with `argparse` (QuickShuffleMaker.py:110-116): the parsed options are the `Args` value, and an empty option string counts as absent, as `if args.x:` does.
- Printing (QuickShuffleMaker.py:65, 106, 130, 142): the not-found reports are returned as `notFound`, and the early return is the `NoArtists` outcome. The playlist URL printed at line 65 is not modelled.
- The service calls are functions of their arguments. Network errors, rate limits and exceptions from the service are not modelled, and neither is any error other than `FileNotFoundError` (for example a `UnicodeDecodeError` while reading the file).
- `sp.current_user()["id"]` and the ID of the created playlist are the parameters `userId` and `playlistId`.
- Reading the file: the file is given as its lines, already decoded from UTF-8 and split on newlines. Universal-newline handling and a possible byte-order mark are not modelled.
- Discography.GetAllTracks: like the script, it reads only the first page of each listing, that is up to 50 albums and singles (line 46) and the service's default page of tracks per album (line 49). The `album_type="album,single"` filter is applied by the service, so `Catalog.albums` stands for its answer; that compilations are excluded is therefore not something the model can prove.
- Discography.GetArtistId: `limit=1` is the service's concern; the model takes the first match of whatever the search returns.
- PyStr.LowerStartsWith: `lower()` is folded only on ASCII letters. For the tag `playlist:` this is exact. Only two non-ASCII characters lower-case to something that begins with an ASCII letter. The Kelvin sign becomes `k`, which is not in the tag. Dotted capital I becomes `i` followed by U+0307, and in the tag `i` is followed by `s`, not by U+0307.
- PyStr.IsSpace: whitespace is the set of characters that Python's `str.strip()` removes, listed explicitly.
- Discography.GetArtistId: every artist is looked up by name search (line 36); artist IDs and URIs are not recognised.
