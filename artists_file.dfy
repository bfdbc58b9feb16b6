/** `read_artists_file` (QuickShuffleMaker.py:70-107): one artist per line,
    blank lines and `#` comments ignored, and a `playlist: NAME` directive,
    bare or behind `#`, that names the playlist (the last one wins). The file
    is given as its lines; a missing file is `None`. */
module ArtistsFile {
  import opened Common
  import opened PyStr

  /** The directive prefix, compared case-insensitively. */
  const DirectiveTag := "playlist:"

  /** How one line of the file is read. */
  datatype LineKind = Blank | Comment | Directive(name: string) | Artist(name: string)

  /** Text that starts with `playlist:` in any letter case. */
  predicate IsDirective(text: string) {
    LowerStartsWith(text, DirectiveTag)
  }

  /** A directive's text has a `:`, so `split(':', 1)[1]` is defined on it. */
  lemma DirectiveHasColon(text: string)
    requires IsDirective(text)
    ensures ':' in text
  {
    LowerStartsWithAt(text, DirectiveTag, 8);
  }

  /** What a line can contribute as an artist name. */
  predicate IsArtistName(name: string) {
    name != [] && IsStripped(name) && name[0] != '#' && !IsDirective(name)
  }

  /** The name a directive sets: the stripped text after its first `:`. */
  function DirectiveName(text: string): string
    requires IsDirective(text)
  {
    DirectiveHasColon(text);
    Strip(AfterFirst(text, ':'))
  }

  /** The reading of a single line, as a value. */
  function Classify(line: string): LineKind {
    var raw := Strip(line);
    if raw == [] then Blank
    else if raw[0] == '#' then
      var text := Strip(LStripChar(raw, '#'));
      if IsDirective(text) then Directive(DirectiveName(text)) else Comment
    else if IsDirective(raw) then Directive(DirectiveName(raw))
    else Artist(raw)
  }

  /** The reading of each line of a file. */
  function Kinds(lines: seq<string>): (kinds: seq<LineKind>)
    ensures |kinds| == |lines|
  {
    seq(|lines|, k requires 0 <= k < |lines| => Classify(lines[k]))
  }

  /** The names carried by artist lines, in order. */
  function NamesOf(kinds: seq<LineKind>): seq<string> {
    if kinds == [] then []
    else
      var rest := NamesOf(kinds[1..]);
      if kinds[0].Artist? then [kinds[0].name] + rest else rest
  }

  /** The name of the last directive, if any: scanning from the end, the
      first directive met is the one that counts. */
  function LastDirectiveOf(kinds: seq<LineKind>): Option<string> {
    if kinds == [] then None
    else if kinds[|kinds| - 1].Directive? then Some(kinds[|kinds| - 1].name)
    else LastDirectiveOf(kinds[..|kinds| - 1])
  }

  /** The artist names of a file, one per artist line, in file order. */
  function ArtistNames(lines: seq<string>): seq<string> {
    NamesOf(Kinds(lines))
  }

  /** The playlist name set by the file's last directive, if any. */
  function LastDirective(lines: seq<string>): Option<string> {
    LastDirectiveOf(Kinds(lines))
  }

  /** `read_artists_file`: walks the lines in order, appending artist names
      and overwriting the playlist name at each directive. A missing file
      (the `FileNotFoundError` branch) gives no names and no playlist name. */
  method ReadArtistsFile(file: Option<seq<string>>) returns (names: seq<string>, playlistName: Option<string>)
    ensures file.None? ==> names == [] && playlistName == None
    ensures file.Some? ==> names == ArtistNames(file.value) && playlistName == LastDirective(file.value)
  {
    names := [];
    playlistName := None;
    if file.None? {
      return;
    }
    var lines := file.value;
    var i := 0;
    while i < |lines|
      invariant 0 <= i <= |lines|
      invariant names == ArtistNames(lines[..i])
      invariant playlistName == LastDirective(lines[..i])
    {
      ReadStep(lines, i);
      var raw := Strip(lines[i]);
      if raw != [] {
        if raw[0] == '#' {
          var directive := Strip(LStripChar(raw, '#'));
          if LowerStartsWith(directive, DirectiveTag) {
            DirectiveHasColon(directive);
            playlistName := Some(Strip(AfterFirst(directive, ':')));
          }
        } else if LowerStartsWith(raw, DirectiveTag) {
          DirectiveHasColon(raw);
          playlistName := Some(Strip(AfterFirst(raw, ':')));
        } else {
          names := names + [raw];
        }
      }
      i := i + 1;
    }
    assert lines[..i] == lines;
  }

  /** Reading one more line appends its artist name, or replaces the
      playlist name with its directive's name. */
  lemma ReadStep(lines: seq<string>, i: nat)
    requires i < |lines|
    ensures var kind := Classify(lines[i]);
            && ArtistNames(lines[..i + 1]) == ArtistNames(lines[..i]) + (if kind.Artist? then [kind.name] else [])
            && LastDirective(lines[..i + 1]) == (if kind.Directive? then Some(kind.name) else LastDirective(lines[..i]))
  {
    var kind := Classify(lines[i]);
    KindsSnoc(lines, i);
    NamesAppend(Kinds(lines[..i]), [kind]);
    NamesSingle(kind);
    assert Kinds(lines[..i + 1])[..|Kinds(lines[..i + 1])| - 1] == Kinds(lines[..i]);
  }

  /** Reading one more line adds its reading at the end. */
  lemma KindsSnoc(lines: seq<string>, i: nat)
    requires i < |lines|
    ensures Kinds(lines[..i + 1]) == Kinds(lines[..i]) + [Classify(lines[i])]
  {
    assert forall k :: 0 <= k < i ==> lines[..i + 1][k] == lines[..i][k];
  }

  /** Reading two stretches of lines reads each in turn. */
  lemma KindsAppend(a: seq<string>, b: seq<string>)
    ensures Kinds(a + b) == Kinds(a) + Kinds(b)
  {
    assert forall k :: 0 <= k < |a| ==> (a + b)[k] == a[k];
    assert forall k :: |a| <= k < |a| + |b| ==> (a + b)[k] == b[k - |a|];
  }

  /** Names of consecutive stretches of readings are concatenated. */
  lemma {:induction false} NamesAppend(a: seq<LineKind>, b: seq<LineKind>)
    ensures NamesOf(a + b) == NamesOf(a) + NamesOf(b)
  {
    if a == [] {
      assert a + b == b;
    } else {
      NamesAppend(a[1..], b);
      assert (a + b)[0] == a[0] && (a + b)[1..] == a[1..] + b;
    }
  }

  /** A single reading contributes its name if it is an artist's. */
  lemma NamesSingle(kind: LineKind)
    ensures NamesOf([kind]) == if kind.Artist? then [kind.name] else []
  {
    assert [kind][1..] == [];
  }

  /** Every name comes from an artist reading. */
  lemma {:induction false} NamesFromArtists(kinds: seq<LineKind>)
    requires forall k :: 0 <= k < |kinds| && kinds[k].Artist? ==> IsArtistName(kinds[k].name)
    ensures |NamesOf(kinds)| <= |kinds|
    ensures forall k :: 0 <= k < |NamesOf(kinds)| ==> IsArtistName(NamesOf(kinds)[k])
  {
    if kinds != [] {
      NamesFromArtists(kinds[1..]);
    }
  }

  /** The names of two consecutive stretches of lines are the names of the
      first followed by the names of the second. */
  lemma ArtistNamesAppend(a: seq<string>, b: seq<string>)
    ensures ArtistNames(a + b) == ArtistNames(a) + ArtistNames(b)
  {
    KindsAppend(a, b);
    NamesAppend(Kinds(a), Kinds(b));
  }

  /** Every name read from a file is non-empty, stripped, does not start with
      `#` and does not start with `playlist:` in any letter case; there is
      at most one per line. */
  lemma ArtistNamesValid(lines: seq<string>)
    ensures |ArtistNames(lines)| <= |lines|
    ensures forall k :: 0 <= k < |ArtistNames(lines)| ==> IsArtistName(ArtistNames(lines)[k])
  {
    forall k | 0 <= k < |lines| && Kinds(lines)[k].Artist?
      ensures IsArtistName(Kinds(lines)[k].name)
    {
      ClassifyArtist(lines[k]);
    }
    NamesFromArtists(Kinds(lines));
  }

  /** An artist line contributes exactly its stripped text, at its place. */
  lemma ArtistNamesAt(lines: seq<string>, i: nat)
    requires i < |lines| && Classify(lines[i]).Artist?
    ensures ArtistNames(lines) == ArtistNames(lines[..i]) + [Strip(lines[i])] + ArtistNames(lines[i + 1..])
  {
    var pre, post := lines[..i], lines[i + 1..];
    assert lines == (pre + [lines[i]]) + post;
    ArtistNamesAppend(pre + [lines[i]], post);
    ArtistNamesAppend(pre, [lines[i]]);
    assert Kinds([lines[i]]) == [Classify(lines[i])];
    NamesSingle(Classify(lines[i]));
  }

  /** A blank line, a comment or a directive contributes no name: dropping
      it leaves the names unchanged. */
  lemma ArtistNamesSkip(lines: seq<string>, i: nat)
    requires i < |lines| && !Classify(lines[i]).Artist?
    ensures ArtistNames(lines) == ArtistNames(lines[..i] + lines[i + 1..])
  {
    var pre, post := lines[..i], lines[i + 1..];
    assert lines == (pre + [lines[i]]) + post;
    ArtistNamesAppend(pre + [lines[i]], post);
    ArtistNamesAppend(pre, [lines[i]]);
    ArtistNamesAppend(pre, post);
    assert Kinds([lines[i]]) == [Classify(lines[i])];
    NamesSingle(Classify(lines[i]));
  }

  /** A line is an artist line exactly when its stripped text can be an
      artist name, and then that text is the name. */
  lemma ClassifyArtist(line: string)
    ensures Classify(line).Artist? <==> IsArtistName(Strip(line))
    ensures Classify(line).Artist? ==> Classify(line).name == Strip(line)
  {
  }

  /** A directive line, bare or behind `#`, sets the stripped text after the
      first `:` of the stripped line. */
  lemma ClassifyDirective(line: string)
    requires Classify(line).Directive?
    ensures ':' in Strip(line)
    ensures Classify(line).name == Strip(AfterFirst(Strip(line), ':'))
  {
    var raw := Strip(line);
    if raw[0] == '#' {
      var text := Strip(LStripChar(raw, '#'));
      DirectiveHasColon(text);
      HashedColon(raw);
    } else {
      DirectiveHasColon(raw);
    }
  }

  /** When the text behind the leading `#`s of `raw` has a `:`, the first
      `:` of `raw` is that one, and what follows it strips alike. */
  lemma HashedColon(raw: string)
    requires ':' in Strip(LStripChar(raw, '#'))
    ensures ':' in raw
    ensures Strip(AfterFirst(raw, ':')) == Strip(AfterFirst(Strip(LStripChar(raw, '#')), ':'))
  {
    StrippedColon(LStripChar(raw, '#'));
    HashesSkipped(raw);
  }

  /** Leading `#`s hold no `:`, so the first `:` lies behind them. */
  lemma HashesSkipped(raw: string)
    requires ':' in LStripChar(raw, '#')
    ensures ':' in raw && AfterFirst(raw, ':') == AfterFirst(LStripChar(raw, '#'), ':')
  {
    var rest := LStripChar(raw, '#');
    LStripCharDrops(raw, '#');
    var front := raw[..|raw| - |rest|];
    assert raw == front + rest;
    AfterFirstSkip(front, rest, ':');
  }

  /** Whitespace around a text holds no `:`, so the text after the first `:`
      of the text and of the text with its whitespace strip alike. */
  lemma StrippedColon(s: string)
    requires ':' in Strip(s)
    ensures ':' in s
    ensures Strip(AfterFirst(s, ':')) == Strip(AfterFirst(Strip(s), ':'))
  {
    var text := Strip(s);
    StripSlice(s);
    var i := |s| - |LStrip(s)|;
    var front := s[..i];
    var tail := s[i + |text|..];
    assert s == front + (text + tail);
    assert ':' !in front by {
      assert AllSpace(front);
    }
    AfterFirstSkip(front, text + tail, ':');
    AfterFirstSkip(text, tail, ':');
    StripAppendSpace(AfterFirst(text, ':'), tail);
  }

  /** The first `:` of `p + q` is the first `:` of `q` when `p` has none, and
      the first of `p` when it has one. */
  lemma {:induction false} AfterFirstSkip(p: string, q: string, sep: char)
    ensures sep !in p && sep in q ==> AfterFirst(p + q, sep) == AfterFirst(q, sep)
    ensures sep in p ==> AfterFirst(p + q, sep) == AfterFirst(p, sep) + q
  {
    if p != [] {
      assert (p + q)[0] == p[0] && (p + q)[1..] == p[1..] + q;
      AfterFirstSkip(p[1..], q, sep);
    } else {
      assert p + q == q;
    }
  }

  /** The directive name is the stripped text right after the tag. */
  lemma DirectiveNameAfterTag(text: string)
    requires IsDirective(text)
    ensures DirectiveName(text) == Strip(text[|DirectiveTag|..])
  {
    forall k | 0 <= k < 8 ensures text[..8][k] != ':' {
      LowerStartsWithAt(text, DirectiveTag, k);
    }
    assert text == text[..8] + text[8..];
    LowerStartsWithAt(text, DirectiveTag, 8);
    assert text[8..][0] == ':';
    AfterFirstSkip(text[..8], text[8..], ':');
  }

  /** No directive anywhere exactly when there is no playlist name. */
  lemma {:induction false} LastDirectiveNone(kinds: seq<LineKind>)
    ensures LastDirectiveOf(kinds) == None <==> forall i :: 0 <= i < |kinds| ==> !kinds[i].Directive?
  {
    if kinds != [] {
      LastDirectiveNone(kinds[..|kinds| - 1]);
    }
  }

  /** A playlist name comes from some directive with no directive after it:
      the last directive wins. */
  lemma {:induction false} LastDirectiveSome(kinds: seq<LineKind>)
    requires LastDirectiveOf(kinds).Some?
    ensures exists i :: 0 <= i < |kinds| && kinds[i] == Directive(LastDirectiveOf(kinds).value)
                        && forall j :: i < j < |kinds| ==> !kinds[j].Directive?
  {
    var n := |kinds| - 1;
    if !kinds[n].Directive? {
      var front := kinds[..n];
      assert LastDirectiveOf(kinds) == LastDirectiveOf(front);
      LastDirectiveSome(front);
      var i :| 0 <= i < n && front[i] == Directive(LastDirectiveOf(front).value)
               && forall j :: i < j < n ==> !front[j].Directive?;
      assert kinds[i] == front[i];
      forall j | i < j < |kinds| ensures !kinds[j].Directive? {
        if j < n {
          assert kinds[j] == front[j];
        }
      }
      assert 0 <= i < |kinds| && kinds[i] == Directive(LastDirectiveOf(kinds).value);
    } else {
      assert kinds[n] == Directive(LastDirectiveOf(kinds).value);
    }
  }

  /** Appending readings keeps the earlier directive only if the new ones
      have none. */
  lemma {:induction false} LastDirectiveAppend(a: seq<LineKind>, b: seq<LineKind>)
    ensures LastDirectiveOf(a + b) == if LastDirectiveOf(b).Some? then LastDirectiveOf(b) else LastDirectiveOf(a)
  {
    if b == [] {
      assert a + b == a;
    } else {
      var n := |b| - 1;
      assert (a + b)[..|a + b| - 1] == a + b[..n];
      assert (a + b)[|a + b| - 1] == b[n];
      LastDirectiveAppend(a, b[..n]);
    }
  }

  /** The playlist name of a file: `None` when no line is a directive, and
      otherwise the name set by a directive line with no directive line
      after it. */
  lemma LastDirectiveLines(lines: seq<string>)
    ensures LastDirective(lines) == None <==> forall i :: 0 <= i < |lines| ==> !Classify(lines[i]).Directive?
    ensures LastDirective(lines).Some? ==>
              exists i :: 0 <= i < |lines| && Classify(lines[i]) == Directive(LastDirective(lines).value)
                          && forall j :: i < j < |lines| ==> !Classify(lines[j]).Directive?
  {
    var kinds := Kinds(lines);
    assert forall i :: 0 <= i < |lines| ==> kinds[i] == Classify(lines[i]);
    LastDirectiveNone(kinds);
    if LastDirective(lines).Some? {
      LastDirectiveSome(kinds);
      var i :| 0 <= i < |kinds| && kinds[i] == Directive(LastDirectiveOf(kinds).value)
               && forall j :: i < j < |kinds| ==> !kinds[j].Directive?;
      assert Classify(lines[i]) == Directive(LastDirective(lines).value);
    }
  }

  /** The directives of later lines override those of earlier ones. */
  lemma LastDirectiveLinesAppend(a: seq<string>, b: seq<string>)
    ensures LastDirective(a + b) == if LastDirective(b).Some? then LastDirective(b) else LastDirective(a)
  {
    KindsAppend(a, b);
    LastDirectiveAppend(Kinds(a), Kinds(b));
  }
}
