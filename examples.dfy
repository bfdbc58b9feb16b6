/** Worked examples of the behaviour the program documents. */
module Examples {
  import opened Common
  import opened PyStr
  import opened ArtistsFile
  import opened Dedup
  import opened Batching

  /** `[a, b, a, c, b]` deduplicates to `[a, b, c]`. */
  lemma DedupExample()
    ensures FirstOccurrences(["a", "b", "a", "c", "b"]) == ["a", "b", "c"]
  {
    var s: seq<TrackId> := ["a", "b", "a", "c", "b"];
    var r: seq<TrackId> := ["a", "b", "c"];
    assert IndexOf(s, "a") == 0;
    assert IndexOf(s, "b") == 1;
    assert IndexOf(s, "c") == 3 by {
      assert s[1..][1..][1..] == ["c", "b"];
    }
    FirstOccurrencesUnique(s, r);
  }

  /** 250 tracks go out in three additions of 100, 100 and 50. */
  lemma BatchExample(s: seq<TrackId>)
    requires |s| == 250
    ensures |Chunks(s)| == 3
    ensures |Chunks(s)[0]| == 100 && |Chunks(s)[1]| == 100 && |Chunks(s)[2]| == 50
  {
    ChunkIsSlice(s, 2);
  }

  /** `strip()` leaves the comment line alone. */
  lemma StripCommentLine()
    ensures Strip("# playlist: My Mix") == "# playlist: My Mix"
  {
    var line := "# playlist: My Mix";
    assert LStrip(line) == line;
    assert RStrip(line) == line;
  }

  /** `lstrip('#')` drops the one `#`. */
  lemma HashOfCommentLine()
    ensures LStripChar("# playlist: My Mix", '#') == " playlist: My Mix"
  {
    var line := "# playlist: My Mix";
    var rest := " playlist: My Mix";
    assert line[0] == '#' && line[1..] == rest;
    assert LStripChar(rest, '#') == rest;
  }

  /** `lstrip('#')` then `strip()` leave the directive text. */
  lemma DirectiveTextOfCommentLine()
    ensures LStripChar("# playlist: My Mix", '#') == " playlist: My Mix"
    ensures Strip(" playlist: My Mix") == "playlist: My Mix"
  {
    HashOfCommentLine();
    var rest := " playlist: My Mix";
    var text := "playlist: My Mix";
    assert rest[0] == ' ' && rest[1..] == text;
    assert LStrip(text) == text;
    assert LStrip(rest) == text;
    assert RStrip(text) == text;
  }

  /** `playlist: My Mix` starts with the tag. */
  lemma IsDirectiveExample()
    ensures IsDirective("playlist: My Mix")
  {
    var text := "playlist: My Mix";
    assert text[..9] == DirectiveTag;
    LowerStartsWithLiteral(text, DirectiveTag);
  }

  /** `playlist: My Mix` is a directive naming `My Mix`. */
  lemma DirectiveNameExample()
    ensures IsDirective("playlist: My Mix") && DirectiveName("playlist: My Mix") == "My Mix"
  {
    var text := "playlist: My Mix";
    IsDirectiveExample();
    DirectiveNameAfterTag(text);
    assert text[9..] == " My Mix";
    StripNameExample();
  }

  /** Stripping ` My Mix` removes only the leading space. */
  lemma StripNameExample()
    ensures Strip(" My Mix") == "My Mix"
  {
    assert LStrip(" My Mix") == "My Mix";
    assert RStrip("My Mix") == "My Mix";
  }

  /** `# playlist: My Mix` is a directive naming `My Mix`. */
  lemma CommentDirectiveExample()
    ensures Classify("# playlist: My Mix") == Directive("My Mix")
  {
    StripCommentLine();
    DirectiveTextOfCommentLine();
    DirectiveNameExample();
  }

  /** `# note` is a plain comment. */
  lemma PlainCommentExample()
    ensures Classify("# note") == Comment
  {
    assert LStripChar("# note", '#') == " note";
    assert Strip(" note") == "note";
  }

  /** Lines that are plain names are artist lines; an empty line is blank. */
  lemma ArtistLinesExample()
    ensures Classify("Eve") == Artist("Eve")
    ensures Classify("") == Blank
    ensures Classify("YOASOBI") == Artist("YOASOBI")
  {
    assert Strip("Eve") == "Eve" by {
      assert LStrip("Eve") == "Eve" && RStrip("Eve") == "Eve";
    }
    assert Strip("YOASOBI") == "YOASOBI" by {
      assert LStrip("YOASOBI") == "YOASOBI" && RStrip("YOASOBI") == "YOASOBI";
    }
  }

  /** Five lines are classified one by one. */
  lemma KindsOfFive(a: string, b: string, c: string, d: string, e: string)
    ensures Kinds([a, b, c, d, e]) == [Classify(a), Classify(b), Classify(c), Classify(d), Classify(e)]
  {
  }

  /** The example file's lines, classified one by one. */
  lemma KindsExample()
    ensures Kinds(["# playlist: My Mix", "Eve", "", "# note", "YOASOBI"])
         == [Directive("My Mix"), Artist("Eve"), Blank, Comment, Artist("YOASOBI")]
  {
    KindsOfFive("# playlist: My Mix", "Eve", "", "# note", "YOASOBI");
    CommentDirectiveExample();
    PlainCommentExample();
    ArtistLinesExample();
  }

  /** Only the artist lines contribute names. */
  lemma NamesOfExample()
    ensures NamesOf([Directive("My Mix"), Artist("Eve"), Blank, Comment, Artist("YOASOBI")]) == ["Eve", "YOASOBI"]
  {
    var kinds := [Directive("My Mix"), Artist("Eve"), Blank, Comment, Artist("YOASOBI")];
    assert NamesOf(kinds[4..]) == ["YOASOBI"] by {
      assert kinds[4..][1..] == [];
    }
    assert kinds[3..][1..] == kinds[4..];
    assert kinds[2..][1..] == kinds[3..];
    assert kinds[1..][1..] == kinds[2..];
  }

  /** The directive line names the playlist, though artist lines follow it. */
  lemma LastDirectiveOfExample()
    ensures LastDirectiveOf([Directive("My Mix"), Artist("Eve"), Blank, Comment, Artist("YOASOBI")]) == Some("My Mix")
  {
    var kinds := [Directive("My Mix"), Artist("Eve"), Blank, Comment, Artist("YOASOBI")];
    assert LastDirectiveOf(kinds[..1]) == Some("My Mix");
    assert LastDirectiveOf(kinds[..2]) == Some("My Mix") by {
      assert kinds[..2][..1] == kinds[..1];
    }
    assert LastDirectiveOf(kinds[..3]) == Some("My Mix") by {
      assert kinds[..3][..2] == kinds[..2];
    }
    assert LastDirectiveOf(kinds[..4]) == Some("My Mix") by {
      assert kinds[..4][..3] == kinds[..3];
    }
    assert kinds[..|kinds| - 1] == kinds[..4];
  }

  /** A file that names its playlist in a comment, with a blank line and a
      plain comment among its artists. */
  lemma FileExample()
    ensures ArtistNames(["# playlist: My Mix", "Eve", "", "# note", "YOASOBI"]) == ["Eve", "YOASOBI"]
    ensures LastDirective(["# playlist: My Mix", "Eve", "", "# note", "YOASOBI"]) == Some("My Mix")
  {
    KindsExample();
    NamesOfExample();
    LastDirectiveOfExample();
  }
}
