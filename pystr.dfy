/** The built-in `str` operations of Python 3 that the program relies on:
    `strip()`, `lstrip(ch)`, `split(sep)`, `split(sep, 1)` and
    `lower().startswith(prefix)`. */
module PyStr {

  /** `c.isspace()`: the characters Python's `str.strip()` removes when given
      no argument (Unicode whitespace, bidirectional classes WS, B and S). */
  predicate IsSpace(c: char) {
    || ('\t' <= c <= '\r')
    || ('\U{1C}' <= c <= '\U{1F}')
    || c == ' ' || c == '\U{85}' || c == '\U{A0}' || c == '\U{1680}'
    || ('\U{2000}' <= c <= '\U{200A}')
    || c == '\U{2028}' || c == '\U{2029}' || c == '\U{202F}' || c == '\U{205F}'
    || c == '\U{3000}'
  }

  /** Every character of `s` is whitespace. */
  predicate AllSpace(s: string) {
    forall k :: 0 <= k < |s| ==> IsSpace(s[k])
  }

  /** Neither end of `s` is whitespace (what `strip()` guarantees). */
  predicate IsStripped(s: string) {
    s == [] || (!IsSpace(s[0]) && !IsSpace(s[|s| - 1]))
  }

  /** `s.lstrip()`: drops the leading whitespace. */
  function LStrip(s: string): string {
    if s != [] && IsSpace(s[0]) then LStrip(s[1..]) else s
  }

  /** `lstrip()` drops a run of whitespace from the front and nothing else. */
  lemma {:induction false} LStripDrops(s: string)
    ensures |LStrip(s)| <= |s| && LStrip(s) == s[|s| - |LStrip(s)|..]
    ensures AllSpace(s[..|s| - |LStrip(s)|])
    ensures LStrip(s) == [] || !IsSpace(LStrip(s)[0])
  {
    if s != [] && IsSpace(s[0]) {
      LStripDrops(s[1..]);
      assert s[1..][..|s| - 1 - |LStrip(s)|] == s[1..|s| - |LStrip(s)|];
    }
  }

  /** `s.rstrip()`: drops the trailing whitespace. */
  function RStrip(s: string): string {
    if s != [] && IsSpace(s[|s| - 1]) then RStrip(s[..|s| - 1]) else s
  }

  /** `rstrip()` drops a run of whitespace from the back and nothing else. */
  lemma {:induction false} RStripDrops(s: string)
    ensures |RStrip(s)| <= |s| && RStrip(s) == s[..|RStrip(s)|]
    ensures AllSpace(s[|RStrip(s)|..])
    ensures RStrip(s) == [] || !IsSpace(RStrip(s)[|RStrip(s)| - 1])
  {
    if s != [] && IsSpace(s[|s| - 1]) {
      var t := s[..|s| - 1];
      RStripDrops(t);
      assert RStrip(s) == RStrip(t);
      var n := |RStrip(t)|;
      assert s[n..] == t[n..] + [s[|s| - 1]];
      forall k | 0 <= k < |s[n..]| ensures IsSpace(s[n..][k]) {
        if k < |t[n..]| {
          assert s[n..][k] == t[n..][k];
        }
      }
    }
  }

  /** `s.strip()`: whitespace at neither end. */
  function Strip(s: string): (r: string)
    ensures |r| <= |s|
    ensures IsStripped(r)
  {
    LStripDrops(s);
    RStripDrops(LStrip(s));
    RStrip(LStrip(s))
  }

  /** What `strip()` cuts off is whitespace, and what it keeps is the slice
      of `s` between those two runs. */
  lemma StripSlice(s: string)
    ensures |LStrip(s)| <= |s|
    ensures var i := |s| - |LStrip(s)|;
            i + |Strip(s)| <= |s| && Strip(s) == s[i..i + |Strip(s)|]
            && AllSpace(s[..i]) && AllSpace(s[i + |Strip(s)|..])
  {
    var l := LStrip(s);
    LStripDrops(s);
    RStripDrops(l);
    SpaceAround(s, l, RStrip(l));
  }

  /** A prefix `r` of a suffix `l` of `s` is the slice of `s` it looks like,
      with the same text on either side. */
  lemma SpaceAround(s: string, l: string, r: string)
    requires |l| <= |s| && l == s[|s| - |l|..]
    requires |r| <= |l| && r == l[..|r|]
    requires AllSpace(s[..|s| - |l|]) && AllSpace(l[|r|..])
    ensures var i := |s| - |l|;
            i + |r| <= |s| && r == s[i..i + |r|]
            && AllSpace(s[..i]) && AllSpace(s[i + |r|..])
  {
    var i := |s| - |l|;
    assert s[i..i + |r|] == l[..|r|];
    assert s[i + |r|..] == l[|r|..];
  }

  /** `strip()` leaves an already stripped string alone (it is idempotent). */
  lemma StripStripped(s: string)
    requires IsStripped(s)
    ensures Strip(s) == s
  {
    if s != [] {
      assert LStrip(s) == s;
    }
  }

  /** `lstrip()` of an all-whitespace string is empty. */
  lemma {:induction false} LStripAllSpace(w: string)
    requires AllSpace(w)
    ensures LStrip(w) == []
  {
    if w != [] {
      LStripAllSpace(w[1..]);
    }
  }

  /** Whitespace appended to a string survives `lstrip()` only behind a
      non-whitespace character. */
  lemma {:induction false} LStripAppendSpace(x: string, w: string)
    requires AllSpace(w)
    ensures LStrip(x + w) == if LStrip(x) == [] then [] else LStrip(x) + w
  {
    if x == [] {
      assert x + w == w;
      LStripAllSpace(w);
    } else if IsSpace(x[0]) {
      assert (x + w)[0] == x[0] && (x + w)[1..] == x[1..] + w;
      LStripAppendSpace(x[1..], w);
    } else {
      assert (x + w)[0] == x[0];
    }
  }

  /** `rstrip()` removes whitespace appended to a string. */
  lemma {:induction false} RStripAppendSpace(x: string, w: string)
    requires AllSpace(w)
    ensures RStrip(x + w) == RStrip(x)
  {
    if w != [] {
      var n := |w| - 1;
      assert (x + w)[|x + w| - 1] == w[n] && (x + w)[..|x + w| - 1] == x + w[..n];
      RStripAppendSpace(x, w[..n]);
    } else {
      assert x + w == x;
    }
  }

  /** `strip()` ignores whitespace appended to a string. */
  lemma StripAppendSpace(x: string, w: string)
    requires AllSpace(w)
    ensures Strip(x + w) == Strip(x)
  {
    LStripAppendSpace(x, w);
    if LStrip(x) != [] {
      RStripAppendSpace(LStrip(x), w);
    }
  }

  /** `s.lstrip(c)`: drops every leading copy of `c`. */
  function LStripChar(s: string, c: char): string {
    if s != [] && s[0] == c then LStripChar(s[1..], c) else s
  }

  /** `lstrip(c)` drops a run of `c` from the front and nothing else. */
  lemma {:induction false} LStripCharDrops(s: string, c: char)
    ensures |LStripChar(s, c)| <= |s| && LStripChar(s, c) == s[|s| - |LStripChar(s, c)|..]
    ensures forall k :: 0 <= k < |s| - |LStripChar(s, c)| ==> s[k] == c
    ensures LStripChar(s, c) == [] || LStripChar(s, c)[0] != c
  {
    if s != [] && s[0] == c {
      var t := LStripChar(s[1..], c);
      LStripCharDrops(s[1..], c);
      assert LStripChar(s, c) == t;
      assert s[1..][|s| - 1 - |t|..] == s[|s| - |t|..];
      forall k | 0 <= k < |s| - |t| ensures s[k] == c {
        if k > 0 {
          assert s[k] == s[1..][k - 1];
        }
      }
    }
  }

  /** `c.lower()` on ASCII letters. */
  function AsciiLower(c: char): char {
    if 'A' <= c <= 'Z' then (c as int + 32) as char else c
  }

  /** `s.lower().startswith(prefix)` for a prefix made of lower-case ASCII
      letters and punctuation, with no `k` and no `i` as its last character.
      For such a prefix, folding ASCII letters only is exact. The only
      non-ASCII characters whose lower case begins with an ASCII letter are
      the Kelvin sign, which becomes `k`, and dotted capital I, which becomes
      `i` and a combining dot. The first cannot match, because the prefix has
      no `k`. The second cannot, because an `i` in the prefix is followed by
      something other than a combining dot. `playlist:` is such a prefix. */
  predicate LowerStartsWith(s: string, prefix: string) {
    |prefix| <= |s| && FoldsTo(s, prefix)
  }

  /** The first `|prefix|` characters of `s` fold, one by one, to `prefix`. */
  predicate FoldsTo(s: string, prefix: string) {
    prefix == [] || (s != [] && AsciiLower(s[0]) == prefix[0] && FoldsTo(s[1..], prefix[1..]))
  }

  /** A string that literally starts with a prefix free of upper-case
      ASCII letters starts with it after folding too. */
  lemma {:induction false} LowerStartsWithLiteral(s: string, prefix: string)
    requires |prefix| <= |s| && s[..|prefix|] == prefix
    requires forall k :: 0 <= k < |prefix| ==> !('A' <= prefix[k] <= 'Z')
    ensures LowerStartsWith(s, prefix)
  {
    if prefix != [] {
      assert s[1..][..|prefix| - 1] == prefix[1..];
      LowerStartsWithLiteral(s[1..], prefix[1..]);
      assert s[0] == prefix[0];
    }
  }

  /** Each of the first characters of a string folds to the prefix's. */
  lemma {:induction false} LowerStartsWithAt(s: string, prefix: string, k: nat)
    requires LowerStartsWith(s, prefix) && k < |prefix|
    ensures AsciiLower(s[k]) == prefix[k]
  {
    if k > 0 {
      LowerStartsWithAt(s[1..], prefix[1..], k - 1);
    }
  }

  /** `s.split(sep, 1)[1]`: the text after the first `sep`. Python raises
      `IndexError` when `sep` is absent, so the caller must know it is there. */
  function AfterFirst(s: string, sep: char): string
    requires sep in s
  {
    if s[0] == sep then s[1..] else AfterFirst(s[1..], sep)
  }

  /** `split(sep, 1)[1]` is the suffix behind the first `sep`. */
  lemma {:induction false} AfterFirstSuffix(s: string, sep: char)
    requires sep in s
    ensures var r := AfterFirst(s, sep);
            |r| < |s| && r == s[|s| - |r|..] && s[|s| - |r| - 1] == sep && sep !in s[..|s| - |r| - 1]
  {
    if s[0] != sep {
      AfterFirstSuffix(s[1..], sep);
      var r := AfterFirst(s, sep);
      assert s[..|s| - |r| - 1] == [s[0]] + s[1..][..|s| - 1 - |r| - 1];
    }
  }

  /** `s.split(sep)`: the pieces between separators, empty pieces included,
      so there is always one more piece than there are separators. */
  function Split(s: string, sep: char): (r: seq<string>)
    ensures |r| >= 1
    ensures forall k :: 0 <= k < |r| ==> sep !in r[k]
  {
    if s == [] then [[]]
    else if s[0] == sep then [[]] + Split(s[1..], sep)
    else
      var rest := Split(s[1..], sep);
      [[s[0]] + rest[0]] + rest[1..]
  }

  /** `sep.join(pieces)`. */
  function Join(pieces: seq<string>, sep: char): string
    requires |pieces| >= 1
  {
    if |pieces| == 1 then pieces[0] else pieces[0] + [sep] + Join(pieces[1..], sep)
  }

  /** Joining the pieces of a split restores the string. */
  lemma {:induction false} JoinSplit(s: string, sep: char)
    ensures Join(Split(s, sep), sep) == s
  {
    if s == [] {
    } else if s[0] == sep {
      JoinSplit(s[1..], sep);
      assert s == [sep] + s[1..];
    } else {
      JoinSplit(s[1..], sep);
      var rest := Split(s[1..], sep);
      if |rest| == 1 {
        assert s == [s[0]] + rest[0];
      } else {
        assert Join(rest, sep) == rest[0] + [sep] + Join(rest[1..], sep);
        assert s == [s[0]] + s[1..];
      }
    }
  }

  /** Splitting a join of separator-free pieces gives the pieces back. */
  lemma {:induction false} SplitJoin(pieces: seq<string>, sep: char)
    requires |pieces| >= 1
    requires forall k :: 0 <= k < |pieces| ==> sep !in pieces[k]
    ensures Split(Join(pieces, sep), sep) == pieces
    decreases |pieces|, |pieces[0]|
  {
    var p := pieces[0];
    if p == [] {
      if |pieces| > 1 {
        SplitJoin(pieces[1..], sep);
        var j := Join(pieces, sep);
        assert j == [sep] + Join(pieces[1..], sep);
        assert j[1..] == Join(pieces[1..], sep);
        assert pieces == [[]] + pieces[1..];
      }
    } else {
      var shorter := [p[1..]] + pieces[1..];
      assert forall k :: 1 <= k < |shorter| ==> shorter[k] == pieces[k];
      SplitJoin(shorter, sep);
      var j := Join(pieces, sep);
      if |pieces| == 1 {
        assert j == [p[0]] + Join(shorter, sep);
      } else {
        assert Join(shorter, sep) == p[1..] + [sep] + Join(pieces[1..], sep);
        assert j == [p[0]] + Join(shorter, sep);
      }
      assert j[0] == p[0] && j[1..] == Join(shorter, sep);
      assert [p[0]] + p[1..] == p;
      assert pieces == [p] + pieces[1..];
    }
  }
}
