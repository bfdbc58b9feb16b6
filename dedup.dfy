/** Removing repeated track IDs while keeping each at its first occurrence
    (QuickShuffleMaker.py:144-150): a `seen` set and an output list. */
module Dedup {
  import opened Common

  /** No ID occurs twice. */
  predicate NoDuplicates(s: seq<TrackId>) {
    forall i, j :: 0 <= i < j < |s| ==> s[i] != s[j]
  }

  /** The position of the first occurrence of `x` in `s`. */
  function IndexOf(s: seq<TrackId>, x: TrackId): (i: nat)
    requires x in s
    ensures i < |s| && s[i] == x && x !in s[..i]
  {
    if s[0] == x then 0 else 1 + IndexOf(s[1..], x)
  }

  /** The first occurrences of `s`, in order: an element is kept unless it
      already occurs earlier. */
  function FirstOccurrences(s: seq<TrackId>): (r: seq<TrackId>)
    ensures NoDuplicates(r)
    ensures forall x :: x in r <==> x in s
  {
    if s == [] then []
    else
      var n := |s| - 1;
      var r := FirstOccurrences(s[..n]);
      assert forall x :: x in s <==> x in s[..n] || x == s[n];
      if s[n] in s[..n] then r else r + [s[n]]
  }

  /** The loop of `main` that builds `unique_tracks`. */
  method RemoveDuplicates(trackIds: seq<TrackId>) returns (unique: seq<TrackId>)
    ensures unique == FirstOccurrences(trackIds)
    ensures NoDuplicates(unique)
    ensures forall x :: x in unique <==> x in trackIds
  {
    var seen: set<TrackId> := {};
    unique := [];
    for i := 0 to |trackIds|
      invariant unique == FirstOccurrences(trackIds[..i])
      invariant forall x :: x in seen <==> x in trackIds[..i]
    {
      var t := trackIds[i];
      assert trackIds[..i + 1][..i] == trackIds[..i];
      if t !in seen {
        seen := seen + {t};
        unique := unique + [t];
      }
    }
    assert trackIds[..|trackIds|] == trackIds;
  }

  /** Deduplication never lengthens the list. */
  lemma {:induction false} FirstOccurrencesLength(s: seq<TrackId>)
    ensures |FirstOccurrences(s)| <= |s|
  {
    if s != [] {
      FirstOccurrencesLength(s[..|s| - 1]);
    }
  }

  /** A list that has no repeats comes back unchanged. */
  lemma {:induction false} FirstOccurrencesOfUnique(s: seq<TrackId>)
    requires NoDuplicates(s)
    ensures FirstOccurrences(s) == s
  {
    if s != [] {
      var n := |s| - 1;
      FirstOccurrencesOfUnique(s[..n]);
      assert s[..n] + [s[n]] == s;
    }
  }

  /** A first occurrence in a prefix is the first occurrence in the whole. */
  lemma IndexOfPrefix(s: seq<TrackId>, n: nat, x: TrackId)
    requires n <= |s| && x in s[..n]
    ensures IndexOf(s, x) == IndexOf(s[..n], x)
  {
    var j := IndexOf(s[..n], x);
    assert s[..n][j] == s[j] && s[..n][..j] == s[..j];
  }

  /** `r` holds elements of `s` in the order of their first occurrences. */
  predicate InFirstOccurrenceOrder(s: seq<TrackId>, r: seq<TrackId>) {
    (forall k :: 0 <= k < |r| ==> r[k] in s) &&
    forall i, j :: 0 <= i < j < |r| ==> IndexOf(s, r[i]) < IndexOf(s, r[j])
  }

  /** The kept IDs stand in the order of their first occurrences, so the
      result is the subsequence of `s` made of the first occurrences. */
  lemma {:induction false} FirstOccurrencesOrder(s: seq<TrackId>)
    ensures InFirstOccurrenceOrder(s, FirstOccurrences(s))
  {
    if s != [] {
      var n := |s| - 1;
      var p := FirstOccurrences(s[..n]);
      FirstOccurrencesOrder(s[..n]);
      if s[n] !in s[..n] {
        var r := p + [s[n]];
        assert r == FirstOccurrences(s);
        assert IndexOf(s, s[n]) == n by {
          assert s[..IndexOf(s, s[n])] == s[..n][..IndexOf(s, s[n])];
        }
        forall i, j | 0 <= i < j < |r| ensures IndexOf(s, r[i]) < IndexOf(s, r[j]) {
          assert r[i] == p[i] && p[i] in p;
          IndexOfPrefix(s, n, p[i]);
          if j < |p| {
            assert r[j] == p[j] && p[j] in p;
            IndexOfPrefix(s, n, p[j]);
            assert IndexOf(s[..n], p[i]) < IndexOf(s[..n], p[j]);
          }
        }
      } else {
        assert p == FirstOccurrences(s);
        forall i, j | 0 <= i < j < |p| ensures IndexOf(s, p[i]) < IndexOf(s, p[j]) {
          assert p[i] in p && p[j] in p;
          IndexOfPrefix(s, n, p[i]);
          IndexOfPrefix(s, n, p[j]);
          assert IndexOf(s[..n], p[i]) < IndexOf(s[..n], p[j]);
        }
      }
    }
  }

  /** `r` is a deduplication of `s`: repeat-free, the same IDs, in the
      order of their first occurrences. */
  ghost predicate Deduplicates(s: seq<TrackId>, r: seq<TrackId>) {
    && NoDuplicates(r)
    && (forall x :: x in r <==> x in s)
    && InFirstOccurrenceOrder(s, r)
  }

  /** If the last ID of `s` also occurs earlier, a deduplication of `s` is
      one of `s` without its last ID. */
  lemma DeduplicatesRepeatedLast(s: seq<TrackId>, r: seq<TrackId>)
    requires Deduplicates(s, r) && s != [] && s[|s| - 1] in s[..|s| - 1]
    ensures Deduplicates(s[..|s| - 1], r)
  {
    var n := |s| - 1;
    assert forall y :: y in s <==> y in s[..n] || y == s[n];
    forall k | 0 <= k < |r| ensures r[k] in s[..n] && IndexOf(s, r[k]) == IndexOf(s[..n], r[k]) {
      assert r[k] in r;
      IndexOfPrefix(s, n, r[k]);
    }
  }

  /** A new last ID of `s` has its first occurrence at the end. */
  lemma IndexOfNewLast(s: seq<TrackId>)
    requires s != [] && s[|s| - 1] !in s[..|s| - 1]
    ensures IndexOf(s, s[|s| - 1]) == |s| - 1
  {
    var i := IndexOf(s, s[|s| - 1]);
    assert s[..i] == s[..|s| - 1][..i];
  }

  /** If the last ID of `s` is new, it ends every deduplication of `s`. */
  lemma DeduplicatesEndsWithNew(s: seq<TrackId>, r: seq<TrackId>)
    requires Deduplicates(s, r) && s != [] && s[|s| - 1] !in s[..|s| - 1]
    ensures r != [] && r[|r| - 1] == s[|s| - 1]
  {
    var n := |s| - 1;
    assert s[n] in r;
    var p :| 0 <= p < |r| && r[p] == s[n];
    IndexOfNewLast(s);
    var last := |r| - 1;
    assert r[last] in s;
    assert IndexOf(s, r[last]) <= n;
    assert IndexOf(s, r[p]) <= IndexOf(s, r[last]);
    assert r[last] == s[n];
  }

  /** If the last ID of `s` is new, what stands before it in a
      deduplication of `s` is a deduplication of the rest of `s`. */
  lemma DeduplicatesNewLast(s: seq<TrackId>, r: seq<TrackId>)
    requires Deduplicates(s, r) && s != [] && s[|s| - 1] !in s[..|s| - 1]
    ensures r != [] && r[|r| - 1] == s[|s| - 1]
    ensures Deduplicates(s[..|s| - 1], r[..|r| - 1])
  {
    DeduplicatesEndsWithNew(s, r);
    var n := |s| - 1;
    var front := s[..n];
    var q := r[..|r| - 1];
    assert r == q + [s[n]];
    assert forall y :: y in s <==> y in front || y == s[n];
    assert s[n] !in q;
    forall k | 0 <= k < |q| ensures q[k] in front && IndexOf(s, q[k]) == IndexOf(front, q[k]) {
      assert q[k] in r && q[k] in q;
      IndexOfPrefix(s, n, q[k]);
    }
  }

  /** The three properties determine the result: any deduplication of `s`
      is `FirstOccurrences(s)`. */
  lemma {:induction false} FirstOccurrencesUnique(s: seq<TrackId>, r: seq<TrackId>)
    requires Deduplicates(s, r)
    ensures r == FirstOccurrences(s)
  {
    assert r == [] || r[0] in r;
    if s != [] {
      var n := |s| - 1;
      if s[n] in s[..n] {
        DeduplicatesRepeatedLast(s, r);
        FirstOccurrencesUnique(s[..n], r);
      } else {
        DeduplicatesNewLast(s, r);
        FirstOccurrencesUnique(s[..n], r[..|r| - 1]);
        assert r == r[..|r| - 1] + [s[n]];
      }
    }
  }
}
