/**
 * The local leaderboard: entries (name, score), kept sorted by score,
 * highest first, ties in order of saving, at most ten of them.
 */
module Leaderboard {
  import opened Seqs

  datatype Entry = Entry(name: string, score: nat)

  /** How many entries the board keeps. */
  const Capacity: nat := 10

  predicate SortedDesc(b: seq<Entry>)
  {
    forall i, j :: 0 <= i < j < |b| ==> b[i].score >= b[j].score
  }

  /**
   * Places e after every leading entry that scores at least as much as e:
   * one step of a stable insertion sort, highest score first.
   */
  function Insert(b: seq<Entry>, e: Entry): (r: seq<Entry>)
    ensures |r| == |b| + 1
  {
    if b == [] then [e]
    else if b[0].score >= e.score then [b[0]] + Insert(b[1..], e)
    else [e] + b
  }

  /**
   * Reference definition of Python's `list.sort(key=score, reverse=True)`:
   * insert the elements one by one, from the left.
   */
  function StableSortDesc(s: seq<Entry>): (r: seq<Entry>)
    ensures |r| == |s|
    decreases |s|
  {
    if s == [] then [] else Insert(StableSortDesc(s[..|s| - 1]), s[|s| - 1])
  }

  /** The entries that have score k, in their order. */
  function WithScore(b: seq<Entry>, k: nat): seq<Entry>
  {
    if b == [] then []
    else (if b[0].score == k then [b[0]] else []) + WithScore(b[1..], k)
  }

  /** Number of entries that score at least `score`. */
  function Rank(b: seq<Entry>, score: nat): nat
  {
    if b == [] then 0
    else (if b[0].score >= score then 1 else 0) + Rank(b[1..], score)
  }

  /** The board after saving e: append, stable sort by score descending, keep the top ten. */
  function SavedBoard(b: seq<Entry>, e: Entry): (r: seq<Entry>)
    ensures |r| <= Capacity
    ensures |r| == Min(|b| + 1, Capacity)
  {
    Take(StableSortDesc(b + [e]), Capacity)
  }

  // ---------- Insert ----------

  lemma {:induction false} InsertMultiset(b: seq<Entry>, e: Entry)
    ensures |Insert(b, e)| == |b| + 1
    ensures multiset(Insert(b, e)) == multiset(b) + multiset{e}
  {
    if b != [] {
      assert b == [b[0]] + b[1..];
      if b[0].score >= e.score {
        InsertMultiset(b[1..], e);
      }
    }
  }

  /** A sorted board stays sorted under a head that scores at least as much as all of it. */
  lemma ConsSorted(h: Entry, r: seq<Entry>)
    requires SortedDesc(r)
    requires forall i :: 0 <= i < |r| ==> r[i].score <= h.score
    ensures SortedDesc([h] + r)
  {
    var ins := [h] + r;
    forall i, j | 0 <= i < j < |ins| ensures ins[i].score >= ins[j].score {
      assert ins[j] == r[j - 1];
      if i > 0 {
        assert ins[i] == r[i - 1];
      }
    }
  }

  /** Insertion never brings in a score above a common bound. */
  lemma {:induction false} InsertBounded(b: seq<Entry>, e: Entry, m: nat)
    requires forall i :: 0 <= i < |b| ==> b[i].score <= m
    requires e.score <= m
    ensures forall i :: 0 <= i < |Insert(b, e)| ==> Insert(b, e)[i].score <= m
  {
    if b != [] && b[0].score >= e.score {
      var t := b[1..];
      assert forall i :: 0 <= i < |t| ==> t[i] == b[i + 1];
      InsertBounded(t, e, m);
      var ins := [b[0]] + Insert(t, e);
      assert Insert(b, e) == ins;
      assert forall i :: 0 < i < |ins| ==> ins[i] == Insert(t, e)[i - 1];
    }
  }

  lemma {:induction false} InsertSorted(b: seq<Entry>, e: Entry)
    requires SortedDesc(b)
    ensures SortedDesc(Insert(b, e))
  {
    if b == [] {
    } else if b[0].score >= e.score {
      var t := b[1..];
      assert SortedDesc(t);
      assert forall i :: 0 <= i < |t| ==> t[i] == b[i + 1];
      InsertSorted(t, e);
      InsertBounded(t, e, b[0].score);
      ConsSorted(b[0], Insert(t, e));
      assert Insert(b, e) == [b[0]] + Insert(t, e);
    } else {
      assert forall i :: 0 <= i < |b| ==> b[i].score <= b[0].score;
      ConsSorted(e, b);
    }
  }

  /** An entry no better than all others goes last. */
  lemma {:induction false} InsertAfterAll(b: seq<Entry>, e: Entry)
    requires forall x :: x in b ==> x.score >= e.score
    ensures Insert(b, e) == b + [e]
  {
    if b != [] {
      assert forall x :: x in b[1..] ==> x in b;
      InsertAfterAll(b[1..], e);
      assert b == [b[0]] + b[1..];
    }
  }

  /** Nobody scores at least `score` when everybody scores less. */
  lemma {:induction false} RankNone(b: seq<Entry>, score: nat)
    requires forall x :: x in b ==> x.score < score
    ensures Rank(b, score) == 0
  {
    if b != [] {
      assert forall x :: x in b[1..] ==> x in b;
      RankNone(b[1..], score);
    }
  }

  /**
   * On a sorted board the newcomer lands right after the entries that score
   * at least as much: existing entries win ties.
   */
  lemma {:induction false} InsertAtRank(b: seq<Entry>, e: Entry)
    requires SortedDesc(b)
    ensures Rank(b, e.score) <= |b|
    ensures Insert(b, e) == b[..Rank(b, e.score)] + [e] + b[Rank(b, e.score)..]
  {
    if b != [] {
      var t := b[1..];
      assert SortedDesc(t);
      InsertAtRank(t, e);
      var k := Rank(t, e.score);
      if b[0].score >= e.score {
        assert b[..k + 1] == [b[0]] + t[..k];
        assert b[k + 1..] == t[k..];
      } else {
        forall x | x in b ensures x.score < e.score {
          var i :| 0 <= i < |b| && b[i] == x;
          assert b[i].score <= b[0].score;
        }
        RankNone(b, e.score);
      }
    }
  }

  // ---------- the sort ----------

  lemma {:induction false} StableSortDescPermutes(s: seq<Entry>)
    ensures multiset(StableSortDesc(s)) == multiset(s)
    decreases |s|
  {
    if s != [] {
      var p, x := s[..|s| - 1], s[|s| - 1];
      var sorted := StableSortDesc(p);
      assert s == p + [x];
      calc {
        multiset(StableSortDesc(s));
        multiset(Insert(sorted, x));
        { InsertMultiset(sorted, x); }
        multiset(sorted) + multiset{x};
        { StableSortDescPermutes(p); }
        multiset(p) + multiset{x};
        multiset(p + [x]);
      }
    }
  }

  lemma {:induction false} StableSortDescOrdered(s: seq<Entry>)
    ensures SortedDesc(StableSortDesc(s))
    decreases |s|
  {
    if s != [] {
      var p, x := s[..|s| - 1], s[|s| - 1];
      assert StableSortDesc(s) == Insert(StableSortDesc(p), x);
      StableSortDescOrdered(p);
      InsertSorted(StableSortDesc(p), x);
    }
  }

  /** The reference sort orders by score, highest first, and only rearranges. */
  lemma StableSortDescSorted(s: seq<Entry>)
    ensures SortedDesc(StableSortDesc(s))
    ensures multiset(StableSortDesc(s)) == multiset(s)
  {
    StableSortDescOrdered(s);
    StableSortDescPermutes(s);
  }

  lemma {:induction false} WithScoreAppend(a: seq<Entry>, b: seq<Entry>, k: nat)
    ensures WithScore(a + b, k) == WithScore(a, k) + WithScore(b, k)
  {
    if a == [] {
      assert a + b == b;
    } else {
      var head := if a[0].score == k then [a[0]] else [];
      assert (a + b)[0] == a[0] && (a + b)[1..] == a[1..] + b;
      assert WithScore(a + b, k) == head + WithScore(a[1..] + b, k);
      WithScoreAppend(a[1..], b, k);
    }
  }

  lemma {:induction false} WithScoreNone(b: seq<Entry>, k: nat)
    requires forall x :: x in b ==> x.score < k
    ensures WithScore(b, k) == []
  {
    if b != [] {
      assert forall x :: x in b[1..] ==> x in b;
      WithScoreNone(b[1..], k);
    }
  }

  lemma {:induction false} WithScoreMember(b: seq<Entry>, k: nat, x: Entry)
    requires x in WithScore(b, k)
    ensures x in b && x.score == k
  {
    if b != [] && x in WithScore(b[1..], k) {
      WithScoreMember(b[1..], k, x);
    }
  }

  lemma WithScoreSingle(x: Entry, k: nat)
    ensures WithScore([x], k) == if x.score == k then [x] else []
  {
  }

  /** Inserting into a sorted board puts e after the entries with its score. */
  lemma {:induction false} InsertWithScore(b: seq<Entry>, e: Entry, k: nat)
    requires SortedDesc(b)
    ensures WithScore(Insert(b, e), k) == WithScore(b, k) + (if e.score == k then [e] else [])
  {
    if b == [] {
      WithScoreSingle(e, k);
    } else if b[0].score >= e.score {
      var t := b[1..];
      assert SortedDesc(t);
      InsertWithScore(t, e, k);
      var r := Insert(t, e);
      var head := if b[0].score == k then [b[0]] else [];
      assert Insert(b, e) == [b[0]] + r;
      assert ([b[0]] + r)[1..] == r;
      assert WithScore([b[0]] + r, k) == head + WithScore(r, k);
      assert WithScore(b, k) == head + WithScore(t, k);
    } else {
      assert ([e] + b)[1..] == b;
      if e.score == k {
        forall x | x in b ensures x.score < k {
          var i :| 0 <= i < |b| && b[i] == x;
          assert b[i].score <= b[0].score;
        }
        WithScoreNone(b, k);
      }
    }
  }

  /** Stability: the entries of any one score keep their relative order. */
  lemma {:induction false} StableSortDescStable(s: seq<Entry>, k: nat)
    ensures WithScore(StableSortDesc(s), k) == WithScore(s, k)
    decreases |s|
  {
    if s != [] {
      var p, x := s[..|s| - 1], s[|s| - 1];
      calc {
        WithScore(StableSortDesc(s), k);
        WithScore(Insert(StableSortDesc(p), x), k);
        { StableSortDescSorted(p); InsertWithScore(StableSortDesc(p), x, k); }
        WithScore(StableSortDesc(p), k) + (if x.score == k then [x] else []);
        { StableSortDescStable(p, k); WithScoreSingle(x, k); }
        WithScore(p, k) + WithScore([x], k);
        { WithScoreAppend(p, [x], k); assert s == p + [x]; }
        WithScore(s, k);
      }
    }
  }

  /**
   * A sorted sequence is determined by its per-score subsequences: two sorted
   * sequences that agree on every score are equal.
   */
  lemma {:induction false} SortedStableUnique(r1: seq<Entry>, r2: seq<Entry>)
    requires SortedDesc(r1) && SortedDesc(r2)
    requires forall k: nat :: WithScore(r1, k) == WithScore(r2, k)
    ensures r1 == r2
    decreases |r1| + |r2|
  {
    if r1 == [] || r2 == [] {
      if r1 != [] {
        assert r1[0] in WithScore(r1, r1[0].score);
        assert false;
      } else if r2 != [] {
        assert r2[0] in WithScore(r2, r2[0].score);
        assert false;
      }
    } else {
      var a, b := r1[0], r2[0];
      if a.score > b.score {
        assert a in WithScore(r1, a.score);
        var x := WithScore(r2, a.score)[0];
        WithScoreMember(r2, a.score, x);
        assert false;
      } else if a.score < b.score {
        assert b in WithScore(r2, b.score);
        var x := WithScore(r1, b.score)[0];
        WithScoreMember(r1, b.score, x);
        assert false;
      }
      assert a.score == b.score;
      var t1, t2 := r1[1..], r2[1..];
      forall k: nat ensures WithScore(t1, k) == WithScore(t2, k) {
        assert WithScore(r1, k) == WithScore(r2, k);
        if k == a.score {
          assert WithScore(r1, k) == [a] + WithScore(t1, k);
          assert WithScore(r2, k) == [b] + WithScore(t2, k);
          assert WithScore(r1, k)[1..] == WithScore(t1, k);
          assert WithScore(r2, k)[1..] == WithScore(t2, k);
        } else {
          assert WithScore(r1, k) == WithScore(t1, k);
          assert WithScore(r2, k) == WithScore(t2, k);
        }
      }
      assert WithScore(r1, a.score)[0] == a && WithScore(r2, a.score)[0] == b;
      assert SortedDesc(t1) && SortedDesc(t2);
      SortedStableUnique(t1, t2);
      assert r1 == [a] + t1 && r2 == [b] + t2;
    }
  }

  /**
   * The reference sort is exactly the stable descending sort: r is
   * StableSortDesc(s) iff r is sorted, highest first, and keeps the order of
   * the entries of each score.
   */
  lemma StableSortDescCharacterized(s: seq<Entry>, r: seq<Entry>)
    ensures r == StableSortDesc(s) ==> SortedDesc(r) && forall k: nat :: WithScore(r, k) == WithScore(s, k)
    ensures SortedDesc(r) && (forall k: nat :: WithScore(r, k) == WithScore(s, k)) ==> r == StableSortDesc(s)
  {
    var sorted := StableSortDesc(s);
    StableSortDescSorted(s);
    forall k: nat ensures WithScore(sorted, k) == WithScore(s, k) {
      StableSortDescStable(s, k);
    }
    if SortedDesc(r) && forall k: nat :: WithScore(r, k) == WithScore(s, k) {
      assert forall k: nat :: WithScore(r, k) == WithScore(sorted, k);
      SortedStableUnique(r, sorted);
    }
  }

  /** Sorting an already sorted board changes nothing. */
  lemma {:induction false} SortedIsFixpoint(b: seq<Entry>)
    requires SortedDesc(b)
    ensures StableSortDesc(b) == b
    decreases |b|
  {
    if b != [] {
      var p, x := b[..|b| - 1], b[|b| - 1];
      assert SortedDesc(p);
      SortedIsFixpoint(p);
      forall y | y in p ensures y.score >= x.score {
        var i :| 0 <= i < |p| && p[i] == y;
        assert b[i] == y;
      }
      InsertAfterAll(p, x);
    }
  }

  /** Sorting a sorted board with one entry appended is inserting that entry. */
  lemma SortAppendedIsInsert(b: seq<Entry>, e: Entry)
    requires SortedDesc(b)
    ensures StableSortDesc(b + [e]) == Insert(b, e)
  {
    assert (b + [e])[..|b|] == b;
    SortedIsFixpoint(b);
  }

  // ---------- saving a score ----------

  /** A saved board is sorted, highest first, and holds min(|b| + 1, 10) entries. */
  lemma SavedBoardShape(b: seq<Entry>, e: Entry)
    ensures SortedDesc(SavedBoard(b, e))
    ensures |SavedBoard(b, e)| == Min(|b| + 1, Capacity)
  {
    StableSortDescSorted(b + [e]);
    assert |multiset(StableSortDesc(b + [e]))| == |b + [e]|;
  }

  /**
   * Saving into a sorted board: the newcomer is kept, at position Rank,
   * exactly when fewer than ten entries score at least as much; otherwise
   * the board is its old top ten.
   */
  lemma SavedBoardNewcomer(b: seq<Entry>, e: Entry)
    requires SortedDesc(b)
    ensures Rank(b, e.score) <= |b|
    ensures SavedBoard(b, e) == Take(b[..Rank(b, e.score)] + [e] + b[Rank(b, e.score)..], Capacity)
    ensures Rank(b, e.score) < Capacity ==>
              Rank(b, e.score) < |SavedBoard(b, e)| && SavedBoard(b, e)[Rank(b, e.score)] == e
    ensures Rank(b, e.score) >= Capacity ==> SavedBoard(b, e) == Take(b, Capacity)
  {
    SortAppendedIsInsert(b, e);
    InsertAtRank(b, e);
    var k := Rank(b, e.score);
    var r := b[..k] + [e] + b[k..];
    if k < Capacity {
      assert r[k] == e;
    } else {
      assert r[..Capacity] == b[..Capacity];
    }
  }
}
