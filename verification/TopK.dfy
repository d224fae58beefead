/** The best rows seen. */
module TopK {
  import opened Ordering
  import opened RowOrder

  // ORDER BY ... LIMIT ... OFFSET: each task keeps a bounded max-heap of row candidates, the heaps are
  // merged into the reducer's heap, and the page of rows is cut from the sorted result.

  // ---------- keeping the best ----------

  function Min(a: nat, b: nat): nat {
    if a <= b then a else b
  }

  /** `worst` is a greatest candidate of the heap, which is what the heap's root is. */
  ghost predicate IsWorst(heap: multiset<Candidate>, worst: Candidate) {
    worst in heap && forall x :: x in heap ==> CandidateLe(x, worst)
  }

  lemma {:induction false} WorstExists(heap: multiset<Candidate>)
    requires heap != multiset{}
    ensures exists w :: IsWorst(heap, w)
    decreases |heap|
  {
    hide CandidateLe;
    CandidateTotalOrder();
    var x :| x in heap;
    var rest := heap - multiset{x};
    if rest == multiset{} {
      assert heap == multiset{x};
      assert IsWorst(heap, x);
    } else {
      WorstExists(rest);
      var w :| IsWorst(rest, w);
      var best := if CandidateLe(w, x) then x else w;
      forall y | y in heap ensures CandidateLe(y, best) {
        assert y == x || y in rest;
      }
      assert IsWorst(heap, best);
    }
  }

  ghost function Worst(heap: multiset<Candidate>): (w: Candidate)
    requires heap != multiset{}
    ensures IsWorst(heap, w)
  {
    WorstExists(heap);
    var w :| IsWorst(heap, w);
    w
  }

  /** Of a greatest candidate and another one, the greater is a greatest of both. */
  lemma GreaterOf(seen: multiset<Candidate>, worst: Candidate, c: Candidate)
    requires forall x :: x in seen ==> CandidateLe(x, worst)
    ensures
      var greater := if CandidateLe(worst, c) then c else worst;
      CandidateLe(c, greater) && forall x :: x in seen ==> CandidateLe(x, greater)
  {
    hide CandidateLe;
    CandidateTotalOrder();
  }

  /** There is only one greatest candidate. */
  lemma OneWorst(heap: multiset<Candidate>, worst: Candidate)
    requires IsWorst(heap, worst)
    ensures worst == Worst(heap)
  {
    hide CandidateLe;
    CandidateTotalOrder();
    assert IsWorst(heap, Worst(heap));
  }

  /** The heap after one candidate was considered. */
  ghost function Push(heap: multiset<Candidate>, c: Candidate, take: nat): multiset<Candidate> {
    if |heap| < take then heap + multiset{c}
    else if heap != multiset{} && CmpCandidate(c, Worst(heap)) == Less then heap - multiset{Worst(heap)} + multiset{c}
    else heap
  }

  ghost function PushAll(heap: multiset<Candidate>, cs: seq<Candidate>, take: nat): multiset<Candidate> {
    if cs == [] then heap else Push(PushAll(heap, cs[..|cs| - 1], take), cs[|cs| - 1], take)
  }

  /** `heap` is the `take` least candidates of `all`, or all of them. */
  ghost predicate IsTop(heap: multiset<Candidate>, all: multiset<Candidate>, take: nat) {
    && heap <= all
    && |heap| == Min(take, |all|)
    && forall x, y :: x in heap && y in all - heap ==> CandidateLe(x, y)
  }

  lemma AllKept(heap: multiset<Candidate>, all: multiset<Candidate>, take: nat)
    requires IsTop(heap, all, take) && |heap| < take
    ensures heap == all
  {
    hide CandidateLe;
    assert all == heap + (all - heap);
  }

  /** The worst candidate makes room for a better one. */
  lemma ReplaceWorst(heap: multiset<Candidate>, all: multiset<Candidate>, w: Candidate, c: Candidate, take: nat)
    requires IsTop(heap, all, take) && |heap| == take && IsWorst(heap, w) && CandidateLe(c, w)
    ensures IsTop(heap - multiset{w} + multiset{c}, all + multiset{c}, take)
  {
    hide CandidateLe;
    CandidateTotalOrder();
    var heap', all' := heap - multiset{w} + multiset{c}, all + multiset{c};
    assert all' - heap' == (all - heap) + multiset{w};
    forall x, y | x in heap' && y in all' - heap' ensures CandidateLe(x, y) {
      assert x in heap || x == c;
      assert CandidateLe(x, w);
      assert y in all - heap || y == w;
      if y in all - heap { assert CandidateLe(w, y); }
    }
  }

  /** A candidate that is no better than the worst is left out. */
  lemma LeaveOut(heap: multiset<Candidate>, all: multiset<Candidate>, w: Candidate, c: Candidate, take: nat)
    requires IsTop(heap, all, take) && |heap| == take && IsWorst(heap, w) && CandidateLe(w, c)
    ensures IsTop(heap, all + multiset{c}, take)
  {
    hide CandidateLe;
    CandidateTotalOrder();
    assert (all + multiset{c}) - heap == (all - heap) + multiset{c};
    forall x, y | x in heap && y in (all + multiset{c}) - heap ensures CandidateLe(x, y) {
      assert CandidateLe(x, w);
      assert y in all - heap || y == c;
    }
  }

  lemma PushKeepsTop(heap: multiset<Candidate>, all: multiset<Candidate>, c: Candidate, take: nat)
    requires IsTop(heap, all, take)
    ensures IsTop(Push(heap, c, take), all + multiset{c}, take)
  {
    hide CandidateLe, CmpCandidate;
    CandidateTotalOrder();
    if |heap| < take {
      AllKept(heap, all, take);
    } else if heap != multiset{} {
      var w := Worst(heap);
      CmpIsLe(c, w);
      if CmpCandidate(c, w) == Less { ReplaceWorst(heap, all, w, c, take); } else { LeaveOut(heap, all, w, c, take); }
    }
  }

  /** Being less is not being at least. */
  lemma CmpIsLe(a: Candidate, b: Candidate)
    ensures CmpCandidate(a, b) == Less <==> !CandidateLe(b, a)
  {
    hide CmpCandidate;
    CandidateLaws(a, b, a);
  }

  lemma {:induction false} PushAllKeepsTop(heap: multiset<Candidate>, all: multiset<Candidate>, cs: seq<Candidate>,
        take: nat)
    requires IsTop(heap, all, take)
    ensures IsTop(PushAll(heap, cs, take), all + multiset(cs), take)
    decreases |cs|
  {
    hide IsTop;
    if cs == [] {
      assert all + multiset(cs) == all;
    } else {
      var front, last := cs[..|cs| - 1], cs[|cs| - 1];
      assert cs == front + [last];
      PushAllKeepsTop(heap, all, front, take);
      PushKeepsTop(PushAll(heap, front, take), all + multiset(front), last, take);
      assert all + multiset(front) + multiset{last} == all + multiset(cs);
    }
  }

  // ---------- the best of two parts ----------

  /** The least candidates of two parts are found among the least of each part. */
  lemma MergeTop(a: multiset<Candidate>, m: multiset<Candidate>, b: multiset<Candidate>, n: multiset<Candidate>,
                 g: multiset<Candidate>, take: nat)
    requires IsTop(a, m, take) && IsTop(b, n, take) && IsTop(g, a + b, take)
    ensures IsTop(g, m + n, take)
  {
    hide CandidateLe;
    forall x, y | x in g && y in (m + n) - g ensures CandidateLe(x, y) {
      if y !in (a + b) - g {
        assert y in m - a || y in n - b;
        if y in m - a { LeftOver(a, m, b, g, take, x, y); }
        else {
          assert a + b == b + a;
          LeftOver(b, n, a, g, take, x, y);
        }
      }
    }
    TopSize(a, m, take);
    TopSize(b, n, take);
  }

  lemma TopSize(a: multiset<Candidate>, m: multiset<Candidate>, take: nat)
    requires IsTop(a, m, take)
    ensures |a| < take ==> a == m
  {
    if |a| < take {
      assert |m - a| == |m| - |a| == 0;
      assert m == a + (m - a);
    }
  }

  /** If the merged heap keeps a candidate worse than all of `a`, it keeps all of `a` as well. */
  lemma KeepsBetter(a: multiset<Candidate>, b: multiset<Candidate>, g: multiset<Candidate>, take: nat, x: Candidate)
    requires IsTop(g, a + b, take) && x in g
    requires forall z :: z in a ==> !CandidateLe(x, z)
    ensures |a| + 1 <= |g|
  {
    hide CandidateLe;
    CandidateTotalOrder();
    assert x !in a;
    forall z | z in a ensures a[z] <= g[z] {
      assert z in (a + b) - g <==> g[z] < a[z] + b[z];
    }
    assert a + multiset{x} <= g;
    assert g == (a + multiset{x}) + (g - (a + multiset{x}));
  }

  /** A candidate that its own part left out is not better than anything in the merged heap. */
  lemma LeftOver(a: multiset<Candidate>, m: multiset<Candidate>, b: multiset<Candidate>,
                 g: multiset<Candidate>, take: nat, x: Candidate, y: Candidate)
    requires IsTop(a, m, take) && IsTop(g, a + b, take)
    requires x in g && y in m - a
    ensures CandidateLe(x, y)
  {
    hide CandidateLe;
    CandidateTotalOrder();
    TopSize(a, m, take);
    if !CandidateLe(x, y) {
      KeepsBetter(a, b, g, take, x);
      assert false;
    }
  }

  // ---------- the sorted page ----------

  ghost function SortedRows(all: multiset<Candidate>): seq<Candidate> {
    CandidateTotalOrder();
    SortedSeq(CandidateLe, all)
  }

  /** Sorting a part that is no greater than the rest, and then the rest, sorts the whole. */
  lemma SortedParts<T(!new)>(le: (T, T) -> bool, part: multiset<T>, rest: multiset<T>)
    requires TotalOrder(le) && forall x, y :: x in part && y in rest ==> le(x, y)
    ensures SortedSeq(le, part + rest) == SortedSeq(le, part) + SortedSeq(le, rest)
  {
    hide SortedSeq;
    var front, back := SortedSeq(le, part), SortedSeq(le, rest);
    var both := front + back;
    forall i, j | 0 <= i < j < |both| ensures le(both[i], both[j]) {
      if i < |front| <= j {
        assert front[i] in multiset(front) && back[j - |front|] in multiset(back);
      }
    }
    SortedUnique(le, both, SortedSeq(le, part + rest));
  }

  /** The sorted heap is the beginning of the sorted whole. */
  lemma TopIsPrefix(heap: multiset<Candidate>, all: multiset<Candidate>, take: nat)
    requires IsTop(heap, all, take)
    ensures |SortedRows(all)| == |all| && |heap| <= |all|
    ensures SortedRows(heap) == SortedRows(all)[..|heap|]
  {
    hide CandidateLe, SortedSeq;
    CandidateTotalOrder();
    var rest := all - heap;
    SortedParts(CandidateLe, heap, rest);
    assert all == heap + rest;
    var front := SortedSeq(CandidateLe, heap);
    assert |multiset(front)| == |front|;
    var whole := SortedSeq(CandidateLe, all);
    assert |multiset(whole)| == |whole|;
  }

  /** Skip `offset` elements, then take at most `limit`. */
  function Page<T>(s: seq<T>, offset: nat, limit: nat): seq<T> {
    var from := Min(offset, |s|);
    s[from..Min(from + limit, |s|)]
  }

  lemma PageOfPrefix<T>(s: seq<T>, n: nat, offset: nat, limit: nat)
    requires n <= |s| && (offset + limit <= n || n == |s|)
    ensures Page(s[..n], offset, limit) == Page(s, offset, limit)
  {
  }

  function RowIds(s: seq<Candidate>): seq<u64> {
    seq(|s|, i requires 0 <= i < |s| => s[i].rowId)
  }

  /** How many candidates a heap keeps: the sum of two 32-bit numbers, capped at the machine word. */
  function TakeCount(limit: nat, offset: nat, usizeMax: nat): nat {
    if limit == 0 then 0 else Min(limit + offset, usizeMax)
  }

  /** The page cut from the heap is the page cut from everything. */
  lemma TopPage(heap: multiset<Candidate>, all: multiset<Candidate>, limit: nat, offset: nat, usizeMax: nat)
    requires IsTop(heap, all, TakeCount(limit, offset, usizeMax))
    requires limit + offset <= usizeMax || |all| <= usizeMax
    ensures Page(SortedRows(heap), offset, limit) == Page(SortedRows(all), offset, limit)
  {
    hide SortedRows, IsTop;
    TopIsPrefix(heap, all, TakeCount(limit, offset, usizeMax));
    assert |heap| == Min(TakeCount(limit, offset, usizeMax),
      |all|) by { IsTopSize(heap, all, TakeCount(limit, offset, usizeMax)); }
    if limit == 0 {
      assert Page(SortedRows(all), offset, limit) == [];
    } else {
      PageOfPrefix(SortedRows(all), |heap|, offset, limit);
    }
  }

  lemma IsTopSize(heap: multiset<Candidate>, all: multiset<Candidate>, take: nat)
    requires IsTop(heap, all, take)
    ensures |heap| == Min(take, |all|)
  {
  }
}
