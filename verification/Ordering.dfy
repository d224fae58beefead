/**
 Total orders given as functions, the lexicographic order on byte and code-point sequences, listings
 of a set without repeats, first appearances in a sequence, and sorting as a relation: the one
 sorted listing of a multiset, which is what a sort call returns whatever algorithm it uses, as long
 as the order it sorts by is total.
 */
module Ordering {

  // ---------- total orders given as functions ----------

  ghost predicate TotalOrder<T(!new)>(le: (T, T) -> bool) {
    && (forall x :: le(x, x))
    && (forall x, y :: le(x, y) && le(y, x) ==> x == y)
    && (forall x, y, z :: le(x, y) && le(y, z) ==> le(x, z))
    && (forall x, y :: le(x, y) || le(y, x))
  }

  ghost predicate Sorted<T>(le: (T, T) -> bool, s: seq<T>) {
    forall i, j :: 0 <= i < j < |s| ==> le(s[i], s[j])
  }

  /** Puts `x` in front of the first element it does not exceed. */
  function Insert<T>(le: (T, T) -> bool, x: T, s: seq<T>): (r: seq<T>)
    ensures multiset(r) == multiset(s) + multiset{x}
    ensures |r| == |s| + 1
  {
    if s == [] then [x]
    else if le(x, s[0]) then [x] + s
    else
      assert s == [s[0]] + s[1..];
      [s[0]] + Insert(le, x, s[1..])
  }

  lemma {:induction false} InsertSorted<T(!new)>(le: (T, T) -> bool, x: T, s: seq<T>)
    requires TotalOrder(le) && Sorted(le, s)
    ensures Sorted(le, Insert(le, x, s))
  {
    if s == [] {
    } else if le(x, s[0]) {
      var r := [x] + s;
      forall i, j | 0 <= i < j < |r| ensures le(r[i], r[j]) {
        if i == 0 { assert r[j] == s[j - 1]; assert j == 1 || le(s[0], s[j - 1]); }
      }
    } else {
      var t := Insert(le, x, s[1..]);
      InsertSorted(le, x, s[1..]);
      forall j | 0 <= j < |t| ensures le(s[0], t[j]) {
        assert t[j] in multiset(t);
        if t[j] != x {
          assert t[j] in multiset(s[1..]);
          var k :| 0 <= k < |s[1..]| && s[1..][k] == t[j];
          assert t[j] == s[k + 1];
        }
      }
    }
  }

  lemma HeadIsLeast<T(!new)>(le: (T, T) -> bool, s: seq<T>, x: T)
    requires TotalOrder(le) && Sorted(le, s) && x in multiset(s)
    ensures s != [] && le(s[0], x)
  {
    var i :| 0 <= i < |s| && s[i] == x;
  }

  /** Two sorted listings of one multiset start with the same element. */
  lemma SameHead<T(!new)>(le: (T, T) -> bool, a: seq<T>, b: seq<T>)
    requires TotalOrder(le) && Sorted(le, a) && Sorted(le, b) && a != []
    requires multiset(a) == multiset(b)
    ensures b != [] && a[0] == b[0]
  {
    assert a[0] in multiset(a);
    HeadIsLeast(le, b, a[0]);
    assert b[0] in multiset(b);
    HeadIsLeast(le, a, b[0]);
  }

  lemma Uncons<T>(s: seq<T>)
    requires s != []
    ensures s == [s[0]] + s[1..] && multiset(s[1..]) == multiset(s) - multiset{s[0]}
  {
    assert s == [s[0]] + s[1..];
  }

  lemma SortedRest<T>(le: (T, T) -> bool, s: seq<T>)
    requires Sorted(le, s) && s != []
    ensures Sorted(le, s[1..])
  {
  }

  /** Two sorted listings of one multiset are the same listing. */
  lemma {:induction false} SortedUnique<T(!new)>(le: (T, T) -> bool, a: seq<T>, b: seq<T>)
    requires TotalOrder(le) && Sorted(le, a) && Sorted(le, b)
    requires multiset(a) == multiset(b)
    ensures a == b
    decreases |a|
  {
    hide TotalOrder, Sorted;
    if a == [] {
      assert |multiset(b)| == |b|;
    } else {
      SameHead(le, a, b);
      Uncons(a);
      Uncons(b);
      SortedRest(le, a);
      SortedRest(le, b);
      SortedUnique(le, a[1..], b[1..]);
    }
  }

  /** The sorted listing of a multiset. */
  ghost function SortedSeq<T(!new)>(le: (T, T) -> bool, m: multiset<T>): (r: seq<T>)
    requires TotalOrder(le)
    ensures multiset(r) == m && Sorted(le, r)
    decreases |m|
  {
    if m == multiset{} then []
    else
      var x :| x in m;
      var rest := SortedSeq(le, m - multiset{x});
      InsertSorted(le, x, rest);
      Insert(le, x, rest)
  }

  // ---------- listings of a set ----------

  ghost function Elements<T>(s: seq<T>): set<T> {
    set x | x in s
  }

  /** `keys` lists the set `s` without repeats. */
  ghost predicate Lists<T(!new)>(keys: seq<T>, s: set<T>) {
    && (forall k :: k in keys <==> k in s)
    && (forall i, j :: 0 <= i < j < |keys| ==> keys[i] != keys[j])
  }

  lemma ListsFromMultiset<T(!new)>(keys: seq<T>, s: set<T>)
    requires multiset(keys) == multiset(s)
    ensures Lists(keys, s)
  {
    forall k ensures k in keys <==> k in s {
      assert k in keys <==> k in multiset(keys);
    }
    forall i, j | 0 <= i < j < |keys| ensures keys[i] != keys[j] {
      assert keys == keys[..j] + [keys[j]] + keys[j + 1..];
      assert multiset(keys) == multiset(keys[..j]) + multiset{keys[j]} + multiset(keys[j + 1..]);
      assert keys[..j][i] in multiset(keys[..j]);
      assert multiset(keys)[keys[j]] <= 1;
    }
  }

  lemma ElementsOfListing<T(!new)>(keys: seq<T>, s: set<T>)
    requires Lists(keys, s)
    ensures Elements(keys) == s
  {
  }

  lemma {:induction false} ListsLength<T(!new)>(keys: seq<T>, s: set<T>)
    requires Lists(keys, s)
    ensures |keys| == |s|
    decreases |keys|
  {
    if keys == [] {
      assert forall x :: x in s ==> x in keys;
    } else {
      var front, last := keys[..|keys| - 1], keys[|keys| - 1];
      assert keys == front + [last];
      forall k ensures k in front <==> k in s - {last} {
        assert k in keys <==> k in front || k == last;
        if k in front {
          var i :| 0 <= i < |front| && front[i] == k;
          assert keys[i] == k;
        }
      }
      ListsLength(front, s - {last});
    }
  }

  /** The last of the first `n` listed elements is new. */
  lemma LastOfListing<T(!new)>(keys: seq<T>, s: set<T>, n: nat)
    requires Lists(keys, s) && 0 < n <= |keys|
    ensures keys[n - 1] in s && keys[n - 1] !in Elements(keys[..n - 1])
    ensures Elements(keys[..n]) == Elements(keys[..n - 1]) + {keys[n - 1]}
  {
    assert keys[..n] == keys[..n - 1] + [keys[n - 1]];
  }

  lemma {:induction false} SubsetSize<T>(a: set<T>, b: set<T>)
    requires a <= b
    ensures |a| <= |b|
  {
    if a != {} {
      var x :| x in a;
      SubsetSize(a - {x}, b - {x});
    }
  }

  /** The numbers from `lo` to `hi - 1`. */
  ghost function Range(lo: nat, hi: nat): (r: set<nat>)
    requires lo <= hi
    ensures forall k :: k in r <==> lo <= k < hi
    ensures |r| == hi - lo
    decreases hi - lo
  {
    if lo == hi then {} else Range(lo, hi - 1) + {hi - 1}
  }

  // ---------- leaving one element out ----------

  /** A list without its element at `j`. */
  function Without<T>(s: seq<T>, j: nat): seq<T>
    requires j < |s|
  {
    s[..j] + s[j + 1..]
  }

  lemma WithoutOne<T>(s: seq<T>, j: nat)
    requires j < |s|
    ensures multiset(Without(s, j)) == multiset(s) - multiset{s[j]} && |Without(s, j)| == |s| - 1
  {
    assert s == s[..j] + [s[j]] + s[j + 1..];
  }

  lemma WithoutLater<T>(s: seq<T>, j: nat)
    requires j < |s| - 1
    ensures Without(s, j) == Without(s[..|s| - 1], j) + [s[|s| - 1]]
  {
  }

  lemma WithoutLast<T>(s: seq<T>)
    requires s != []
    ensures Without(s, |s| - 1) == s[..|s| - 1]
  {
  }

  /** Taking one more element out of what is left. */
  lemma TakeOne<T>(whole: multiset<T>, left: multiset<T>, x: T)
    requires left <= whole && x in left
    ensures left - multiset{x} <= whole && whole - (left - multiset{x}) == (whole - left) + multiset{x}
  {
  }

  // ---------- first appearances ----------

  function Occurrences<T(==)>(s: seq<T>, x: T): nat
    decreases |s|
  {
    if s == [] then 0 else Occurrences(s[..|s| - 1], x) + if s[|s| - 1] == x then 1 else 0
  }

  lemma {:induction false} OccursIn<T>(s: seq<T>, x: T)
    ensures Occurrences(s, x) > 0 <==> x in s
    decreases |s|
  {
    if s == [] {
    } else {
      OccursIn(s[..|s| - 1], x);
      assert s == s[..|s| - 1] + [s[|s| - 1]];
    }
  }

  /** The distinct elements in the order they first appear. */
  function FirstSeen<T(==)>(s: seq<T>): seq<T>
    decreases |s|
  {
    if s == [] then []
    else
      var before := FirstSeen(s[..|s| - 1]);
      if s[|s| - 1] in before then before else before + [s[|s| - 1]]
  }

  lemma {:induction false} FirstSeenListsOnce<T>(s: seq<T>)
    ensures forall x :: x in FirstSeen(s) <==> x in s
    ensures forall i, j :: 0 <= i < j < |FirstSeen(s)| ==> FirstSeen(s)[i] != FirstSeen(s)[j]
    decreases |s|
  {
    if s == [] {
    } else {
      FirstSeenListsOnce(s[..|s| - 1]);
      assert s == s[..|s| - 1] + [s[|s| - 1]];
    }
  }

  lemma FirstSeenSnoc<T>(s: seq<T>, x: T)
    ensures FirstSeen(s + [x]) == if x in FirstSeen(s) then FirstSeen(s) else FirstSeen(s) + [x]
  {
    assert (s + [x])[..|s|] == s;
  }

  lemma OccurrencesSnoc<T>(s: seq<T>, x: T, y: T)
    ensures Occurrences(s + [x], y) == Occurrences(s, y) + if x == y then 1 else 0
  {
    assert (s + [x])[..|s|] == s;
  }

  // ---------- lexicographic order ----------

  predicate LexLe(a: seq<int>, b: seq<int>) {
    a == [] || (b != [] && (a[0] < b[0] || (a[0] == b[0] && LexLe(a[1..], b[1..]))))
  }

  lemma {:induction false} LexRefl(a: seq<int>)
    ensures LexLe(a, a)
  {
    if a == [] {
    } else {
      LexRefl(a[1..]);
    }
  }

  lemma {:induction false} LexAntisym(a: seq<int>, b: seq<int>)
    requires LexLe(a, b) && LexLe(b, a)
    ensures a == b
  {
    if a != [] && b != [] {
      LexAntisym(a[1..], b[1..]);
      assert a == [a[0]] + a[1..] && b == [b[0]] + b[1..];
    }
  }

  lemma {:induction false} LexTrans(a: seq<int>, b: seq<int>, c: seq<int>)
    requires LexLe(a, b) && LexLe(b, c)
    ensures LexLe(a, c)
  {
    if a != [] && a[0] == b[0] == c[0] { LexTrans(a[1..], b[1..], c[1..]); }
  }

  lemma {:induction false} LexTotal(a: seq<int>, b: seq<int>)
    ensures LexLe(a, b) || LexLe(b, a)
  {
    if a != [] && b != [] && a[0] == b[0] { LexTotal(a[1..], b[1..]); }
  }

  function CodePoints(s: string): seq<int> {
    seq(|s|, i requires 0 <= i < |s| => s[i] as int)
  }

  /** The order of Rust strings: by code point, which is also the order of their UTF-8 bytes. */
  predicate StringLe(a: string, b: string) {
    LexLe(CodePoints(a), CodePoints(b))
  }

  lemma StringLeTotalOrder()
    ensures TotalOrder(StringLe)
  {
    forall x: string ensures StringLe(x, x) { LexRefl(CodePoints(x)); }
    forall x, y | StringLe(x, y) && StringLe(y, x) ensures x == y {
      LexAntisym(CodePoints(x), CodePoints(y));
      assert |x| == |CodePoints(x)| == |y|;
      forall i | 0 <= i < |x| ensures x[i] == y[i] {
        assert CodePoints(x)[i] == CodePoints(y)[i];
      }
    }
    forall x, y, z | StringLe(x, y) && StringLe(y, z) ensures StringLe(x, z) {
      LexTrans(CodePoints(x), CodePoints(y), CodePoints(z));
    }
    forall x, y ensures StringLe(x, y) || StringLe(y, x) { LexTotal(CodePoints(x), CodePoints(y)); }
  }

  /** The elements of a set of strings, ascending and without repeats. */
  ghost function SortedStrings(s: set<string>): (r: seq<string>)
    ensures multiset(r) == multiset(s)
  {
    StringLeTotalOrder();
    SortedSeq(StringLe, multiset(s))
  }

  lemma SortedStringsAscend(s: set<string>)
    ensures Sorted(StringLe, SortedStrings(s))
  {
    StringLeTotalOrder();
  }

  method SortStrings(s: set<string>) returns (r: seq<string>)
    ensures r == SortedStrings(s)
  {
    StringLeTotalOrder();
    r := [];
    var todo := s;
    while todo != {}
      invariant todo <= s
      invariant multiset(r) == multiset(s - todo) && Sorted(StringLe, r)
    {
      var x :| x in todo;
      InsertSorted(StringLe, x, r);
      r := Insert(StringLe, x, r);
      assert s - (todo - {x}) == (s - todo) + {x};
      todo := todo - {x};
    }
    assert s - todo == s;
    SortedStringsAscend(s);
    SortedUnique(StringLe, r, SortedStrings(s));
  }
}
