/** The recursive JSON diff. */
module ViewModelDiff {
  import opened Wrappers
  import opened Ordering
  import opened ViewModelPatch

  // Its patches, run by either interpreter, turn the old view model into the new one.

  // ---------- the diff ----------

  ghost function DiffValue(prev: Value, next: Value): seq<Patch> {
    DiffAt(prev, next, [])
  }

  ghost function DiffAt(prev: Value, next: Value, path: Path): seq<Patch>
    decreases prev, 3
  {
    if Eq(prev, next) then []
    else
      match (prev, next)
      case (Array(a), Array(b)) => DiffArrays(a, b, path)
      case (Object(a), Object(b)) => DiffObjects(a, b, path)
      case (_, _) => [Replace(path, next)]
  }

  /** Patches for the first `n` positions, which both arrays have. */
  ghost function DiffElements(a: seq<Value>, b: seq<Value>, path: Path, n: nat): seq<Patch>
    requires n <= |a| && n <= |b|
    decreases a, 1, n
  {
    if n == 0 then []
    else DiffElements(a, b, path, n - 1) + DiffAt(a[n - 1], b[n - 1], path + [Index(n - 1)])
  }

  /** Removes positions `hi - 1` down to `lo`. */
  ghost function RemoveTail(path: Path, lo: nat, hi: nat): seq<Patch>
    requires lo <= hi
  {
    if lo == hi then [] else [Remove(path + [Index(hi - 1)])] + RemoveTail(path, lo, hi - 1)
  }

  /** Writes `b` from position `from` on. */
  ghost function AppendTail(b: seq<Value>, path: Path, from: nat): seq<Patch>
    requires from <= |b|
    decreases |b| - from
  {
    if from == |b| then [] else [Replace(path + [Index(from)], b[from])] + AppendTail(b, path, from + 1)
  }

  ghost function DiffArrays(a: seq<Value>, b: seq<Value>, path: Path): seq<Patch>
    decreases a, 2
  {
    var common := DiffElements(a, b, path, if |a| <= |b| then |a| else |b|);
    if |a| == |b| && common != [] then common
    else if |a| > |b| then common + RemoveTail(path, |b|, |a|)
    else common + AppendTail(b, path, |a|)
  }

  ghost function DiffKey(a: map<string, Value>, b: map<string, Value>, path: Path, key: string): seq<Patch>
    decreases Object(a), 0
  {
    var child := path + [Key(key)];
    if key !in a && key in b then [Replace(child, b[key])]
    else if key in a && key !in b then [Remove(child)]
    else if key in a && key in b then DiffAt(a[key], b[key], child)
    else []
  }

  /** Patches for the first `n` of the listed keys. */
  ghost function DiffKeys(a: map<string, Value>, b: map<string, Value>, path: Path, keys: seq<string>, n: nat)
    : seq<Patch>
    requires n <= |keys|
    decreases Object(a), 1, n
  {
    if n == 0 then [] else DiffKeys(a, b, path, keys, n - 1) + DiffKey(a, b, path, keys[n - 1])
  }

  /** The keys of either object, sorted and without repeats. */
  ghost function AllKeys(a: map<string, Value>, b: map<string, Value>): (keys: seq<string>) {
    SortedStrings(a.Keys + b.Keys)
  }

  ghost function DiffObjects(a: map<string, Value>, b: map<string, Value>, path: Path): seq<Patch>
    decreases Object(a), 2
  {
    var keys := AllKeys(a, b);
    DiffKeys(a, b, path, keys, |keys|)
  }

  // ---------- the loops that push the patches ----------

  method DiffAtLoop(prev: Value, next: Value, path: Path) returns (patches: seq<Patch>)
    ensures patches == DiffAt(prev, next, path)
    decreases prev, 3
  {
    hide SortedStrings;
    if Eq(prev, next) { return []; }
    match (prev, next) {
      case (Array(a), Array(b)) => patches := DiffArraysLoop(a, b, path);
      case (Object(a), Object(b)) => patches := DiffObjectsLoop(a, b, path);
      case (_, _) => patches := [Replace(path, next)];
    }
  }

  /** Walks the zipped arrays, pushing the patches of each pair. */
  method DiffElementsLoop(a: seq<Value>, b: seq<Value>, path: Path) returns (patches: seq<Patch>)
    ensures patches == DiffElements(a, b, path, if |a| <= |b| then |a| else |b|)
    decreases a, 1
  {
    patches := [];
    var n := if |a| <= |b| then |a| else |b|;
    for i := 0 to n
      invariant patches == DiffElements(a, b, path, i)
    {
      var more := DiffAtLoop(a[i], b[i], path + [Index(i)]);
      patches := patches + more;
    }
  }

  method DiffArraysLoop(a: seq<Value>, b: seq<Value>, path: Path) returns (patches: seq<Patch>)
    ensures patches == DiffArrays(a, b, path)
    decreases a, 2
  {
    if |a| == |b| {
      patches := DiffElementsLoop(a, b, path);
      if patches != [] { return; }
    }
    if |a| > |b| {
      patches := DiffElementsLoop(a, b, path);
      ghost var common := patches;
      var i := |a|;
      while i > |b|
        invariant |b| <= i <= |a|
        invariant patches + RemoveTail(path, |b|, i) == common + RemoveTail(path, |b|, |a|)
      {
        i := i - 1;
        assert RemoveTail(path, |b|, i + 1) == [Remove(path + [Index(i)])] + RemoveTail(path, |b|, i);
        patches := patches + [Remove(path + [Index(i)])];
      }
      assert patches + [] == patches;
      return;
    }
    patches := DiffElementsLoop(a, b, path);
    ghost var common := patches;
    for i := |a| to |b|
      invariant patches + AppendTail(b, path, i) == common + AppendTail(b, path, |a|)
    {
      assert AppendTail(b, path, i) == [Replace(path + [Index(i)], b[i])] + AppendTail(b, path, i + 1);
      patches := patches + [Replace(path + [Index(i)], b[i])];
    }
    assert patches + [] == patches;
  }

  method DiffObjectsLoop(a: map<string, Value>, b: map<string, Value>, path: Path) returns (patches: seq<Patch>)
    ensures patches == DiffObjects(a, b, path)
    decreases Object(a), 2
  {
    hide SortedStrings;
    var keys := SortStrings(a.Keys + b.Keys);
    patches := [];
    for k := 0 to |keys|
      invariant patches == DiffKeys(a, b, path, keys, k)
    {
      var more := DiffKeyStep(a, b, path, keys[k]);
      patches := patches + more;
    }
  }

  /** The body of the key loop. */
  method DiffKeyStep(a: map<string, Value>, b: map<string, Value>, path: Path, key: string)
    returns (patches: seq<Patch>)
    ensures patches == DiffKey(a, b, path, key)
    decreases Object(a), 0
  {
    var child := path + [Key(key)];
    if key !in a && key in b {
      patches := [Replace(child, b[key])];
    } else if key in a && key !in b {
      patches := [Remove(child)];
    } else if key in a && key in b {
      patches := DiffAtLoop(a[key], b[key], child);
    } else {
      patches := [];
    }
  }

  // ---------- what the patches leave behind ----------

  /** The document the patches build: `prev` where nothing differs, `next` elsewhere. */
  ghost function Rebuilt(prev: Value, next: Value): Value
    decreases prev, 1
  {
    if Eq(prev, next) then prev
    else
      match (prev, next)
      case (Array(a), Array(b)) => Array(RebuiltItems(a, b))
      case (Object(a), Object(b)) => Object(RebuiltFields(a, b))
      case (_, _) => next
  }

  ghost function RebuiltFields(a: map<string, Value>, b: map<string, Value>): map<string, Value>
    decreases Object(a), 0
  {
    map k | k in b :: if k in a then Rebuilt(a[k], b[k]) else b[k]
  }

  ghost function RebuiltItems(a: seq<Value>, b: seq<Value>): (r: seq<Value>)
    ensures |r| == |b|
    decreases a
  {
    seq(|b|, i requires 0 <= i < |b| => if i < |a| then Rebuilt(a[i], b[i]) else b[i])
  }

  lemma {:induction false} RebuiltIsNext(prev: Value, next: Value)
    ensures Normal(Rebuilt(prev, next)) == Normal(next)
    decreases prev
  {
    hide Normal, Eq;
    EqIsNormal(prev, next);
    if !Eq(prev, next) {
      match (prev, next)
      case (Array(a), Array(b)) =>
        forall i | 0 <= i < |b| ensures Normal(RebuiltItems(a, b)[i]) == Normal(b[i]) {
          if i < |a| { RebuiltIsNext(a[i], b[i]); }
        }
        ArraysNormal(RebuiltItems(a, b), b);
      case (Object(a), Object(b)) =>
        forall k | k in b ensures Normal(RebuiltFields(a, b)[k]) == Normal(b[k]) {
          if k in a { RebuiltIsNext(a[k], b[k]); }
        }
        ObjectsNormal(RebuiltFields(a, b), b);
      case (_, _) =>
    }
  }

  // ---------- running patches, with both interpreters at once ----------

  /** Both interpreters take `root` through `patches` to `end`, with no panic and no exception. */
  ghost predicate Reaches(root: Value, patches: seq<Patch>, end: Value)
    decreases |patches|
  {
    if patches == [] then root == end
    else
      && ApplyOne(root, patches[0]).Some?
      && TsApplyOne(root, patches[0]) == Done(ApplyOne(root, patches[0]).value)
      && Reaches(ApplyOne(root, patches[0]).value, patches[1..], end)
  }

  lemma {:induction false} ReachesApplies(root: Value, patches: seq<Patch>, end: Value)
    requires Reaches(root, patches, end)
    ensures ApplyPatches(root, patches) == Some(end)
    ensures TsApplyPatches(root, patches) == Done(end)
    decreases |patches|
  {
    if patches == [] {
    } else {
      ReachesApplies(ApplyOne(root, patches[0]).value, patches[1..], end);
    }
  }

  lemma {:induction false} ReachesConcat(root: Value, p: seq<Patch>, mid: Value, q: seq<Patch>, end: Value)
    requires Reaches(root, p, mid) && Reaches(mid, q, end)
    ensures Reaches(root, p + q, end)
    decreases |p|
  {
    if p == [] {
      assert p + q == q;
    } else {
      assert (p + q)[0] == p[0] && (p + q)[1..] == p[1..] + q;
      ReachesConcat(ApplyOne(root, p[0]).value, p[1..], mid, q, end);
    }
  }

  /** One patch whose last segment points into the container at `path`. */
  lemma ReachesLeaf(root: Value, path: Path, seg: Segment, patch: Patch)
    requires patch.path == path + [seg] && At(root, path).Some?
    requires SegmentFits(At(root, path).value, seg) && ApplyLeaf(At(root, path).value, seg, patch).Some?
    ensures Reaches(root, [patch], Put(root, path, ApplyLeaf(At(root, path).value, seg, patch).value))
  {
    assert path[0..] == path;
    LeafInContext(root, path, 0, seg, patch);
    var end := Put(root, path, ApplyLeaf(At(root, path).value, seg, patch).value);
    assert Reaches(end, [], end);
    assert [patch][1..] == [];
  }

  /** Replacing the value at a path that exists. */
  lemma ReachesReplace(root: Value, path: Path, value: Value)
    requires At(root, path).Some?
    ensures Reaches(root, [Replace(path, value)], Put(root, path, value))
  {
    var patch := Replace(path, value);
    assert [patch][1..] == [];
    if path != [] {
      var front, seg := path[..|path| - 1], path[|path| - 1];
      assert path == front + [seg];
      AtSplit(root, front, seg);
      AtStep(root, front, seg);
      ReachesLeaf(root, front, seg, patch);
    }
  }

  lemma {:induction false} AtSplit(root: Value, front: Path, seg: Segment)
    requires At(root, front + [seg]).Some?
    ensures At(root, front).Some? && Child(At(root, front).value, seg).Some?
  {
    var full := front + [seg];
    if front == [] {
      assert full[0] == seg;
    } else {
      assert full[0] == front[0] && full[1..] == front[1..] + [seg];
      AtSplit(Child(root, front[0]).value, front[1..], seg);
    }
  }

  // ---------- the diff in any context ----------

  /** At any place of any document that holds `prev`, the patches put `Rebuilt(prev, next)` there. */
  lemma {:induction false} DiffAtReaches(root: Value, path: Path, prev: Value, next: Value)
    requires At(root, path) == Some(prev)
    ensures Reaches(root, DiffAt(prev, next, path), Put(root, path, Rebuilt(prev, next)))
    decreases prev, 3
  {
    hide SortedStrings;
    if Eq(prev, next) {
      PutSame(root, path);
    } else {
      match (prev, next)
      case (Array(a), Array(b)) => DiffArraysReaches(root, path, a, b);
      case (Object(a), Object(b)) =>
        DiffObjectsReaches(root, path, a, b);
      case (_, _) => ReachesReplace(root, path, next);
    }
  }

  /** The array after its first `n` positions were patched. */
  ghost function ItemsDone(a: seq<Value>, b: seq<Value>, n: nat): seq<Value>
    requires n <= |a| && n <= |b|
  {
    RebuiltItems(a, b)[..n] + a[n..]
  }

  lemma ItemStep(a: seq<Value>, b: seq<Value>, n: nat)
    requires 0 < n <= |a| && n <= |b|
    ensures ItemsDone(a, b, n - 1)[n - 1] == a[n - 1]
    ensures ItemsDone(a, b, n - 1)[n - 1 := Rebuilt(a[n - 1], b[n - 1])] == ItemsDone(a, b, n)
  {
  }

  /** With `c` put at `path`, the child of `c` is found one segment further. */
  lemma HoleAt(root: Value, path: Path, c: Value, seg: Segment)
    requires At(root, path).Some? && Child(c, seg).Some?
    ensures At(Put(root, path, c), path).Some?
    ensures At(Put(root, path, c), path + [seg]) == Child(c, seg)
  {
    AtPut(root, path, c);
    AtStep(Put(root, path, c), path, seg);
  }

  /** Patches of one child, run after patches that left `c` at `path`. */
  lemma ReachesChild(root: Value, path: Path, before: seq<Patch>, c: Value, seg: Segment, ps: seq<Patch>, v: Value)
    requires At(root, path).Some? && Child(c, seg).Some? && At(Put(root, path, c), path + [seg]).Some?
    requires Reaches(root, before, Put(root, path, c))
    requires Reaches(Put(root, path, c), ps, Put(Put(root, path, c), path + [seg], v))
    ensures Reaches(root, before + ps, Put(root, path, PutChild(c, seg, v)))
  {
    var mid := Put(root, path, c);
    AtPut(root, path, c);
    AtStep(mid, path, seg);
    PutPut(root, path, c, PutChild(c, seg, v));
    ReachesConcat(root, before, mid, ps, Put(mid, path + [seg], v));
  }

  lemma {:induction false} DiffElementsReaches(root: Value, path: Path, a: seq<Value>, b: seq<Value>, n: nat)
    requires At(root, path) == Some(Array(a)) && n <= |a| && n <= |b|
    ensures Reaches(root, DiffElements(a, b, path, n), Put(root, path, Array(ItemsDone(a, b, n))))
    decreases a, 1, n
  {
    if n == 0 {
      assert ItemsDone(a, b, 0) == a;
      PutSame(root, path);
    } else {
      DiffElementsReaches(root, path, a, b, n - 1);
      var items, seg := ItemsDone(a, b, n - 1), Index(n - 1);
      ItemStep(a, b, n);
      HoleAt(root, path, Array(items), seg);
      DiffAtReaches(Put(root, path, Array(items)), path + [seg], a[n - 1], b[n - 1]);
      ReachesChild(root, path, DiffElements(a, b, path, n - 1), Array(items), seg,
        DiffAt(a[n - 1], b[n - 1], path + [seg]), Rebuilt(a[n - 1], b[n - 1]));
    }
  }

  lemma {:induction false} RemoveTailReaches(root: Value, path: Path, items: seq<Value>, lo: nat)
    requires At(root, path) == Some(Array(items)) && lo <= |items|
    ensures Reaches(root, RemoveTail(path, lo, |items|), Put(root, path, Array(items[..lo])))
    decreases |items|
  {
    if lo == |items| {
      assert items[..lo] == items;
      PutSame(root, path);
    } else {
      var last := |items| - 1;
      var patch := Remove(path + [Index(last)]);
      ReachesLeaf(root, path, Index(last), patch);
      assert items[..last] + items[last + 1..] == items[..last];
      var mid := Put(root, path, Array(items[..last]));
      AtPut(root, path, Array(items[..last]));
      RemoveTailReaches(mid, path, items[..last], lo);
      assert items[..last][..lo] == items[..lo];
      PutPut(root, path, Array(items[..last]), Array(items[..lo]));
      ReachesConcat(root, [patch], mid, RemoveTail(path, lo, last), Put(root, path, Array(items[..lo])));
    }
  }

  lemma {:induction false} AppendTailReaches(root: Value, path: Path, items: seq<Value>, b: seq<Value>)
    requires At(root, path) == Some(Array(items)) && |items| <= |b|
    ensures Reaches(root, AppendTail(b, path, |items|), Put(root, path, Array(items + b[|items|..])))
    decreases |b| - |items|
  {
    var n := |items|;
    if n == |b| {
      assert items + b[n..] == items;
      PutSame(root, path);
    } else {
      var patch := Replace(path + [Index(n)], b[n]);
      ReachesLeaf(root, path, Index(n), patch);
      var longer := items + [b[n]];
      var mid := Put(root, path, Array(longer));
      AtPut(root, path, Array(longer));
      AppendTailReaches(mid, path, longer, b);
      assert longer + b[n + 1..] == items + b[n..];
      PutPut(root, path, Array(longer), Array(items + b[n..]));
      ReachesConcat(root, [patch], mid, AppendTail(b, path, n + 1), Put(root, path, Array(items + b[n..])));
    }
  }

  lemma {:induction false} DiffArraysReaches(root: Value, path: Path, a: seq<Value>, b: seq<Value>)
    requires At(root, path) == Some(Array(a))
    ensures Reaches(root, DiffArrays(a, b, path), Put(root, path, Array(RebuiltItems(a, b))))
    decreases a, 2
  {
    var n := if |a| <= |b| then |a| else |b|;
    var common := DiffElements(a, b, path, n);
    DiffElementsReaches(root, path, a, b, n);
    var items := ItemsDone(a, b, n);
    var mid := Put(root, path, Array(items));
    var end := Put(root, path, Array(RebuiltItems(a, b)));
    AtPut(root, path, Array(items));
    if |a| > |b| {
      RemoveTailReaches(mid, path, items, n);
      assert items[..n] == RebuiltItems(a, b);
      PutPut(root, path, Array(items), Array(items[..n]));
      ReachesConcat(root, common, mid, RemoveTail(path, n, |a|), end);
    } else {
      AppendTailReaches(mid, path, items, b);
      assert items + b[n..] == RebuiltItems(a, b);
      PutPut(root, path, Array(items), Array(RebuiltItems(a, b)));
      ReachesConcat(root, common, mid, AppendTail(b, path, n), end);
      if |a| == |b| { assert common + [] == common; }
    }
  }

  /** The object after the given keys were patched. */
  ghost function FieldsDone(a: map<string, Value>, b: map<string, Value>, done: set<string>): map<string, Value> {
    map k | k in a.Keys + b.Keys && (if k in done then k in b else k in a)
      :: if k !in done then a[k] else if k in a then Rebuilt(a[k], b[k]) else b[k]
  }

  lemma NoFieldsDone(a: map<string, Value>, b: map<string, Value>)
    ensures FieldsDone(a, b, {}) == a
  {
  }

  lemma AllFieldsDone(a: map<string, Value>, b: map<string, Value>)
    ensures FieldsDone(a, b, a.Keys + b.Keys) == RebuiltFields(a, b)
  {
  }

  lemma {:induction false} DiffObjectsReaches(root: Value, path: Path, a: map<string, Value>, b: map<string, Value>)
    requires At(root, path) == Some(Object(a))
    ensures Reaches(root, DiffObjects(a, b, path), Put(root, path, Object(RebuiltFields(a, b))))
    decreases Object(a), 2
  {
    hide SortedStrings;
    var keys := AllKeys(a, b);
    ListsFromMultiset(keys, a.Keys + b.Keys);
    DiffKeysReaches(root, path, a, b, keys, |keys|);
    assert keys[..|keys|] == keys;
    ElementsOfListing(keys, a.Keys + b.Keys);
    AllFieldsDone(a, b);
  }

  /** Handling one more key changes that field only. */
  lemma FieldStep(a: map<string, Value>, b: map<string, Value>, done: set<string>, key: string)
    requires key !in done && key in a.Keys + b.Keys
    ensures
      var fields := FieldsDone(a, b, done);
      && (key in fields <==> key in a) && (key in a ==> fields[key] == a[key])
      && FieldsDone(a, b, done + {key}) == FieldAfter(a, b, fields, key)
  {
  }

  ghost function FieldAfter(a: map<string, Value>, b: map<string, Value>, fields: map<string, Value>, key: string)
    : map<string, Value>
    requires key in a.Keys + b.Keys
  {
    if key !in b then fields - {key} else fields[key := if key in a then Rebuilt(a[key], b[key]) else b[key]]
  }

  lemma {:induction false} DiffKeysReaches(root: Value, path: Path, a: map<string, Value>, b: map<string, Value>,
                                           keys: seq<string>, n: nat)
    requires At(root, path) == Some(Object(a)) && Lists(keys, a.Keys + b.Keys) && n <= |keys|
    ensures Reaches(root, DiffKeys(a, b, path, keys, n),
                    Put(root, path, Object(FieldsDone(a, b, Elements(keys[..n])))))
    decreases Object(a), 1, n
  {
    if n == 0 {
      assert Elements(keys[..n]) == {};
      NoFieldsDone(a, b);
      PutSame(root, path);
    } else {
      var key := keys[n - 1];
      var done := Elements(keys[..n - 1]);
      DiffKeysReaches(root, path, a, b, keys, n - 1);
      LastOfListing(keys, a.Keys + b.Keys, n);
      FieldStep(a, b, done, key);
      OneMoreKey(root, path, a, b, DiffKeys(a, b, path, keys, n - 1),
        FieldsDone(a, b, done), FieldsDone(a, b, done + {key}), key);
    }
  }

  lemma {:induction false} OneMoreKey(root: Value, path: Path, a: map<string, Value>, b: map<string, Value>,
        before: seq<Patch>,
                   fields: map<string, Value>, after: map<string, Value>, key: string)
    requires At(root, path) == Some(Object(a)) && key in a.Keys + b.Keys
    requires Reaches(root, before, Put(root, path, Object(fields)))
    requires (key in fields <==> key in a) && (key in a ==> fields[key] == a[key])
    requires after == FieldAfter(a, b, fields, key)
    ensures Reaches(root, before + DiffKey(a, b, path, key), Put(root, path, Object(after)))
    decreases Object(a), 1, 0
  {
    var mid := Put(root, path, Object(fields));
    AtPut(root, path, Object(fields));
    PutPut(root, path, Object(fields), Object(after));
    DiffKeyReaches(mid, path, a, b, fields, after, key);
    ReachesConcat(root, before, mid, DiffKey(a, b, path, key), Put(root, path, Object(after)));
  }

  lemma {:induction false} DiffKeyReaches(mid: Value, path: Path, a: map<string, Value>, b: map<string, Value>,
                       fields: map<string, Value>, after: map<string, Value>, key: string)
    requires At(mid, path) == Some(Object(fields)) && key in a.Keys + b.Keys
    requires (key in fields <==> key in a) && (key in a ==> fields[key] == a[key])
    requires after == FieldAfter(a, b, fields, key)
    ensures Reaches(mid, DiffKey(a, b, path, key), Put(mid, path, Object(after)))
    decreases Object(a), 0
  {
    if key in a && key in b {
      AtStep(mid, path, Key(key));
      DiffAtReaches(mid, path + [Key(key)], a[key], b[key]);
    } else {
      ReachesLeaf(mid, path, Key(key), DiffKey(a, b, path, key)[0]);
    }
  }

  // ---------- main results ----------

  /**
   The patches of a diff, run on the old value, give the new one but for the signs of float zeros. No panic is
   reached in Rust and no exception is thrown in TypeScript, and the two interpreters agree.
   */
  lemma DiffThenApply(prev: Value, next: Value)
    ensures ApplyPatches(prev, DiffValue(prev, next)).Some?
    ensures Normal(ApplyPatches(prev, DiffValue(prev, next)).value) == Normal(next)
    ensures TsApplyPatches(prev, DiffValue(prev, next)) == Done(ApplyPatches(prev, DiffValue(prev, next)).value)
  {
    DiffAtReaches(prev, [], prev, next);
    ReachesApplies(prev, DiffValue(prev, next), Rebuilt(prev, next));
    RebuiltIsNext(prev, next);
  }

  /** A diff is empty exactly when the two values are the same but for the signs of float zeros. */
  lemma DiffEmptyIffEqual(prev: Value, next: Value)
    ensures DiffValue(prev, next) == [] <==> Normal(prev) == Normal(next)
  {
    EqIsNormal(prev, next);
    if DiffValue(prev, next) == [] { DiffThenApply(prev, next); }
  }
}
