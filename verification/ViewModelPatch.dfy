/** Patches on JSON values. */
module ViewModelPatch {
  import opened Wrappers

  // The Rust interpreter of the engine kernel, and the TypeScript one that the replica runs.

  // ---------- JSON values ----------

  /** A JSON number. A finite double is its sign and its other 63 bits, so both zeros exist. */
  datatype Number = PosInt(n: nat) | NegInt(m: nat) | Float(negative: bool, magnitude: nat)

  datatype Value =
    | Null
    | Bool(b: bool)
    | Num(num: Number)
    | Str(s: string)
    | Array(items: seq<Value>)
    | Object(fields: map<string, Value>)

  predicate NumberEq(a: Number, b: Number) {
    a == b || (a.Float? && b.Float? && a.magnitude == 0 && b.magnitude == 0)
  }

  /** The `==` of JSON values: structural, but the two float zeros are equal. */
  predicate Eq(a: Value, b: Value) {
    match (a, b)
    case (Num(x), Num(y)) => NumberEq(x, y)
    case (Array(x), Array(y)) => |x| == |y| && forall i :: 0 <= i < |x| ==> Eq(x[i], y[i])
    case (Object(x), Object(y)) => x.Keys == y.Keys && forall k <- x.Keys :: k in y && Eq(x[k], y[k])
    case (_, _) => a == b
  }

  /** The value with every negative float zero, at any depth, replaced by the positive one. */
  function Normal(v: Value): Value {
    match v
    case Num(Float(_, magnitude)) => if magnitude == 0 then Num(Float(false, 0)) else v
    case Array(items) => Array(seq(|items|, i requires 0 <= i < |items| => Normal(items[i])))
    case Object(fields) => Object(map k | k in fields :: Normal(fields[k]))
    case _ => v
  }

  /** Two values are equal exactly when nothing but the signs of float zeros tells them apart. */
  lemma {:induction false} EqIsNormal(a: Value, b: Value)
    ensures Eq(a, b) <==> Normal(a) == Normal(b)
  {
    match (a, b)
    case (Array(x), Array(y)) =>
      forall i | 0 <= i < |x| && i < |y| ensures Eq(x[i], y[i]) <==> Normal(x[i]) == Normal(y[i]) {
        EqIsNormal(x[i], y[i]);
      }
      ArraysNormal(x, y);
    case (Object(x), Object(y)) =>
      forall k | k in x && k in y ensures Eq(x[k], y[k]) <==> Normal(x[k]) == Normal(y[k]) {
        EqIsNormal(x[k], y[k]);
      }
      ObjectsNormal(x, y);
    case _ =>
  }

  lemma ArraysNormal(x: seq<Value>, y: seq<Value>)
    ensures Normal(Array(x)) == Normal(Array(y)) <==>
      |x| == |y| && forall i :: 0 <= i < |x| ==> Normal(x[i]) == Normal(y[i])
  {
    var p, q := Normal(Array(x)).items, Normal(Array(y)).items;
    assert |p| == |x| && |q| == |y|;
    if p == q {
      forall i | 0 <= i < |x| ensures Normal(x[i]) == Normal(y[i]) { assert p[i] == q[i]; }
    } else if |x| == |y| {
      assert exists i :: 0 <= i < |p| && p[i] != q[i];
    }
  }

  lemma ObjectsNormal(x: map<string, Value>, y: map<string, Value>)
    ensures Normal(Object(x)) == Normal(Object(y)) <==>
      x.Keys == y.Keys && forall k :: k in x && k in y ==> Normal(x[k]) == Normal(y[k])
  {
    var p, q := Normal(Object(x)).fields, Normal(Object(y)).fields;
    assert p.Keys == x.Keys && q.Keys == y.Keys;
    if p == q {
      forall k | k in x && k in y ensures Normal(x[k]) == Normal(y[k]) { assert p[k] == q[k]; }
    }
  }

  // ---------- patches ----------

  datatype Segment = Index(i: nat) | Key(key: string)
  type Path = seq<Segment>

  datatype Patch =
    | Replace(path: Path, value: Value)
    | Remove(path: Path)
    | Insert(path: Path, value: Value)

  function Digit(d: nat): char
    requires d < 10
  {
    '0' + d as char
  }

  function NatToString(n: nat): string {
    if n < 10 then [Digit(n)] else NatToString(n / 10) + [Digit(n % 10)]
  }

  function ParseDigits(s: string, acc: nat): Option<nat> {
    if s == [] then Some(acc)
    else if '0' <= s[0] <= '9' then ParseDigits(s[1..], acc * 10 + (s[0] - '0') as nat)
    else None
  }

  /** Decimal text to number: an optional plus sign, then at least one digit. */
  function ParseUsize(s: string): Option<nat> {
    var digits := if s != [] && s[0] == '+' then s[1..] else s;
    if digits == [] then None else ParseDigits(digits, 0)
  }

  function SegmentIndex(seg: Segment): Option<nat> {
    match seg
    case Index(i) => Some(i)
    case Key(s) => ParseUsize(s)
  }

  function SegmentKey(seg: Segment): string {
    match seg
    case Key(s) => s
    case Index(i) => NatToString(i)
  }

  // ---------- the Rust interpreter; None is a panic ----------

  function ApplyLeafArray(arr: seq<Value>, idx: nat, patch: Patch): Option<seq<Value>> {
    match patch
    case Remove(_) => if idx < |arr| then Some(arr[..idx] + arr[idx + 1..]) else None
    case Insert(_, value) => if idx <= |arr| then Some(arr[..idx] + [value] + arr[idx..]) else None
    case Replace(_, value) =>
      if idx == |arr| then Some(arr + [value])
      else if idx < |arr| then Some(arr[idx := value])
      else None
  }

  function ApplyLeafObject(obj: map<string, Value>, key: string, patch: Patch): map<string, Value> {
    match patch
    case Remove(_) => obj - {key}
    case Insert(_, value) => obj[key := value]
    case Replace(_, value) => obj[key := value]
  }

  function MutateAt(node: Value, path: Path, depth: nat, patch: Patch): Option<Value>
    requires depth < |path|
    decreases |path| - depth
  {
    var head := path[depth];
    var isLast := depth + 1 == |path|;
    match node
    case Array(items) =>
      var idx := SegmentIndex(head);
      if idx == None then None
      else if isLast then
        (match ApplyLeafArray(items, idx.value, patch)
         case None => None
         case Some(arr) => Some(Array(arr)))
      else
        var child := if idx.value < |items| then items[idx.value] else Null;
        (match MutateAt(child, path, depth + 1, patch)
         case None => None
         case Some(v) => if idx.value < |items| then Some(Array(items[idx.value := v])) else None)
    case Object(fields) =>
      var key := SegmentKey(head);
      if isLast then Some(Object(ApplyLeafObject(fields, key, patch)))
      else
        var child := if key in fields then fields[key] else Null;
        (match MutateAt(child, path, depth + 1, patch)
         case None => None
         case Some(v) => Some(Object(fields[key := v])))
    case _ => None
  }

  function ApplyOne(root: Value, patch: Patch): Option<Value> {
    if patch.path == [] then
      match patch
      case Replace(_, value) => Some(value)
      case Insert(_, value) => Some(value)
      case Remove(_) => None
    else MutateAt(root, patch.path, 0, patch)
  }

  function ApplyPatches(value: Value, patches: seq<Patch>): Option<Value>
    decreases |patches|
  {
    if patches == [] then Some(value)
    else
      match ApplyOne(value, patches[0])
      case None => None
      case Some(next) => ApplyPatches(next, patches[1..])
  }

  /** The patch loop: threads one value through the patches and stops at a panic. */
  method ApplyPatchLoop(value: Value, patches: seq<Patch>) returns (result: Option<Value>)
    ensures result == ApplyPatches(value, patches)
  {
    var next := value;
    for k := 0 to |patches|
      invariant ApplyPatches(value, patches) == ApplyPatches(next, patches[k..])
    {
      var step := ApplyOne(next, patches[k]);
      assert patches[k..][0] == patches[k] && patches[k..][1..] == patches[k + 1..];
      if step == None { return None; }
      next := step.value;
    }
    return Some(next);
  }

  // ---------- the TypeScript interpreter ----------

  /** `Throws` is an exception; `NotJson` is an array with a hole, or a string index into an array. */
  datatype TsResult = Done(value: Value) | Throws | NotJson

  function TsApplyLeafArray(arr: seq<Value>, idx: nat, patch: Patch): TsResult {
    match patch
    case Remove(_) => Done(Array(if idx < |arr| then arr[..idx] + arr[idx + 1..] else arr))
    case Insert(_, value) =>
      Done(Array(if idx <= |arr| then arr[..idx] + [value] + arr[idx..] else arr + [value]))
    case Replace(_, value) =>
      if idx == |arr| then Done(Array(arr + [value]))
      else if idx < |arr| then Done(Array(arr[idx := value]))
      else NotJson
  }

  function TsMutateAt(node: Value, path: Path, depth: nat, patch: Patch): TsResult
    requires depth < |path|
    decreases |path| - depth
  {
    var head := path[depth];
    var isLast := depth == |path| - 1;
    match node
    case Array(items) =>
      if head.Key? then NotJson
      else if isLast then TsApplyLeafArray(items, head.i, patch)
      else if head.i >= |items| then Throws
      else
        (match TsMutateAt(items[head.i], path, depth + 1, patch)
         case Done(v) => Done(Array(items[head.i := v]))
         case other => other)
    case Object(fields) =>
      var key := SegmentKey(head);
      if isLast then Done(Object(ApplyLeafObject(fields, key, patch)))
      else if key !in fields then Throws
      else
        (match TsMutateAt(fields[key], path, depth + 1, patch)
         case Done(v) => Done(Object(fields[key := v]))
         case other => other)
    case _ => Throws
  }

  function TsApplyOne(root: Value, patch: Patch): TsResult {
    if patch.path == [] then
      if patch.Replace? then Done(patch.value) else Throws
    else TsMutateAt(root, patch.path, 0, patch)
  }

  function TsApplyPatches(vm: Value, patches: seq<Patch>): TsResult
    decreases |patches|
  {
    if patches == [] then Done(vm)
    else
      match TsApplyOne(vm, patches[0])
      case Done(next) => TsApplyPatches(next, patches[1..])
      case other => other
  }

  // ---------- positions inside a value ----------

  /** The child a segment names: an index at an array, a key at an object. */
  function Child(node: Value, seg: Segment): Option<Value> {
    match (node, seg)
    case (Array(items), Index(i)) => if i < |items| then Some(items[i]) else None
    case (Object(fields), Key(k)) => if k in fields then Some(fields[k]) else None
    case (_, _) => None
  }

  function PutChild(node: Value, seg: Segment, v: Value): Value
    requires Child(node, seg).Some?
  {
    match node
    case Array(items) => Array(items[seg.i := v])
    case Object(fields) => Object(fields[seg.key := v])
  }

  function At(node: Value, path: Path): Option<Value> {
    if path == [] then Some(node)
    else
      match Child(node, path[0])
      case None => None
      case Some(c) => At(c, path[1..])
  }

  function Put(node: Value, path: Path, v: Value): Value
    requires At(node, path).Some?
  {
    if path == [] then v
    else PutChild(node, path[0], Put(Child(node, path[0]).value, path[1..], v))
  }

  /** The segment suits the container. */
  predicate SegmentFits(c: Value, seg: Segment) {
    (c.Array? && seg.Index?) || (c.Object? && seg.Key?)
  }

  /** What a patch does to the container its last segment points into. */
  function ApplyLeaf(c: Value, seg: Segment, patch: Patch): Option<Value>
    requires SegmentFits(c, seg)
  {
    match c
    case Object(fields) => Some(Object(ApplyLeafObject(fields, seg.key, patch)))
    case Array(items) =>
      match ApplyLeafArray(items, seg.i, patch)
      case None => None
      case Some(arr) => Some(Array(arr))
  }

  lemma {:induction false} LeafInContext(node: Value, path: Path, depth: nat, seg: Segment, patch: Patch)
    requires depth <= |path| && At(node, path[depth..]).Some?
    requires SegmentFits(At(node, path[depth..]).value, seg)
    requires ApplyLeaf(At(node, path[depth..]).value, seg, patch).Some?
    ensures
      var leaf := ApplyLeaf(At(node, path[depth..]).value, seg, patch).value;
      && MutateAt(node, path + [seg], depth, patch) == Some(Put(node, path[depth..], leaf))
      && TsMutateAt(node, path + [seg], depth, patch) == Done(Put(node, path[depth..], leaf))
    decreases |path| - depth
  {
    var full := path + [seg];
    if depth < |path| {
      assert full[depth] == path[depth] == path[depth..][0];
      assert path[depth..][1..] == path[depth + 1..];
      LeafInContext(Child(node, path[depth]).value, path, depth + 1, seg, patch);
    } else {
      assert path[depth..] == [] && full[depth] == seg;
    }
  }

  lemma {:induction false} AtPut(node: Value, path: Path, v: Value)
    requires At(node, path).Some?
    ensures At(Put(node, path, v), path) == Some(v)
  {
    if path == [] {
    } else {
      AtPut(Child(node, path[0]).value, path[1..], v);
    }
  }

  lemma {:induction false} PutPut(node: Value, path: Path, v: Value, w: Value)
    requires At(node, path).Some?
    ensures At(Put(node, path, v), path).Some?
    ensures Put(Put(node, path, v), path, w) == Put(node, path, w)
  {
    AtPut(node, path, v);
    if path == [] {
    } else {
      PutPut(Child(node, path[0]).value, path[1..], v, w);
    }
  }

  lemma {:induction false} PutSame(node: Value, path: Path)
    requires At(node, path).Some?
    ensures Put(node, path, At(node, path).value) == node
  {
    if path == [] {
    } else {
      PutSame(Child(node, path[0]).value, path[1..]);
      match node
      case Array(items) => assert items[path[0].i := items[path[0].i]] == items;
      case Object(fields) => assert fields[path[0].key := fields[path[0].key]] == fields;
    }
  }

  lemma {:induction false} AtStep(node: Value, path: Path, seg: Segment)
    requires At(node, path).Some? && Child(At(node, path).value, seg).Some?
    ensures At(node, path + [seg]) == Child(At(node, path).value, seg)
    ensures forall v :: Put(node, path + [seg], v) == Put(node, path, PutChild(At(node, path).value, seg, v))
  {
    var full := path + [seg];
    if path == [] {
      assert full[1..] == [];
    } else {
      assert full[0] == path[0] && full[1..] == path[1..] + [seg];
      AtStep(Child(node, path[0]).value, path[1..], seg);
    }
  }

  // ---------- equal values stay equal under the same patches ----------

  /** Patching two equal documents panics on both or leaves equal documents. */
  ghost predicate SameOutcome(a: Option<Value>, b: Option<Value>) {
    a.Some? == b.Some? && (a.Some? ==> Normal(a.value) == Normal(b.value))
  }

  lemma LeafArrayCongruent(x: seq<Value>, y: seq<Value>, i: nat, patch: Patch)
    requires Normal(Array(x)) == Normal(Array(y))
    ensures
      var p, q := ApplyLeafArray(x, i, patch), ApplyLeafArray(y, i, patch);
      p.Some? == q.Some? && (p.Some? ==> Normal(Array(p.value)) == Normal(Array(q.value)))
  {
    hide Normal;
    ArraysNormal(x, y);
    var p, q := ApplyLeafArray(x, i, patch), ApplyLeafArray(y, i, patch);
    if p.Some? { ArraysNormal(p.value, q.value); }
  }

  lemma LeafObjectCongruent(x: map<string, Value>, y: map<string, Value>, key: string, patch: Patch)
    requires Normal(Object(x)) == Normal(Object(y))
    ensures Normal(Object(ApplyLeafObject(x, key, patch))) == Normal(Object(ApplyLeafObject(y, key, patch)))
  {
    hide Normal;
    ObjectsNormal(x, y);
    ObjectsNormal(ApplyLeafObject(x, key, patch), ApplyLeafObject(y, key, patch));
  }

  /** One more child that is equal leaves equal containers. */
  lemma ItemCongruent(x: seq<Value>, y: seq<Value>, i: nat, v: Value, w: Value)
    requires Normal(Array(x)) == Normal(Array(y)) && i < |x| && Normal(v) == Normal(w)
    ensures |x| == |y| && Normal(x[i]) == Normal(y[i]) && Normal(Array(x[i := v])) == Normal(Array(y[i := w]))
  {
    hide Normal;
    ArraysNormal(x, y);
    ArraysNormal(x[i := v], y[i := w]);
  }

  lemma FieldCongruent(x: map<string, Value>, y: map<string, Value>, key: string, v: Value, w: Value)
    requires Normal(Object(x)) == Normal(Object(y)) && Normal(v) == Normal(w)
    ensures x.Keys == y.Keys && (key in x ==> Normal(x[key]) == Normal(y[key]))
    ensures Normal(Object(x[key := v])) == Normal(Object(y[key := w]))
  {
    hide Normal;
    ObjectsNormal(x, y);
    ObjectsNormal(x[key := v], y[key := w]);
  }

  lemma SameKind(a: Value, b: Value)
    requires Normal(a) == Normal(b)
    ensures a.Array? == b.Array? && a.Object? == b.Object?
    ensures a.Array? ==> |a.items| == |b.items|
  {
    if a.Array? && b.Array? { ArraysNormal(a.items, b.items); }
  }

  lemma {:induction false} MutateAtCongruent(a: Value, b: Value, path: Path, depth: nat, patch: Patch)
    requires depth < |path| && Normal(a) == Normal(b)
    ensures SameOutcome(MutateAt(a, path, depth, patch), MutateAt(b, path, depth, patch))
    decreases |path| - depth
  {
    hide Normal, ApplyLeafArray, ApplyLeafObject, SegmentIndex, SegmentKey;
    var isLast := depth + 1 == |path|;
    SameKind(a, b);
    if a.Array? {
      var x, y, idx := a.items, b.items, SegmentIndex(path[depth]);
      if idx.Some? {
        if isLast { LeafArrayCongruent(x, y, idx.value, patch); }
        else if idx.value < |x| {
          ItemCongruent(x, y, idx.value, Null, Null);
          MutateAtCongruent(x[idx.value], y[idx.value], path, depth + 1, patch);
          var v, w := MutateAt(x[idx.value], path, depth + 1, patch), MutateAt(y[idx.value], path, depth + 1, patch);
          if v.Some? { ItemCongruent(x, y, idx.value, v.value, w.value); }
        }
      }
    } else if a.Object? {
      var x, y, key := a.fields, b.fields, SegmentKey(path[depth]);
      FieldCongruent(x, y, key, Null, Null);
      if isLast { LeafObjectCongruent(x, y, key, patch); }
      else if key in x {
        MutateAtCongruent(x[key], y[key], path, depth + 1, patch);
        var v, w := MutateAt(x[key], path, depth + 1, patch), MutateAt(y[key], path, depth + 1, patch);
        if v.Some? { FieldCongruent(x, y, key, v.value, w.value); }
      }
    }
  }

  lemma {:induction false} ApplyCongruent(a: Value, b: Value, patches: seq<Patch>)
    requires Normal(a) == Normal(b)
    ensures SameOutcome(ApplyPatches(a, patches), ApplyPatches(b, patches))
    decreases |patches|
  {
    hide Normal, MutateAt;
    if patches == [] {
    } else {
      var p := patches[0];
      if p.path != [] { MutateAtCongruent(a, b, p.path, 0, p); }
      if ApplyOne(a, p).Some? { ApplyCongruent(ApplyOne(a, p).value, ApplyOne(b, p).value, patches[1..]); }
    }
  }

  ghost predicate SameTsOutcome(a: TsResult, b: TsResult) {
    a.Done? == b.Done? && (a.Done? ==> Normal(a.value) == Normal(b.value))
  }

  lemma TsLeafCongruent(x: seq<Value>, y: seq<Value>, i: nat, patch: Patch)
    requires Normal(Array(x)) == Normal(Array(y))
    ensures SameTsOutcome(TsApplyLeafArray(x, i, patch), TsApplyLeafArray(y, i, patch))
  {
    hide Normal;
    ArraysNormal(x, y);
    var p, q := TsApplyLeafArray(x, i, patch), TsApplyLeafArray(y, i, patch);
    if p.Done? { ArraysNormal(p.value.items, q.value.items); }
  }

  lemma {:induction false} TsMutateAtCongruent(a: Value, b: Value, path: Path, depth: nat, patch: Patch)
    requires depth < |path| && Normal(a) == Normal(b)
    ensures SameTsOutcome(TsMutateAt(a, path, depth, patch), TsMutateAt(b, path, depth, patch))
    decreases |path| - depth
  {
    hide Normal, TsApplyLeafArray, ApplyLeafObject, SegmentKey;
    var head, isLast := path[depth], depth == |path| - 1;
    SameKind(a, b);
    if a.Array? && head.Index? {
      var x, y := a.items, b.items;
      if isLast { TsLeafCongruent(x, y, head.i, patch); }
      else if head.i < |x| {
        ItemCongruent(x, y, head.i, Null, Null);
        TsMutateAtCongruent(x[head.i], y[head.i], path, depth + 1, patch);
        var v, w := TsMutateAt(x[head.i], path, depth + 1, patch), TsMutateAt(y[head.i], path, depth + 1, patch);
        if v.Done? { ItemCongruent(x, y, head.i, v.value, w.value); }
      }
    } else if a.Object? {
      var x, y, key := a.fields, b.fields, SegmentKey(head);
      FieldCongruent(x, y, key, Null, Null);
      if isLast { LeafObjectCongruent(x, y, key, patch); }
      else if key in x {
        TsMutateAtCongruent(x[key], y[key], path, depth + 1, patch);
        var v, w := TsMutateAt(x[key], path, depth + 1, patch), TsMutateAt(y[key], path, depth + 1, patch);
        if v.Done? { FieldCongruent(x, y, key, v.value, w.value); }
      }
    }
  }

  lemma {:induction false} TsApplyCongruent(a: Value, b: Value, patches: seq<Patch>)
    requires Normal(a) == Normal(b)
    ensures SameTsOutcome(TsApplyPatches(a, patches), TsApplyPatches(b, patches))
    decreases |patches|
  {
    hide Normal, TsMutateAt;
    if patches == [] {
    } else {
      var p := patches[0];
      if p.path != [] { TsMutateAtCongruent(a, b, p.path, 0, p); }
      if TsApplyOne(a, p).Done? {
        TsApplyCongruent(TsApplyOne(a, p).value, TsApplyOne(b, p).value, patches[1..]);
      }
    }
  }

  lemma {:induction false} TsApplyConcat(a: Value, p: seq<Patch>, q: seq<Patch>)
    requires TsApplyPatches(a, p).Done?
    ensures TsApplyPatches(a, p + q) == TsApplyPatches(TsApplyPatches(a, p).value, q)
    decreases |p|
  {
    if p == [] {
      assert p + q == q;
    } else {
      assert (p + q)[0] == p[0] && (p + q)[1..] == p[1..] + q;
      TsApplyConcat(TsApplyOne(a, p[0]).value, p[1..], q);
    }
  }

  // ---------- where the two interpreters differ ----------

  /** On its way along the path, the patch meets an array with a text for its position. */
  predicate TextAtArray(node: Value, path: Path, depth: nat)
    requires depth < |path|
    decreases |path| - depth
  {
    match node
    case Array(items) =>
      path[depth].Key? || (depth + 1 < |path| && path[depth].i < |items|
                           && TextAtArray(items[path[depth].i], path, depth + 1))
    case Object(fields) =>
      var key := SegmentKey(path[depth]);
      depth + 1 < |path| && key in fields && TextAtArray(fields[key], path, depth + 1)
    case _ => false
  }

  /** It removes or inserts behind the end of an array. */
  predicate BehindEnd(node: Value, path: Path, depth: nat, patch: Patch)
    requires depth < |path|
    decreases |path| - depth
  {
    match node
    case Array(items) =>
      && path[depth].Index?
      && var i := path[depth].i;
         if depth + 1 == |path| then (patch.Remove? && i >= |items|) || (patch.Insert? && i > |items|)
         else i < |items| && BehindEnd(items[i], path, depth + 1, patch)
    case Object(fields) =>
      var key := SegmentKey(path[depth]);
      depth + 1 < |path| && key in fields && BehindEnd(fields[key], path, depth + 1, patch)
    case _ => false
  }

  predicate SameResult(rust: Option<Value>, ts: TsResult) {
    if rust.Some? then ts == Done(rust.value) else !ts.Done?
  }

  lemma {:induction false} MutateAgrees(node: Value, path: Path, depth: nat, patch: Patch)
    requires depth < |path|
    ensures
      var rust, ts := MutateAt(node, path, depth, patch), TsMutateAt(node, path, depth, patch);
      && (TextAtArray(node, path, depth) ==> !ts.Done?)
      && (!TextAtArray(node, path, depth) ==>
            if BehindEnd(node, path, depth, patch) then rust.None? && ts.Done? else SameResult(rust, ts))
    decreases |path| - depth
  {
    hide NatToString, ParseUsize;
    if depth + 1 < |path| {
      match node
      case Array(items) =>
        if path[depth].Index? && path[depth].i < |items| { MutateAgrees(items[path[depth].i], path, depth + 1, patch); }
        else if path[depth].Index? { MutateAgrees(Null, path, depth + 1, patch); }
      case Object(fields) =>
        var key := SegmentKey(path[depth]);
        MutateAgrees(if key in fields then fields[key] else Null, path, depth + 1, patch);
      case _ =>
    }
  }

  /**
   The two interpreters give the same result for a patch, or both refuse it, exactly when it does not insert at the
   root, does not reach behind the end of an array, and names no array position by a text that Rust accepts.
   */
  lemma InterpretersAgree(root: Value, patch: Patch)
    ensures SameResult(ApplyOne(root, patch), TsApplyOne(root, patch)) <==>
      if patch.path == [] then !patch.Insert?
      else if TextAtArray(root, patch.path, 0) then ApplyOne(root, patch).None?
      else !BehindEnd(root, patch.path, 0, patch)
  {
    hide MutateAt, TsMutateAt, TextAtArray, BehindEnd;
    if patch.path != [] { MutateAgrees(root, patch.path, 0, patch); }
  }

  // ---------- positions as texts ----------

  lemma {:induction false} ParseDigitsMore(s: string, d: nat, acc: nat)
    requires d < 10 && ParseDigits(s, acc).Some?
    ensures ParseDigits(s + [Digit(d)], acc) == Some(ParseDigits(s, acc).value * 10 + d)
    decreases |s|
  {
    var t := s + [Digit(d)];
    if s == [] {
      assert t[1..] == [];
      assert ParseDigits(t[1..], acc * 10 + d) == Some(acc * 10 + d);
    } else {
      assert t[1..] == s[1..] + [Digit(d)];
      ParseDigitsMore(s[1..], d, acc * 10 + (s[0] - '0') as nat);
    }
  }

  lemma {:induction false} DecimalParses(n: nat)
    ensures NatToString(n) != "" && NatToString(n)[0] != '+' && ParseDigits(NatToString(n), 0) == Some(n)
    decreases n
  {
    if n < 10 {
      assert "" + NatToString(n) == NatToString(n);
      ParseDigitsMore("", n, 0);
    } else {
      DecimalParses(n / 10);
      ParseDigitsMore(NatToString(n / 10), n % 10, 0);
    }
  }

  lemma {:induction false} OnlyDigitsParse(s: string, acc: nat)
    ensures ParseDigits(s, acc).Some? <==> forall i :: 0 <= i < |s| ==> '0' <= s[i] <= '9'
    decreases |s|
  {
    if s != [] && '0' <= s[0] <= '9' {
      OnlyDigitsParse(s[1..], acc * 10 + (s[0] - '0') as nat);
      assert forall i :: 0 < i < |s| ==> s[i] == s[1..][i - 1];
    }
  }

  /** A number's decimal text names the number, with a plus sign or without. */
  lemma TextNamesIndex(i: nat)
    ensures ParseUsize(NatToString(i)) == Some(i) && ParseUsize("+" + NatToString(i)) == Some(i)
    ensures SegmentIndex(Key(SegmentKey(Index(i)))) == SegmentIndex(Index(i)) == Some(i)
  {
    hide NatToString;
    DecimalParses(i);
    assert ("+" + NatToString(i))[1..] == NatToString(i);
  }

  /** A text names a position exactly when it has figures and, but for a plus sign in front, nothing else. */
  lemma TextsThatName(s: string)
    ensures ParseUsize(s).Some? <==>
      (s != "" && forall i :: 0 <= i < |s| ==> '0' <= s[i] <= '9')
      || (|s| > 1 && s[0] == '+' && forall i :: 1 <= i < |s| ==> '0' <= s[i] <= '9')
  {
    hide ParseDigits;
    OnlyDigitsParse(s, 0);
    if s != "" && s[0] == '+' {
      OnlyDigitsParse(s[1..], 0);
      assert forall i :: 1 <= i < |s| ==> s[i] == s[1..][i - 1];
      assert forall i :: 0 <= i < |s| - 1 ==> s[1..][i] == s[i + 1];
    }
  }
}
