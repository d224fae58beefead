/** The hash GROUP BY of the executor. */
module HashGroupBy {
  import opened LittleEndian
  import opened Ordering
  import opened Words
  import opened Wrappers

  // Group keys are two hashes of a byte string; most of what follows is about keys that collide.

  type Bytes = seq<byte>

  const SECOND_SEED: nat := 0x9E37_79B9_7F4A_7C15

  datatype GroupKey = GroupKey(a: nat, b: nat)

  /** The hash function: bytes and a seed. Nothing is known about it. */
  type Hash = (Bytes, nat) -> nat

  function BaseKey(hash: Hash, repr: Bytes): GroupKey {
    GroupKey(hash(repr, 0), hash(repr, SECOND_SEED))
  }

  function Candidate(hash: Hash, base: GroupKey, repr: Bytes, seed: nat): GroupKey {
    GroupKey(base.a, hash(repr, Xor(base.b, seed)))
  }

  /** The first candidate nobody holds, counting seeds up to the largest word. `None`: the search never ends. */
  function Remap(hash: Hash, base: GroupKey, repr: Bytes, existing: map<GroupKey, Bytes>,
        seed: nat): (key: Option<GroupKey>)
    requires 1 <= seed <= MAX64
    ensures key.Some? ==> key.value !in existing
    ensures key.None? <==> forall s :: seed <= s <= MAX64 ==> Candidate(hash, base, repr, s) in existing
    decreases MAX64 - seed
  {
    var candidate := Candidate(hash, base, repr, seed);
    if candidate !in existing then Some(candidate)
    else if seed == MAX64 then None
    else Remap(hash, base, repr, existing, seed + 1)
  }

  method RemapLoop(hash: Hash, base: GroupKey, repr: Bytes, existing: map<GroupKey, Bytes>)
    returns (key: Option<GroupKey>)
    ensures key == Remap(hash, base, repr, existing, 1)
  {
    hide Xor;
    var seed := 1;
    while true
      invariant 1 <= seed <= MAX64
      invariant Remap(hash, base, repr, existing, seed) == Remap(hash, base, repr, existing, 1)
      decreases MAX64 - seed
    {
      var candidate := Candidate(hash, base, repr, seed);
      if candidate !in existing { return Some(candidate); }
      if seed == MAX64 { return None; }
      seed := seed + 1;
    }
  }

  /** The key under which a row is counted. */
  function KeyFor(hash: Hash, existing: map<GroupKey, Bytes>, repr: Bytes): Option<GroupKey> {
    var base := BaseKey(hash, repr);
    if base in existing && existing[base] != repr then Remap(hash, base, repr, existing, 1) else Some(base)
  }

  function Saturated(n: nat): nat {
    if n <= MAX32 then n else MAX32
  }

  datatype Groups = Groups(counts: map<GroupKey, nat>, keys: seq<GroupKey>, repr: map<GroupKey, Bytes>)

  const NO_GROUPS := Groups(map[], [], map[])

  function Step(hash: Hash, g: Groups, repr: Bytes): Option<Groups> {
    var key := KeyFor(hash, g.repr, repr);
    if key.None? then None
    else Some(Counted(g, key.value, repr))
  }

  /** One row added to the group `key`, which is made when it is new. */
  function Counted(g: Groups, key: GroupKey, repr: Bytes): Groups {
    if key in g.counts then g.(counts := g.counts[key := Saturated(g.counts[key] + 1)])
    else Groups(g.counts[key := 1], g.keys + [key], g.repr[key := repr])
  }

  /** The state after the given rows; `None` when some collision search never ends. */
  function Run(hash: Hash, rows: seq<Bytes>): Option<Groups>
    decreases |rows|
  {
    if rows == [] then Some(NO_GROUPS)
    else
      var before := Run(hash, rows[..|rows| - 1]);
      if before.None? then None else Step(hash, before.value, rows[|rows| - 1])
  }

  /** The group key each row was counted under. */
  function Assigned(hash: Hash, rows: seq<Bytes>): (keys: seq<GroupKey>)
    requires Run(hash, rows).Some?
    ensures |keys| == |rows|
    decreases |rows|
  {
    if rows == [] then []
    else
      var front := rows[..|rows| - 1];
      Assigned(hash, front) + [KeyFor(hash, Run(hash, front).value.repr, rows[|rows| - 1]).value]
  }

  // ---------- the executor's loop ----------

  /** A row of the chunk: whether the filters select it, whether all its key columns are set, and its key bytes. */
  datatype ChunkRow = ChunkRow(selected: bool, keysSet: bool, repr: Bytes)

  function Grouped(rows: seq<ChunkRow>): seq<Bytes>
    decreases |rows|
  {
    if rows == [] then []
    else
      var last := rows[|rows| - 1];
      Grouped(rows[..|rows| - 1]) + if last.selected && last.keysSet then [last.repr] else []
  }

  lemma {:induction false} RunConcat(hash: Hash, a: seq<Bytes>, b: seq<Bytes>)
    requires Run(hash, a + b).Some?
    ensures Run(hash, a).Some?
    decreases |b|
  {
    if b == [] {
      assert a + b == a;
    } else {
      assert (a + b)[..|a + b| - 1] == a + b[..|b| - 1];
      RunConcat(hash, a, b[..|b| - 1]);
    }
  }

  lemma RunSnoc(hash: Hash, rows: seq<Bytes>, repr: Bytes)
    ensures Run(hash, rows + [repr]) ==
      if Run(hash, rows).None? then None else Step(hash, Run(hash, rows).value, repr)
  {
    assert (rows + [repr])[..|rows|] == rows;
  }

  class GroupPhase {
    var groupState: map<GroupKey, nat>
    var groupKeys: seq<GroupKey>
    var groupKeyRepr: map<GroupKey, Bytes>
    var processedRows: nat

    ghost function State(): Groups
      reads this
    {
      Groups(groupState, groupKeys, groupKeyRepr)
    }

    constructor ()
      ensures State() == NO_GROUPS && processedRows == 0
    {
      groupState, groupKeys, groupKeyRepr, processedRows := map[], [], map[], 0;
    }

    /** Counts one row. `ok` is false when the collision search never ends. */
    method ProcessRow(hash: Hash, repr: Bytes) returns (ok: bool)
      modifies this
      ensures ok <==> Step(hash, old(State()), repr).Some?
      ensures State() == if ok then Step(hash, old(State()), repr).value else old(State())
      ensures processedRows == old(processedRows)
    {
      hide Remap, Xor;
      var key := BaseKey(hash, repr);
      if key in groupKeyRepr && groupKeyRepr[key] != repr {
        var unheld := RemapLoop(hash, key, repr, groupKeyRepr);
        if unheld.None? { return false; }
        key := unheld.value;
      }
      if key !in groupState {
        groupKeys := groupKeys + [key];
        groupKeyRepr := groupKeyRepr[key := repr];
        groupState := groupState[key := 1];
      } else {
        groupState := groupState[key := Saturated(groupState[key] + 1)];
      }
      ok := true;
    }

    /** The COUNT(*) group phase of one chunk, after the chunks whose rows were `before`. */
    method ProcessChunk(hash: Hash, rows: seq<ChunkRow>, ghost before: seq<Bytes>) returns (ok: bool)
      requires Run(hash, before) == Some(State())
      modifies this
      ensures ok <==> Run(hash, before + Grouped(rows)).Some?
      ensures ok ==> Run(hash, before + Grouped(rows)) == Some(State())
      ensures ok ==> processedRows == old(processedRows) + |Grouped(rows)|
    {
      hide Run, Step;
      assert before + [] == before;
      for i := 0 to |rows|
        invariant Run(hash, before + Grouped(rows[..i])) == Some(State())
        invariant processedRows == old(processedRows) + |Grouped(rows[..i])|
      {
        assert rows[..i + 1][..i] == rows[..i];
        assert Grouped(rows[..i + 1]) ==
          Grouped(rows[..i]) + if rows[i].selected && rows[i].keysSet then [rows[i].repr] else [];
        if !rows[i].selected || !rows[i].keysSet {
          assert Grouped(rows[..i]) + [] == Grouped(rows[..i]);
          continue;
        }
        RunSnoc(hash, before + Grouped(rows[..i]), rows[i].repr);
        assert before + Grouped(rows[..i + 1]) == before + Grouped(rows[..i]) + [rows[i].repr];
        processedRows := processedRows + 1;
        ok := ProcessRow(hash, rows[i].repr);
        if !ok {
          GroupedSplit(rows, i + 1);
          var rest :| Grouped(rows) == Grouped(rows[..i + 1]) + rest;
          assert before + Grouped(rows) == before + Grouped(rows[..i + 1]) + rest;
          if Run(hash, before + Grouped(rows)).Some? { RunConcat(hash, before + Grouped(rows[..i + 1]), rest); }
          return;
        }
      }
      assert rows[..|rows|] == rows;
      ok := true;
    }
  }

  lemma {:induction false} GroupedSplit(rows: seq<ChunkRow>, i: nat)
    requires i <= |rows|
    ensures exists rest :: Grouped(rows) == Grouped(rows[..i]) + rest
    decreases |rows|
  {
    if i == |rows| {
      assert rows[..i] == rows;
      assert Grouped(rows) == Grouped(rows[..i]) + [];
    } else {
      var front := rows[..|rows| - 1];
      GroupedSplit(front, i);
      assert front[..i] == rows[..i];
      var rest :| Grouped(front) == Grouped(rows[..i]) + rest;
      var last := rows[|rows| - 1];
      var more := if last.selected && last.keysSet then [last.repr] else [];
      assert Grouped(rows) == Grouped(rows[..i]) + (rest + more);
    }
  }

  // ---------- what every run keeps ----------

  /** The three fields of the plan describe one set of groups, each with the bytes its rows share. */
  ghost predicate Consistent(g: Groups, rows: seq<Bytes>, under: seq<GroupKey>)
    requires |under| == |rows|
  {
    && g.keys == FirstSeen(under)
    && g.counts.Keys == g.repr.Keys
    && (forall k :: k in g.keys <==> k in g.repr)
    && (forall i :: 0 <= i < |rows| ==> under[i] in g.repr && g.repr[under[i]] == rows[i])
    && (forall k :: k in g.counts ==> g.counts[k] == Saturated(Occurrences(under, k)))
  }

  lemma CountedConsistent(g: Groups, rows: seq<Bytes>, under: seq<GroupKey>, key: GroupKey, repr: Bytes)
    requires |under| == |rows| && Consistent(g, rows, under)
    requires key in g.repr ==> g.repr[key] == repr
    ensures Consistent(Counted(g, key, repr), rows + [repr], under + [key])
  {
    hide Saturated, FirstSeen, Occurrences;
    var h := Counted(g, key, repr);
    FirstSeenSnoc(under, key);
    FirstSeenListsOnce(under);
    forall k | k in h.counts ensures h.counts[k] == Saturated(Occurrences(under + [key], k)) {
      OccurrencesSnoc(under, key, k);
      OccursIn(under, k);
      CountUp(Occurrences(under, k));
    }
  }

  lemma CountUp(n: nat)
    ensures Saturated(Saturated(n) + 1) == Saturated(n + 1) && Saturated(1) == 1
  {
  }

  lemma {:induction false} RunConsistent(hash: Hash, rows: seq<Bytes>)
    requires Run(hash, rows).Some?
    ensures Consistent(Run(hash, rows).value, rows, Assigned(hash, rows))
    decreases |rows|
  {
    hide Consistent, Counted, Remap;
    if rows == [] {
      NoneConsistent();
    } else {
      var front, repr := rows[..|rows| - 1], rows[|rows| - 1];
      RunConsistent(hash, front);
      var g := Run(hash, front).value;
      var key := KeyFor(hash, g.repr, repr).value;
      assert rows == front + [repr];
      CountedConsistent(g, front, Assigned(hash, front), key, repr);
    }
  }

  lemma NoneConsistent()
    ensures Consistent(NO_GROUPS, [], [])
  {
  }

  lemma {:induction false} RemapFinds(hash: Hash, base: GroupKey, repr: Bytes, existing: map<GroupKey, Bytes>,
        seed: nat) returns (s: nat)
    requires 1 <= seed <= MAX64 && Remap(hash, base, repr, existing, seed).Some?
    ensures seed <= s <= MAX64
    ensures Remap(hash, base, repr, existing, seed) == Some(GroupKey(base.a, hash(repr, Xor(base.b, s))))
    ensures forall t :: seed <= t < s ==> GroupKey(base.a, hash(repr, Xor(base.b, t))) in existing
    decreases MAX64 - seed
  {
    hide Xor;
    s := seed;
    if Candidate(hash, base, repr, seed) in existing { s := RemapFinds(hash, base, repr, existing, seed + 1); }
  }

  /**
   The key of a row: two hashes of its bytes, unless other bytes hold that key; then the second hash is taken again with
   seeds counted up from 1, until the key is free.
   */
  lemma KeyOfRow(hash: Hash, rows: seq<Bytes>, repr: Bytes) returns (s: nat)
    requires Run(hash, rows + [repr]).Some?
    ensures |Assigned(hash, rows + [repr])| == |rows| + 1 && Run(hash, rows).Some?
    ensures
      var held := Run(hash, rows).value.repr;
      var first, second := hash(repr, 0), hash(repr, 0x9E37_79B9_7F4A_7C15);
      var key := Assigned(hash, rows + [repr])[|rows|];
      if GroupKey(first, second) in held && held[GroupKey(first, second)] != repr then
        && s >= 1 && key == GroupKey(first, hash(repr, Xor(second, s))) && key !in held
        && forall t :: 1 <= t < s ==> GroupKey(first, hash(repr, Xor(second, t))) in held
      else key == GroupKey(first, second)
  {
    hide Xor;
    assert (rows + [repr])[..|rows|] == rows;
    s := 0;
    var g := Run(hash, rows).value;
    var base := BaseKey(hash, repr);
    if base in g.repr && g.repr[base] != repr { s := RemapFinds(hash, base, repr, g.repr, 1); }
  }

  // ---------- main results ----------

  /** Rows counted under one key have the same key bytes, whatever the hash function does. */
  lemma NeverMixed(hash: Hash, rows: seq<Bytes>, i: nat, j: nat)
    requires Run(hash, rows).Some? && i < |rows| && j < |rows|
    requires Assigned(hash, rows)[i] == Assigned(hash, rows)[j]
    ensures rows[i] == rows[j]
  {
    hide Run, Assigned;
    RunConsistent(hash, rows);
  }

  /** `group_keys` lists every group once, in the order the groups were first seen. */
  lemma KeysInFirstSeenOrder(hash: Hash, rows: seq<Bytes>)
    requires Run(hash, rows).Some?
    ensures
      var g := Run(hash, rows).value;
      && g.keys == FirstSeen(Assigned(hash, rows))
      && (forall k :: k in g.keys <==> k in g.counts)
      && (forall i, j :: 0 <= i < j < |g.keys| ==> g.keys[i] != g.keys[j])
  {
    hide Run, Assigned;
    RunConsistent(hash, rows);
    FirstSeenListsOnce(Assigned(hash, rows));
  }

  /** The counts of the groups in list order, added up. */
  function SumOver(counts: map<GroupKey, nat>, keys: seq<GroupKey>): nat
    requires forall k :: k in keys ==> k in counts
    decreases |keys|
  {
    if keys == [] then 0
    else
      var front := keys[..|keys| - 1];
      assert keys == front + [keys[|keys| - 1]];
      SumOver(counts, front) + counts[keys[|keys| - 1]]
  }

  /** No group has more rows than a 32-bit count can say. */
  ghost predicate NoneSaturates(keys: seq<GroupKey>, under: seq<GroupKey>) {
    forall k :: k in keys ==> Occurrences(under, k) <= MAX32
  }

  function Total(keys: seq<GroupKey>, under: seq<GroupKey>): nat
    decreases |keys|
  {
    if keys == [] then 0
    else Total(keys[..|keys| - 1], under) + Occurrences(under, keys[|keys| - 1])
  }

  lemma {:induction false} TotalSnoc(keys: seq<GroupKey>, under: seq<GroupKey>, k: GroupKey)
    requires forall i, j :: 0 <= i < j < |keys| ==> keys[i] != keys[j]
    ensures Total(keys, under + [k]) == Total(keys, under) + if k in keys then 1 else 0
    decreases |keys|
  {
    assert (under + [k])[..|under|] == under;
    if keys == [] {
    } else {
      TotalSnoc(keys[..|keys| - 1], under, k);
      assert keys == keys[..|keys| - 1] + [keys[|keys| - 1]];
    }
  }

  lemma {:induction false} TotalOfFirstSeen(under: seq<GroupKey>)
    ensures Total(FirstSeen(under), under) == |under|
    decreases |under|
  {
    if under == [] {
    } else {
      var front, k := under[..|under| - 1], under[|under| - 1];
      TotalOfFirstSeen(front);
      FirstSeenListsOnce(front);
      assert under == front + [k];
      TotalSnoc(FirstSeen(front), front, k);
      if k !in FirstSeen(front) {
        assert (FirstSeen(front) + [k])[..|FirstSeen(front)|] == FirstSeen(front);
        OccursIn(front, k);
      }
    }
  }

  lemma {:induction false} SumOverTotal(counts: map<GroupKey, nat>, keys: seq<GroupKey>, under: seq<GroupKey>)
    requires forall k :: k in keys ==> k in counts && counts[k] == Saturated(Occurrences(under, k))
    ensures SumOver(counts, keys) <= Total(keys, under)
    ensures SumOver(counts, keys) == Total(keys, under) <==> NoneSaturates(keys, under)
    decreases |keys|
  {
    hide Occurrences;
    if keys == [] {
    } else {
      var front, k := keys[..|keys| - 1], keys[|keys| - 1];
      assert keys == front + [k];
      SumOverTotal(counts, front, under);
    }
  }

  /** The groups whose bytes are `repr`. */
  ghost function GroupsOf(g: Groups, repr: Bytes): set<GroupKey> {
    set k | k in g.repr && g.repr[k] == repr
  }

  /** The bytes hold their own base key, so no row with them is ever moved. */
  ghost predicate HoldsBase(hash: Hash, g: Groups, repr: Bytes) {
    BaseKey(hash, repr) in g.repr && g.repr[BaseKey(hash, repr)] == repr
  }

  /** What the groups of `s` number after `n` rows with those bytes. */
  ghost predicate Numbered(hash: Hash, g: Groups, s: Bytes, n: nat) {
    && g.counts.Keys == g.repr.Keys
    && |GroupsOf(g, s)| == (if HoldsBase(hash, g, s) then 1 else n)
    && (n > 0 ==> BaseKey(hash, s) in g.repr)
    && (HoldsBase(hash, g, s) ==> n > 0)
  }

  lemma GroupAdded(g: Groups, h: Groups, key: GroupKey, repr: Bytes, s: Bytes)
    requires key !in g.repr && h.repr == g.repr[key := repr]
    ensures repr == s ==> GroupsOf(h, s) == GroupsOf(g, s) + {key} && key !in GroupsOf(g, s)
    ensures repr != s ==> GroupsOf(h, s) == GroupsOf(g, s)
  {
  }

  lemma StepNumbered(hash: Hash, g: Groups, repr: Bytes, s: Bytes, n: nat)
    requires Numbered(hash, g, s, n) && Step(hash, g, repr).Some?
    ensures Numbered(hash, Step(hash, g, repr).value, s, if repr == s then n + 1 else n)
  {
    hide Remap, Saturated, GroupsOf, BaseKey;
    var h := Step(hash, g, repr).value;
    var key := KeyFor(hash, g.repr, repr).value;
    if key in g.counts {
      assert h.repr == g.repr;
      assert HoldsBase(hash, g, repr);
      SameGroups(g, h, s);
    } else {
      GroupAdded(g, h, key, repr, s);
    }
  }

  lemma SameGroups(g: Groups, h: Groups, s: Bytes)
    requires g.repr == h.repr
    ensures GroupsOf(g, s) == GroupsOf(h, s)
  {
  }

  lemma {:induction false} RunNumbered(hash: Hash, rows: seq<Bytes>, s: Bytes)
    requires Run(hash, rows).Some?
    ensures Numbered(hash, Run(hash, rows).value, s, Occurrences(rows, s))
    decreases |rows|
  {
    hide Step, Numbered;
    if rows == [] {
      NoneNumbered(hash, s);
    } else {
      RunNumbered(hash, rows[..|rows| - 1], s);
      StepNumbered(hash, Run(hash, rows[..|rows| - 1]).value, rows[|rows| - 1], s, Occurrences(rows[..|rows| - 1], s));
    }
  }

  lemma NoneNumbered(hash: Hash, s: Bytes)
    ensures Numbered(hash, NO_GROUPS, s, 0)
  {
  }

  /** Bytes that hold their base key have one group; bytes whose base key was taken get a new group for every row. */
  lemma HowManyGroups(hash: Hash, rows: seq<Bytes>, s: Bytes)
    requires Run(hash, rows).Some?
    ensures
      var g := Run(hash, rows).value;
      |GroupsOf(g, s)| == if HoldsBase(hash, g, s) then 1 else Occurrences(rows, s)
  {
    hide Run, GroupsOf, HoldsBase;
    RunNumbered(hash, rows, s);
  }

  // ---------- where the first row of a string finds its key ----------

  /** The first row with the bytes `s`. */
  function FirstAt(rows: seq<Bytes>, s: Bytes): (i: nat)
    requires s in rows
    ensures i < |rows| && rows[i] == s && s !in rows[..i]
    decreases |rows|
  {
    var front := rows[..|rows| - 1];
    assert rows == front + [rows[|rows| - 1]];
    if s in front then
      var i := FirstAt(front, s);
      assert rows[..i] == front[..i];
      i
    else |rows| - 1
  }

  /** The first row with the bytes `s` finds their base key free. */
  ghost predicate FindsFree(hash: Hash, rows: seq<Bytes>, s: Bytes)
    requires s in rows
  {
    var before := Run(hash, rows[..FirstAt(rows, s)]);
    before.Some? && BaseKey(hash, s) !in before.value.repr
  }

  lemma FirstAtFront(rows: seq<Bytes>, r: Bytes, s: Bytes)
    requires s in rows
    ensures s in rows + [r] && FirstAt(rows + [r], s) == FirstAt(rows, s)
    ensures (rows + [r])[..FirstAt(rows, s)] == rows[..FirstAt(rows, s)]
  {
    assert (rows + [r])[..|rows|] == rows && (rows + [r])[FirstAt(rows, s)] == s;
  }

  lemma FirstAtEnd(rows: seq<Bytes>, s: Bytes)
    requires s !in rows
    ensures s in rows + [s] && FirstAt(rows + [s], s) == |rows| && (rows + [s])[..|rows|] == rows
  {
    assert (rows + [s])[..|rows|] == rows && (rows + [s])[|rows|] == s;
  }

  /** A string holds its base key exactly when its first row found that key free. */
  lemma {:induction false} HoldsWhenFree(hash: Hash, rows: seq<Bytes>, s: Bytes)
    requires Run(hash, rows).Some? && s in rows
    ensures HoldsBase(hash, Run(hash, rows).value, s) <==> FindsFree(hash, rows, s)
    decreases |rows|
  {
    hide Step, FirstAt, BaseKey;
    var front, r := rows[..|rows| - 1], rows[|rows| - 1];
    assert rows == front + [r];
    var g := Run(hash, front).value;
    RunConsistent(hash, front);
    if s in front {
      HoldsWhenFree(hash, front, s);
      FirstAtFront(front, r, s);
      RunNumbered(hash, front, s);
      OccursIn(front, s);
      HeldStays(hash, g, r, s);
    } else {
      FirstAtEnd(front, s);
      NoGroupYet(hash, front, s);
      FirstRow(hash, g, s);
    }
  }

  /** Once the base key of a string is taken, by whatever string, that does not change. */
  lemma HeldStays(hash: Hash, g: Groups, r: Bytes, s: Bytes)
    requires Step(hash, g, r).Some? && g.counts.Keys == g.repr.Keys && BaseKey(hash, s) in g.repr
    ensures HoldsBase(hash, Step(hash, g, r).value, s) <==> HoldsBase(hash, g, s)
  {
    hide Remap, Saturated, BaseKey;
  }

  lemma NoGroupYet(hash: Hash, rows: seq<Bytes>, s: Bytes)
    requires Run(hash, rows).Some? && s !in rows
    ensures forall k :: k in Run(hash, rows).value.repr ==> Run(hash, rows).value.repr[k] != s
  {
    hide Run, Assigned;
    RunConsistent(hash, rows);
    var g, under := Run(hash, rows).value, Assigned(hash, rows);
    FirstSeenListsOnce(under);
    forall k | k in g.repr ensures g.repr[k] != s {
      assert k in under;
      var i :| 0 <= i < |under| && under[i] == k;
      assert g.repr[k] == rows[i];
    }
  }

  lemma FirstRow(hash: Hash, g: Groups, s: Bytes)
    requires Step(hash, g, s).Some? && g.counts.Keys == g.repr.Keys && forall k :: k in g.repr ==> g.repr[k] != s
    ensures HoldsBase(hash, Step(hash, g, s).value, s) <==> BaseKey(hash, s) !in g.repr
  {
    hide Remap, Saturated, BaseKey;
  }

  /**
   Every byte string has one group exactly when every string that occurs twice or more found its base key free when it
   first came.
   */
  lemma OneGroupEach(hash: Hash, rows: seq<Bytes>)
    requires Run(hash, rows).Some?
    ensures
      var g := Run(hash, rows).value;
      (forall s :: s in rows ==> |GroupsOf(g, s)| == 1)
      <==> (forall s :: s in rows && Occurrences(rows, s) >= 2 ==> FindsFree(hash, rows, s))
  {
    hide Run, GroupsOf, HoldsBase, FindsFree;
    forall s | s in rows
      ensures |GroupsOf(Run(hash, rows).value, s)| == 1
        <==> (Occurrences(rows, s) >= 2 ==> FindsFree(hash, rows, s))
    {
      HowManyGroups(hash, rows, s);
      OccursIn(rows, s);
      HoldsWhenFree(hash, rows, s);
    }
  }

  // ---------- what the counts add up to ----------

  /** A group under its own base key has all rows of its string, and any other group has one row. */
  ghost predicate Weighed(hash: Hash, g: Groups, rows: seq<Bytes>, under: seq<GroupKey>) {
    forall k :: k in g.repr ==>
      Occurrences(under, k) == if k == BaseKey(hash, g.repr[k]) then Occurrences(rows, g.repr[k]) else 1
  }

  lemma {:induction false} RunWeighed(hash: Hash, rows: seq<Bytes>)
    requires Run(hash, rows).Some?
    ensures Weighed(hash, Run(hash, rows).value, rows, Assigned(hash, rows))
    decreases |rows|
  {
    hide Weighed, Step, Consistent;
    if rows == [] {
      NoneWeighed(hash);
    } else {
      var front, r := rows[..|rows| - 1], rows[|rows| - 1];
      assert rows == front + [r];
      RunWeighed(hash, front);
      RunConsistent(hash, front);
      RunNumbered(hash, front, r);
      StepWeighed(hash, Run(hash, front).value, front, Assigned(hash, front), r);
    }
  }

  lemma NoneWeighed(hash: Hash)
    ensures Weighed(hash, NO_GROUPS, [], [])
  {
  }

  lemma StepWeighed(hash: Hash, g: Groups, rows: seq<Bytes>, under: seq<GroupKey>, r: Bytes)
    requires |under| == |rows| && Consistent(g, rows, under) && Numbered(hash, g, r, Occurrences(rows, r))
    requires Weighed(hash, g, rows, under) && Step(hash, g, r).Some?
    ensures Weighed(hash, Step(hash, g, r).value, rows + [r], under + [KeyFor(hash, g.repr, r).value])
  {
    hide Remap, Saturated, Occurrences, GroupsOf, FirstSeen, BaseKey;
    var key, h := KeyFor(hash, g.repr, r).value, Step(hash, g, r).value;
    FirstSeenListsOnce(under);
    forall k | k in h.repr
      ensures Occurrences(under + [key], k)
        == if k == BaseKey(hash, h.repr[k]) then Occurrences(rows + [r], h.repr[k]) else 1
    {
      OccurrencesSnoc(under, key, k);
      OccurrencesSnoc(rows, r, h.repr[k]);
      OccursIn(under, k);
      OccursIn(rows, r);
    }
  }

  /**
   COUNT(*) over the groups adds up to the rows exactly when no string that found its base key free occurs too often.
   */
  lemma CountsSumToRows(hash: Hash, rows: seq<Bytes>)
    requires Run(hash, rows).Some?
    ensures
      var g := Run(hash, rows).value;
      && (forall k :: k in g.keys ==> k in g.counts)
      && (SumOver(g.counts, g.keys) == |rows|
          <==> forall s :: s in rows && FindsFree(hash, rows, s) ==> Occurrences(rows, s) <= MAX32)
  {
    hide Run, Assigned, SumOver, NoneSaturates, FindsFree;
    RunConsistent(hash, rows);
    var g, under := Run(hash, rows).value, Assigned(hash, rows);
    FirstSeenListsOnce(under);
    SumOverTotal(g.counts, g.keys, under);
    TotalOfFirstSeen(under);
    SaturationIsFrequency(hash, rows);
  }

  lemma SaturationIsFrequency(hash: Hash, rows: seq<Bytes>)
    requires Run(hash, rows).Some?
    ensures NoneSaturates(Run(hash, rows).value.keys, Assigned(hash, rows))
      <==> forall s :: s in rows && FindsFree(hash, rows, s) ==> Occurrences(rows, s) <= MAX32
  {
    hide Run, Assigned, Occurrences, FirstSeen, FindsFree, BaseKey;
    RunConsistent(hash, rows);
    RunWeighed(hash, rows);
    var g, under := Run(hash, rows).value, Assigned(hash, rows);
    FirstSeenListsOnce(under);
    forall s | s in rows ensures FindsFree(hash, rows, s) <==> HoldsBase(hash, g, s) { HoldsWhenFree(hash, rows, s); }
    forall k | k in g.keys ensures g.repr[k] in rows {
      var i :| 0 <= i < |under| && under[i] == k;
    }
  }

  /** No two different byte strings share a base key. */
  ghost predicate NoCollision(hash: Hash, rows: seq<Bytes>) {
    forall s, t :: s in rows && t in rows && BaseKey(hash, s) == BaseKey(hash, t) ==> s == t
  }

  /** The groups are exactly the base keys of the strings seen, each with its own string. */
  ghost predicate AtBase(hash: Hash, g: Groups, rows: seq<Bytes>) {
    && (forall s :: s in rows ==> HoldsBase(hash, g, s))
    && (forall k :: k in g.repr ==> g.repr[k] in rows && k == BaseKey(hash, g.repr[k]))
  }

  lemma StepAtBase(hash: Hash, g: Groups, rows: seq<Bytes>, repr: Bytes)
    requires g.counts.Keys == g.repr.Keys
    requires AtBase(hash, g, rows) && NoCollision(hash, rows + [repr])
    ensures Step(hash, g, repr).Some? && AtBase(hash, Step(hash, g, repr).value, rows + [repr])
  {
    hide Remap, Saturated, BaseKey;
    var base := BaseKey(hash, repr);
    if base in g.repr {
      assert g.repr[base] in rows + [repr] && repr in rows + [repr];
      assert g.repr[base] == repr;
    }
  }

  /** Without a collision no search is made, and every string is counted in one group, under its base key. */
  lemma {:induction false} WithoutCollision(hash: Hash, rows: seq<Bytes>)
    requires NoCollision(hash, rows)
    ensures Run(hash, rows).Some? && AtBase(hash, Run(hash, rows).value, rows)
    decreases |rows|
  {
    hide Step, AtBase;
    if rows == [] {
      NothingAtBase(hash);
    } else {
      var front, repr := rows[..|rows| - 1], rows[|rows| - 1];
      assert rows == front + [repr];
      WithoutCollision(hash, front);
      RunNumbered(hash, front, repr);
      StepAtBase(hash, Run(hash, front).value, front, repr);
    }
  }

  lemma NothingAtBase(hash: Hash)
    ensures AtBase(hash, NO_GROUPS, [])
  {
  }

  /** Without a collision there is one group per distinct key string. */
  lemma OneGroupWithoutCollision(hash: Hash, rows: seq<Bytes>, s: Bytes)
    requires NoCollision(hash, rows) && s in rows
    ensures Run(hash, rows).Some?
    ensures GroupsOf(Run(hash, rows).value, s) == {BaseKey(hash, s)}
  {
    hide Run, BaseKey;
    WithoutCollision(hash, rows);
  }

  /** Without a collision the counts add up to the rows exactly when no string occurs more than 2^32 - 1 times. */
  lemma CountsWithoutCollision(hash: Hash, rows: seq<Bytes>)
    requires NoCollision(hash, rows)
    ensures Run(hash, rows).Some?
    ensures
      var g := Run(hash, rows).value;
      && (forall k :: k in g.keys ==> k in g.counts)
      && (SumOver(g.counts, g.keys) == |rows| <==> forall s :: s in rows ==> Occurrences(rows, s) <= MAX32)
  {
    hide Run, SumOver, Occurrences, FindsFree, BaseKey;
    WithoutCollision(hash, rows);
    CountsSumToRows(hash, rows);
    forall s | s in rows ensures FindsFree(hash, rows, s) { HoldsWhenFree(hash, rows, s); }
  }

  lemma XorLow()
    ensures Xor(SECOND_SEED, 1) == SECOND_SEED - 1 && Xor(SECOND_SEED, 2) == SECOND_SEED + 2
  {
  }

  /** With a hash that ignores the bytes, a string seen second and third is split into two groups. */
  lemma CollisionSplits()
    ensures
      var hash: Hash := (repr, seed) => seed;
      var run := Run(hash, [[1], [2], [2]]);
      run.Some? && |GroupsOf(run.value, [2])| == 2
  {
    var hash: Hash := (repr, seed) => seed;
    XorLow();
    hide Xor, Run, Remap;
    var first, second, third := GroupKey(0, SECOND_SEED), GroupKey(0, SECOND_SEED - 1), GroupKey(0, SECOND_SEED + 2);
    var g1 := Counted(NO_GROUPS, first, [1]);
    var g2 := Counted(g1, second, [2]);
    var g3 := Counted(g2, third, [2]);
    RunNothing(hash);
    RunSnoc(hash, [], [1]);
    assert [] + [[1]] == [[1]] && Run(hash, [[1]]) == Some(g1);
    RunSnoc(hash, [[1]], [2]);
    FirstTry(hash, first, [2], g1.repr);
    assert [[1]] + [[2]] == [[1], [2]] && Run(hash, [[1], [2]]) == Some(g2);
    RunSnoc(hash, [[1], [2]], [2]);
    SecondTry(hash, first, [2], g2.repr);
    assert [[1], [2]] + [[2]] == [[1], [2], [2]] && Run(hash, [[1], [2], [2]]) == Some(g3);
    assert GroupsOf(g3, [2]) == {second, third};
  }

  lemma RunNothing(hash: Hash)
    ensures Run(hash, []) == Some(NO_GROUPS)
  {
  }

  lemma FirstTry(hash: Hash, base: GroupKey, repr: Bytes, existing: map<GroupKey, Bytes>)
    requires Candidate(hash, base, repr, 1) !in existing
    ensures Remap(hash, base, repr, existing, 1) == Some(Candidate(hash, base, repr, 1))
  {
  }

  lemma SecondTry(hash: Hash, base: GroupKey, repr: Bytes, existing: map<GroupKey, Bytes>)
    requires Candidate(hash, base, repr, 1) in existing && Candidate(hash, base, repr, 2) !in existing
    ensures Remap(hash, base, repr, existing, 1) == Some(Candidate(hash, base, repr, 2))
  {
  }
}
