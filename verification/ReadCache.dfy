/** The page read cache that several threads share, as interleavings of its locked sections. */
module ReadCache {
  import opened LittleEndian
  import opened Ordering
  import opened Sections
  import opened Wrappers

  /** Offset and length. */
  type Key = (nat, nat)

  datatype Inner = Inner(
    maxBytes: nat, usedBytes: nat, seen: set<Key>, ranges: seq<(nat, nat)>, entries: map<Key, Bytes>, order: seq<Key>)

  datatype Stats = Stats(
    totalRequests: nat, uniqueRequests: nat, overlapRequests: nat, hits: nat, misses: nat,
    bytesRequested: nat, bytesFromDisk: nat)

  const NO_STATS := Stats(0, 0, 0, 0, 0, 0, 0)

  function EmptyCache(maxBytes: nat): Inner {
    Inner(maxBytes, 0, {}, [], map[], [])
  }

  predicate InFile(file: Bytes, key: Key) {
    key.0 + key.1 <= |file|
  }

  function FileBytes(file: Bytes, key: Key): Bytes
    requires InFile(file, key)
  {
    file[key.0..key.0 + key.1]
  }

  // ---------- the locked sections ----------

  predicate Overlaps(ranges: seq<(nat, nat)>, start: nat, end: nat) {
    exists i :: 0 <= i < |ranges| && start < ranges[i].1 && ranges[i].0 < end
  }

  /** Notes a request that was not seen before. */
  function Note(c: Inner, key: Key): Inner {
    if key in c.seen then c else c.(seen := c.seen + {key}, ranges := c.ranges + [(key.0, key.0 + key.1)])
  }

  function NoteStats(c: Inner, s: Stats, key: Key): Stats {
    if key in c.seen then s
    else
      s.(uniqueRequests := s.uniqueRequests + 1,
         overlapRequests := s.overlapRequests + if Overlaps(c.ranges, key.0, key.0 + key.1) then 1 else 0)
  }

  function Dropped(c: Inner): Inner
    requires c.order != []
  {
    var key := c.order[0];
    if key in c.entries then
      c.(order := c.order[1..], entries := c.entries - {key},
         usedBytes := if |c.entries[key]| <= c.usedBytes then c.usedBytes - |c.entries[key]| else 0)
    else c.(order := c.order[1..])
  }

  /** Drops the oldest entries until `need` more bytes fit, or none are left. */
  function Evicted(c: Inner, need: nat): Inner
    decreases |c.order|
  {
    if c.usedBytes + need <= c.maxBytes || c.order == [] then c else Evicted(Dropped(c), need)
  }

  /** Puts a value just read into the cache, unless another thread was faster. */
  function Kept(c: Inner, key: Key, value: Bytes): Inner {
    if key in c.entries || c.maxBytes == 0 then c
    else if |value| > c.maxBytes then c.(entries := map[], order := [], usedBytes := 0)
    else
      var room := Evicted(c, |value|);
      room.(order := room.order + [key], usedBytes := room.usedBytes + |value|, entries := room.entries[key := value])
  }

  /** What the thread that read `value` returns. */
  function Returned(c: Inner, key: Key, value: Bytes): Bytes {
    if key in c.entries then c.entries[key] else value
  }

  class Shared {
    var maxBytes: nat
    var usedBytes: nat
    var seen: set<Key>
    var uniqueRanges: seq<(nat, nat)>
    var entries: map<Key, Bytes>
    var order: seq<Key>
    var stats: Stats

    ghost function State(): Inner
      reads this
    {
      Inner(maxBytes, usedBytes, seen, uniqueRanges, entries, order)
    }

    constructor (maxBytes: nat)
      ensures State() == EmptyCache(maxBytes) && stats == NO_STATS
    {
      this.maxBytes, usedBytes, seen, uniqueRanges, entries, order := maxBytes, 0, {}, [], map[], [];
      stats := NO_STATS;
    }

    method AnyOverlap(start: nat, end: nat) returns (r: bool)
      ensures r == Overlaps(uniqueRanges, start, end)
    {
      for i := 0 to |uniqueRanges|
        invariant forall j :: 0 <= j < i ==> !(start < uniqueRanges[j].1 && uniqueRanges[j].0 < end)
      {
        if start < uniqueRanges[i].1 && uniqueRanges[i].0 < end { return true; }
      }
      return false;
    }

    /** The first locked section. */
    method LookUp(key: Key) returns (hit: Option<Bytes>)
      modifies this
      ensures State() == Note(old(State()), key)
      ensures hit == if key in old(entries) then Some(old(entries)[key]) else None
      ensures stats == NoteStats(old(State()), old(stats), key).(hits := old(stats).hits + if hit.Some? then 1 else 0)
    {
      if key !in seen {
        var overlap := AnyOverlap(key.0, key.0 + key.1);
        stats := stats.(uniqueRequests := stats.uniqueRequests + 1,
                        overlapRequests := stats.overlapRequests + if overlap then 1 else 0);
        seen := seen + {key};
        uniqueRanges := uniqueRanges + [(key.0, key.0 + key.1)];
      }
      if key in entries {
        stats := stats.(hits := stats.hits + 1);
        return Some(entries[key]);
      }
      return None;
    }

    /** The second locked section. */
    method Store(key: Key, value: Bytes) returns (r: Bytes)
      modifies this
      ensures State() == Kept(old(State()), key, value) && r == Returned(old(State()), key, value)
      ensures stats == old(stats)
    {
      if key in entries { return entries[key]; }
      if maxBytes == 0 { return value; }
      if |value| > maxBytes {
        entries, order, usedBytes := map[], [], 0;
        return value;
      }
      while usedBytes + |value| > maxBytes && order != []
        invariant Evicted(State(), |value|) == old(Evicted(State(), |value|))
        invariant maxBytes == old(maxBytes) && stats == old(stats)
        decreases |order|
      {
        var evicted := order[0];
        order := order[1..];
        if evicted in entries {
          var evictedBytes := entries[evicted];
          usedBytes := if |evictedBytes| <= usedBytes then usedBytes - |evictedBytes| else 0;
          entries := entries - {evicted};
        }
      }
      order := order + [key];
      usedBytes := usedBytes + |value|;
      entries := entries[key := value];
      return value;
    }

    /** A whole read by one thread. `None`: it failed. */
    method ReadExact(file: Bytes, offset: nat, len: nat) returns (r: Option<Bytes>)
      requires Sound(file, State())
      modifies this
      ensures Sound(file, State())
      ensures r == if len == 0 then Some([]) else if len <= MAX32
        && offset + len <= |file| then Some(file[offset..offset + len]) else None
      ensures len > 0 && len <= MAX32 ==>
        stats.hits + stats.misses == old(stats.hits + stats.misses) + if r.Some? then 1 else 0
      ensures len > MAX32 || len == 0 ==> stats == old(stats)
    {
      hide Sound, Kept, Note;
      if len == 0 { return Some([]); }
      if len > MAX32 { return None; }
      var key := (offset, len);
      stats := stats.(totalRequests := stats.totalRequests + 1, bytesRequested := stats.bytesRequested + len);
      NoteSound(file, State(), key);
      EntrySound(file, State(), key);
      var hit := LookUp(key);
      if hit.Some? { return hit; }
      if offset + len > |file| { return None; }
      var bytes := file[offset..offset + len];
      stats := stats.(misses := stats.misses + 1, bytesFromDisk := stats.bytesFromDisk + |bytes|);
      KeptSound(file, State(), key);
      EntrySound(file, State(), key);
      var value := Store(key, bytes);
      return Some(value);
    }
  }

  // ---------- what the cache keeps ----------

  function TotalLen(keys: seq<Key>): nat
    decreases |keys|
  {
    if keys == [] then 0 else TotalLen(keys[..|keys| - 1]) + keys[|keys| - 1].1
  }

  /**
   `order` lists the cached keys once each, `usedBytes` is the sum of their lengths and within bounds, and every entry
   is the file's bytes.
   */
  ghost predicate Sound(file: Bytes, c: Inner) {
    && Lists(c.order, c.entries.Keys)
    && c.usedBytes == TotalLen(c.order) && c.usedBytes <= c.maxBytes
    && (forall k :: k in c.entries ==> k.1 > 0 && InFile(file, k) && c.entries[k] == FileBytes(file, k))
    && |c.ranges| == |c.seen|
  }

  lemma {:induction false} TotalTail(keys: seq<Key>)
    requires keys != []
    ensures TotalLen(keys) == keys[0].1 + TotalLen(keys[1..])
    decreases |keys|
  {
    if |keys| == 1 {
      assert keys[..0] == [] && keys[1..] == [];
    } else {
      var front := keys[..|keys| - 1];
      TotalTail(front);
      assert front[1..] == keys[1..][..|keys| - 2];
    }
  }

  lemma TotalSnoc(keys: seq<Key>, key: Key)
    ensures TotalLen(keys + [key]) == TotalLen(keys) + key.1
  {
    assert (keys + [key])[..|keys|] == keys;
  }

  lemma ListsTail(keys: seq<Key>, s: set<Key>)
    requires Lists(keys, s) && keys != []
    ensures keys[0] in s && Lists(keys[1..], s - {keys[0]})
  {
    assert keys == [keys[0]] + keys[1..];
    forall k ensures k in keys[1..] <==> k in s - {keys[0]} {
      if k in keys[1..] {
        var i :| 0 <= i < |keys[1..]| && keys[1..][i] == k;
        assert keys[i + 1] == k;
      }
    }
  }

  lemma ListsSnoc(keys: seq<Key>, s: set<Key>, key: Key)
    requires Lists(keys, s) && key !in s
    ensures Lists(keys + [key], s + {key})
  {
  }

  lemma DroppedSound(file: Bytes, c: Inner)
    requires Sound(file, c) && c.order != []
    ensures Sound(file, Dropped(c)) && Dropped(c).entries.Keys <= c.entries.Keys
    ensures Dropped(c).maxBytes == c.maxBytes
  {
    hide Lists;
    ListsTail(c.order, c.entries.Keys);
    TotalTail(c.order);
    assert (c.entries - {c.order[0]}).Keys == c.entries.Keys - {c.order[0]};
  }

  lemma {:induction false} EvictedSound(file: Bytes, c: Inner, need: nat)
    requires Sound(file, c) && need <= c.maxBytes
    ensures Sound(file, Evicted(c, need)) && Evicted(c, need).usedBytes + need <= c.maxBytes
    ensures Evicted(c, need).entries.Keys <= c.entries.Keys && Evicted(c, need).maxBytes == c.maxBytes
    decreases |c.order|
  {
    hide Sound, Dropped;
    SoundSum(file, c);
    if c.usedBytes + need > c.maxBytes && c.order != [] {
      DroppedSound(file, c);
      DroppedShorter(c);
      EvictedSound(file, Dropped(c), need);
    }
  }

  /** Entries are dropped oldest first, and no more of them than it takes. */
  lemma {:induction false} EvictsOldest(file: Bytes, c: Inner, need: nat) returns (n: nat)
    requires Sound(file, c) && need <= c.maxBytes
    ensures n <= |c.order| && Evicted(c, need).order == c.order[n..]
    ensures forall k :: k in Evicted(c, need).entries <==> k in c.order[n..]
    ensures n > 0 ==> TotalLen(c.order[n - 1..]) + need > c.maxBytes
    ensures TotalLen(c.order[n..]) + need <= c.maxBytes
    decreases |c.order|
  {
    hide Dropped, Lists, TotalLen;
    EvictedSound(file, c, need);
    SoundSum(file, c);
    n := 0;
    assert c.order[0..] == c.order;
    if c.usedBytes + need > c.maxBytes && c.order != [] {
      DroppedSound(file, c);
      DroppedShorter(c);
      n := EvictsOldest(file, Dropped(c), need);
      assert c.order[1..][n..] == c.order[n + 1..];
      if n > 0 { assert c.order[1..][n - 1..] == c.order[n..]; }
      n := n + 1;
    }
    ListedEntries(file, Evicted(c, need));
  }

  lemma ListedEntries(file: Bytes, c: Inner)
    requires Sound(file, c)
    ensures forall k :: k in c.entries <==> k in c.order
  {
  }

  lemma SoundSum(file: Bytes, c: Inner)
    requires Sound(file, c)
    ensures c.order == [] ==> c.usedBytes == 0
  {
  }

  lemma DroppedShorter(c: Inner)
    requires c.order != []
    ensures Dropped(c).order == c.order[1..]
  {
  }

  lemma AddedSound(file: Bytes, c: Inner, key: Key, value: Bytes)
    requires Sound(file, c) && key !in c.entries && key.1 > 0 && InFile(file, key) && value == FileBytes(file, key)
    requires c.usedBytes + |value| <= c.maxBytes
    ensures Sound(file, c.(order := c.order + [key], usedBytes := c.usedBytes + |value|,
      entries := c.entries[key := value]))
  {
    hide Lists, TotalLen;
    ListsSnoc(c.order, c.entries.Keys, key);
    TotalSnoc(c.order, key);
    assert c.entries[key := value].Keys == c.entries.Keys + {key};
  }

  lemma ClearedSound(file: Bytes, c: Inner)
    requires Sound(file, c)
    ensures Sound(file, c.(entries := map[], order := [], usedBytes := 0))
  {
    hide Lists;
    NothingListed();
    var none: map<Key, Bytes> := map[];
    assert none.Keys == {};
  }

  /** Storing the file's bytes keeps the cache sound. */
  lemma KeptSound(file: Bytes, c: Inner, key: Key)
    requires Sound(file, c) && key.1 > 0 && InFile(file, key)
    ensures Sound(file, Kept(c, key, FileBytes(file, key)))
  {
    hide Sound, Evicted, FileBytes;
    FileBytesLen(file, key);
    if key !in c.entries && c.maxBytes > 0 {
      if key.1 > c.maxBytes {
        ClearedSound(file, c);
      } else {
        EvictedSound(file, c, key.1);
        AddedSound(file, Evicted(c, key.1), key, FileBytes(file, key));
      }
    }
  }

  lemma FileBytesLen(file: Bytes, key: Key)
    requires InFile(file, key)
    ensures |FileBytes(file, key)| == key.1
  {
  }

  lemma NothingListed()
    ensures Lists<Key>([], {})
  {
  }

  lemma NoteSound(file: Bytes, c: Inner, key: Key)
    requires Sound(file, c)
    ensures Sound(file, Note(c, key))
  {
    hide Lists;
  }

  lemma EntrySound(file: Bytes, c: Inner, key: Key)
    requires Sound(file, c)
    ensures key in c.entries ==> InFile(file, key) && c.entries[key] == FileBytes(file, key)
  {
  }

  // ---------- interleavings ----------

  /** How far one non-empty request has come. */
  datatype Request =
    | Counted(key: Key)
    | Looked(key: Key)
    | Loaded(key: Key, bytes: Bytes)
    | Hit(key: Key, bytes: Bytes)
    | Missed(key: Key, bytes: Bytes)
    | Failed(key: Key)

  /** A request is counted, looks the key up, reads the file or fails to, and stores what it read. */
  datatype Event = Begin(key: Key) | Look(t: nat) | Load(t: nat) | LoadFails(t: nat) | Save(t: nat)

  datatype System = System(cache: Inner, stats: Stats, requests: seq<Request>)

  /** One step of one thread; a step that is not possible changes nothing. */
  function Step(file: Bytes, s: System, e: Event): System {
    match e
    case Begin(key) =>
      if key.1 == 0 || key.1 > MAX32 then s
      else s.(requests := s.requests + [Counted(key)],
              stats := s.stats.(totalRequests := s.stats.totalRequests + 1,
                bytesRequested := s.stats.bytesRequested + key.1))
    case Look(t) =>
      if t < |s.requests| && s.requests[t].Counted? then
        var key := s.requests[t].key;
        var stats := NoteStats(s.cache, s.stats, key);
        if key in s.cache.entries then
          System(Note(s.cache, key), stats.(hits := stats.hits + 1), s.requests[t := Hit(key, s.cache.entries[key])])
        else System(Note(s.cache, key), stats, s.requests[t := Looked(key)])
      else s
    case Load(t) =>
      if t < |s.requests| && s.requests[t].Looked? && InFile(file, s.requests[t].key) then
        var key := s.requests[t].key;
        s.(requests := s.requests[t := Loaded(key, FileBytes(file, key))],
           stats := s.stats.(misses := s.stats.misses + 1, bytesFromDisk := s.stats.bytesFromDisk + key.1))
      else s
    case LoadFails(t) =>
      if t < |s.requests| && s.requests[t].Looked? then s.(requests := s.requests[t := Failed(s.requests[t].key)])
      else s
    case Save(t) =>
      if t < |s.requests| && s.requests[t].Loaded? then
        var (key, bytes) := (s.requests[t].key, s.requests[t].bytes);
        s.(cache := Kept(s.cache, key, bytes), requests := s.requests[t := Missed(key, Returned(s.cache, key, bytes))])
      else s
  }

  function Run(file: Bytes, maxBytes: nat, events: seq<Event>): System
    decreases |events|
  {
    if events == [] then System(EmptyCache(maxBytes), NO_STATS, [])
    else Step(file, Run(file, maxBytes, events[..|events| - 1]), events[|events| - 1])
  }

  /** What the counters say of a request. */
  datatype Tally = Tally(hits: nat, misses: nat, failed: nat, inFlight: nat)

  function TallyOf(r: Request): Tally {
    match r
    case Counted(_) => Tally(0, 0, 0, 1)
    case Looked(_) => Tally(0, 0, 0, 1)
    case Loaded(_, _) => Tally(0, 1, 0, 0)
    case Hit(_, _) => Tally(1, 0, 0, 0)
    case Missed(_, _) => Tally(0, 1, 0, 0)
    case Failed(_) => Tally(0, 0, 1, 0)
  }

  function Add(a: Tally, b: Tally): Tally {
    Tally(a.hits + b.hits, a.misses + b.misses, a.failed + b.failed, a.inFlight + b.inFlight)
  }

  function Count(requests: seq<Request>): Tally
    decreases |requests|
  {
    if requests == [] then Tally(0, 0, 0, 0)
    else Add(Count(requests[..|requests| - 1]), TallyOf(requests[|requests| - 1]))
  }

  lemma CountSnoc(requests: seq<Request>, r: Request)
    ensures Count(requests + [r]) == Add(Count(requests), TallyOf(r))
  {
    assert (requests + [r])[..|requests|] == requests;
  }

  /** Changing one request changes the count by that request's part in it. */
  lemma {:induction false} CountUpdate(requests: seq<Request>, t: nat, r: Request)
    requires t < |requests|
    ensures Add(Count(requests[t := r]), TallyOf(requests[t])) == Add(Count(requests), TallyOf(r))
    decreases |requests|
  {
    hide TallyOf;
    var n := |requests| - 1;
    var front, changed := requests[..n], requests[t := r];
    assert Count(changed) == Add(Count(changed[..n]), TallyOf(changed[n]));
    if t < n {
      CountUpdate(front, t, r);
      assert changed[..n] == front[t := r];
    } else {
      assert changed[..n] == front;
    }
  }

  lemma {:induction false} CountAdds(requests: seq<Request>)
    ensures
      var c := Count(requests);
      c.hits + c.misses + c.failed + c.inFlight == |requests|
    decreases |requests|
  {
    if requests == [] {
    } else {
      CountAdds(requests[..|requests| - 1]);
    }
  }

  /** A request that has bytes has the file's. */
  ghost predicate Right(file: Bytes, r: Request) {
    && r.key.1 > 0
    && (r.Loaded? || r.Hit? || r.Missed? ==> InFile(file, r.key) && r.bytes == FileBytes(file, r.key))
  }

  ghost predicate Inv(file: Bytes, maxBytes: nat, s: System) {
    && Sound(file, s.cache) && s.cache.maxBytes == maxBytes
    && (forall t :: 0 <= t < |s.requests| ==> Right(file, s.requests[t]))
    && s.stats.totalRequests == |s.requests|
    && s.stats.hits == Count(s.requests).hits && s.stats.misses == Count(s.requests).misses
    && s.stats.uniqueRequests == |s.cache.seen|
  }

  lemma KeptMax(c: Inner, key: Key, value: Bytes)
    ensures Kept(c, key, value).maxBytes == c.maxBytes && Kept(c, key, value).seen == c.seen
  {
    EvictedMax(c, |value|);
  }

  lemma {:induction false} EvictedMax(c: Inner, need: nat)
    ensures Evicted(c, need).maxBytes == c.maxBytes && Evicted(c, need).seen == c.seen
    decreases |c.order|
  {
    if c.usedBytes + need > c.maxBytes && c.order != [] { EvictedMax(Dropped(c), need); }
  }

  /** One request moves on, and the counters move with it. */
  lemma MoveInv(file: Bytes, maxBytes: nat, s: System, next: System, t: nat, r: Request)
    requires Inv(file, maxBytes, s) && t < |s.requests|
    requires next.requests == s.requests[t := r] && Right(file, r)
    requires Sound(file, next.cache) && next.cache.maxBytes == maxBytes
    requires next.stats.totalRequests == s.stats.totalRequests
    requires next.stats.hits + TallyOf(s.requests[t]).hits == s.stats.hits + TallyOf(r).hits
    requires next.stats.misses + TallyOf(s.requests[t]).misses == s.stats.misses + TallyOf(r).misses
    requires next.stats.uniqueRequests == |next.cache.seen|
    ensures Inv(file, maxBytes, next)
  {
    hide Sound, Count, TallyOf, Right;
    CountUpdate(s.requests, t, r);
  }

  lemma LookInv(file: Bytes, maxBytes: nat, s: System, t: nat)
    requires Inv(file, maxBytes, s) && t < |s.requests| && s.requests[t].Counted?
    ensures Inv(file, maxBytes, Step(file, s, Look(t)))
  {
    hide Sound, Count, Overlaps;
    var key, next := s.requests[t].key, Step(file, s, Look(t));
    assert Right(file, s.requests[t]);
    NoteSound(file, s.cache, key);
    EntrySound(file, s.cache, key);
    MoveInv(file, maxBytes, s, next, t, next.requests[t]);
  }

  lemma SaveInv(file: Bytes, maxBytes: nat, s: System, t: nat)
    requires Inv(file, maxBytes, s) && t < |s.requests| && s.requests[t].Loaded?
    ensures Inv(file, maxBytes, Step(file, s, Save(t)))
  {
    hide Sound, Count, Kept;
    var key, next := s.requests[t].key, Step(file, s, Save(t));
    assert Right(file, s.requests[t]);
    KeptSound(file, s.cache, key);
    KeptMax(s.cache, key, s.requests[t].bytes);
    EntrySound(file, s.cache, key);
    MoveInv(file, maxBytes, s, next, t, next.requests[t]);
  }

  lemma LoadInv(file: Bytes, maxBytes: nat, s: System, t: nat)
    requires Inv(file, maxBytes, s) && t < |s.requests| && s.requests[t].Looked?
    ensures Inv(file, maxBytes, Step(file, s, Load(t))) && Inv(file, maxBytes, Step(file, s, LoadFails(t)))
  {
    hide Sound, Count;
    assert Right(file, s.requests[t]);
    var loaded, failed := Step(file, s, Load(t)), Step(file, s, LoadFails(t));
    if InFile(file, s.requests[t].key) { MoveInv(file, maxBytes, s, loaded, t, loaded.requests[t]); }
    MoveInv(file, maxBytes, s, failed, t, failed.requests[t]);
  }

  lemma BeginInv(file: Bytes, maxBytes: nat, s: System, key: Key)
    requires Inv(file, maxBytes, s)
    ensures Inv(file, maxBytes, Step(file, s, Begin(key)))
  {
    hide Sound, Count;
    CountSnoc(s.requests, Counted(key));
  }

  lemma StepInv(file: Bytes, maxBytes: nat, s: System, e: Event)
    requires Inv(file, maxBytes, s)
    ensures Inv(file, maxBytes, Step(file, s, e))
  {
    hide Inv;
    match e
    case Begin(key) => BeginInv(file, maxBytes, s, key);
    case Look(t) => if t < |s.requests| && s.requests[t].Counted? { LookInv(file, maxBytes, s, t); }
    case Load(t) => if t < |s.requests| && s.requests[t].Looked? { LoadInv(file, maxBytes, s, t); }
    case LoadFails(t) => if t < |s.requests| && s.requests[t].Looked? { LoadInv(file, maxBytes, s, t); }
    case Save(t) => if t < |s.requests| && s.requests[t].Loaded? { SaveInv(file, maxBytes, s, t); }
  }

  /**
   Whatever the threads do, the cache stays sound, every finished read has the file's bytes, and the counters add up.
   */
  lemma {:induction false} RunInv(file: Bytes, maxBytes: nat, events: seq<Event>)
    ensures Inv(file, maxBytes, Run(file, maxBytes, events))
    decreases |events|
  {
    hide Inv, Step;
    if events == [] {
      StartInv(file, maxBytes);
    } else {
      RunInv(file, maxBytes, events[..|events| - 1]);
      StepInv(file, maxBytes, Run(file, maxBytes, events[..|events| - 1]), events[|events| - 1]);
    }
  }

  lemma StartInv(file: Bytes, maxBytes: nat)
    ensures Inv(file, maxBytes, System(EmptyCache(maxBytes), NO_STATS, []))
  {
    NothingListed();
  }

  /** Every read that succeeds returns the file's bytes, from the cache or not. */
  lemma ReadsAreTransparent(file: Bytes, maxBytes: nat, events: seq<Event>, t: nat)
    requires t < |Run(file, maxBytes, events).requests|
    ensures
      var r := Run(file, maxBytes, events).requests[t];
      r.Hit? || r.Missed? ==> InFile(file, r.key) && r.bytes == FileBytes(file, r.key)
  {
    hide Run;
    RunInv(file, maxBytes, events);
  }

  /** Every request is a hit, a miss, failed, or still in flight. */
  lemma RequestsAddUp(file: Bytes, maxBytes: nat, events: seq<Event>)
    ensures
      var s := Run(file, maxBytes, events);
      s.stats.hits + s.stats.misses + Count(s.requests).failed + Count(s.requests).inFlight == s.stats.totalRequests
  {
    hide Run, Count;
    RunInv(file, maxBytes, events);
    CountAdds(Run(file, maxBytes, events).requests);
  }

  // ---------- reads that end ----------

  /** A request that was just made, looking its key up. */
  lemma LookEnds(file: Bytes, maxBytes: nat, s: System, t: nat)
    requires Inv(file, maxBytes, s) && t < |s.requests| && s.requests[t].Counted?
    ensures
      var key, next := s.requests[t].key, Step(file, s, Look(t));
      && next.cache.entries == s.cache.entries && next.cache.maxBytes == maxBytes
      && next.stats.misses == s.stats.misses && next.stats.totalRequests == s.stats.totalRequests
      && if key in s.cache.entries then
           && next.requests == s.requests[t := Hit(key, s.cache.entries[key])] && InFile(file, key)
           && s.cache.entries[key] == FileBytes(file, key) && next.stats.hits == s.stats.hits + 1
         else next.requests == s.requests[t := Looked(key)] && next.stats.hits == s.stats.hits
  {
    hide Sound, Count, NoteStats, FileBytes;
    var key := s.requests[t].key;
    EntrySound(file, s.cache, key);
    NoteCounts(s.cache, s.stats, key);
  }

  /** One that has looked in vain, loading and storing. */
  lemma LoadSaves(file: Bytes, s: System, t: nat)
    requires t < |s.requests| && s.requests[t].Looked? && InFile(file, s.requests[t].key)
    requires s.requests[t].key !in s.cache.entries
    ensures
      var key, next := s.requests[t].key, Step(file, Step(file, s, Load(t)), Save(t));
      && next.requests == s.requests[t := Missed(key, FileBytes(file, key))]
      && next.stats.hits == s.stats.hits && next.stats.misses == s.stats.misses + 1
      && next.stats.totalRequests == s.stats.totalRequests && next.cache == Kept(s.cache, key, FileBytes(file, key))
  {
    hide FileBytes, Kept;
  }

  /** After any run, a request that is made, looks its key up, loads and stores ends with the file's bytes. */
  lemma ReadCompletes(file: Bytes, maxBytes: nat, events: seq<Event>, key: Key)
    requires 0 < key.1 <= MAX32 && InFile(file, key)
    ensures
      var s := Run(file, maxBytes, events);
      var t := |s.requests|;
      var end := Run(file, maxBytes, events + [Begin(key)] + [Look(t)] + [Load(t)] + [Save(t)]);
      && |end.requests| == t + 1 && (end.requests[t].Hit? || end.requests[t].Missed?)
      && end.requests[t].key == key && end.requests[t].bytes == file[key.0..key.0 + key.1]
      && (end.requests[t].Hit? <==> key in s.cache.entries)
      && end.stats.totalRequests == s.stats.totalRequests + 1
      && end.stats.hits + end.stats.misses == s.stats.hits + s.stats.misses + 1
      && (maxBytes >= key.1 ==> key in end.cache.entries)
  {
    hide Sound, Count, Kept, NoteStats, Run, Inv;
    var s0 := Run(file, maxBytes, events);
    var t := |s0.requests|;
    RunInv(file, maxBytes, events);
    RunMore(file, maxBytes, events, Begin(key));
    var s1 := Step(file, s0, Begin(key));
    BeginInv(file, maxBytes, s0, key);
    RunMore(file, maxBytes, events + [Begin(key)], Look(t));
    LookEnds(file, maxBytes, s1, t);
    var s2 := Step(file, s1, Look(t));
    RunMore(file, maxBytes, events + [Begin(key)] + [Look(t)], Load(t));
    RunMore(file, maxBytes, events + [Begin(key)] + [Look(t)] + [Load(t)], Save(t));
    if key !in s0.cache.entries {
      LoadSaves(file, s2, t);
      KeptEntry(s2.cache, key, FileBytes(file, key));
    }
  }

  lemma RunMore(file: Bytes, maxBytes: nat, events: seq<Event>, e: Event)
    ensures Run(file, maxBytes, events + [e]) == Step(file, Run(file, maxBytes, events), e)
  {
    hide Step;
    assert (events + [e])[..|events|] == events;
  }

  lemma NoteCounts(c: Inner, s: Stats, key: Key)
    ensures NoteStats(c, s, key).hits == s.hits && NoteStats(c, s, key).misses == s.misses
    ensures NoteStats(c, s, key).totalRequests == s.totalRequests
  {
  }

  lemma KeptEntry(c: Inner, key: Key, value: Bytes)
    ensures 0 < |value| <= c.maxBytes ==> key in Kept(c, key, value).entries
  {
    hide Evicted;
  }
}
