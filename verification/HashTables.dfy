/** A hash table of chained entries. */
module HashTables {
  import opened BitLog
  import opened HashChains
  import opened Rehashing
  import opened Options

  /** The load factor 0.65, as the float it is: 10905190 / 2^24. */
  const FACTOR := 10905190
  const TWO_24 := 0x100_0000

  /** The product with the load factor, rounded up. */
  function LoadLimit(size: nat): nat { (FACTOR * size + TWO_24 - 1) / TWO_24 }

  ghost predicate Limits(limit: nat, size: nat) {
    10905190 * size <= 0x100_0000 * limit < 10905190 * size + 0x100_0000
  }

  lemma LoadLimitIs(size: nat)
    ensures Limits(LoadLimit(size), size)
  {
  }

  /** That is 65 in 100, rounded up, exactly for tables of less than 2^23 buckets. */
  lemma LimitPercent(limit: nat, size: nat)
    requires Limits(limit, size) && PowerOfTwo(size) && size <= Pow2(31)
    ensures 65 * size <= 100 * limit < 65 * size + 100 <==> size < 0x80_0000
  {
    hide PowerOfTwo;
    var a, b := PowerValues(size);
  }

  /** The powers of two up to 2^31. */
  lemma PowerValues(size: nat) returns (a: nat, b: nat)
    requires PowerOfTwo(size) && size <= Pow2(31)
    ensures b == 1 || b == 2 || b == 4 || b == 8 || b == 16 || b == 32 || b == 64 || b == 128
    ensures size == b * (if a == 0 then 1 else if a == 1 then 0x100 else if a == 2 then 0x1_0000 else 0x100_0000)
  {
    hide Pow2;
    hide Log;
    var e := Log(size);
    if e > 31 {
      PowGrows(32, e);
      PowTwice(31);
    }
    a, b := e / 8, Pow2(e % 8);
    SmallPowers(e % 8);
    ByteSteps();
    PowAdd(8 * a, e % 8);
  }

  lemma SmallPowers(e: nat)
    requires e < 8
    ensures var b := Pow2(e); b == 1 || b == 2 || b == 4 || b == 8 || b == 16 || b == 32 || b == 64 || b == 128
  {
    assert Pow2(0) == 1 && Pow2(1) == 2 && Pow2(2) == 4 && Pow2(3) == 8;
    assert Pow2(4) == 16 && Pow2(5) == 32 && Pow2(6) == 64 && Pow2(7) == 128;
  }

  lemma ByteSteps()
    ensures Pow2(0) == 1 && Pow2(8) == 0x100 && Pow2(16) == 0x1_0000 && Pow2(24) == 0x100_0000
  {
    assert Pow2(8) == 0x100;
    PowAdd(8, 8);
    PowAdd(16, 8);
  }

  /** Everything the table and its chains have to be. */
  ghost predicate Sound(heap: Heap, table: seq<nat>, chains: seq<seq<nat>>) {
    && |chains| > 0 && LinkedAll(heap, table, chains) && Unique(Total(chains))
    && Known(heap, chains) && Bucketed(heap, chains, |table|)
  }

  /** The entries in memory are the entries in the chains. */
  ghost predicate Known(heap: Heap, chains: seq<seq<nat>>) {
    forall a :: a in heap <==> a in Total(chains)
  }

  class HashTable {
    var table: seq<nat>
    var heap: Heap
    var entrycount: nat
    var loadlimit: nat
    /** Addresses from here on have never been handed out. */
    var next: nat
    const hash: nat -> nat
    ghost var chains: seq<seq<nat>>

    /** The table without its count. */
    ghost predicate Core()
      reads this
    {
      && Sound(heap, table, chains) && PowerOfTwo(|table|) && |table| <= Pow2(31)
      && Limits(loadlimit, |table|)
      && next > 0 && (forall a :: a in heap ==> a < next)
      && (forall a :: a in heap ==> heap[a].h == hash(heap[a].k))
    }

    ghost predicate Valid()
      reads this
    {
      Core() && entrycount == |Total(chains)|
    }

    /** An empty table of a power of two of buckets, at least `minsize`. */
    constructor Create(minsize: nat, hash: nat -> nat)
      requires minsize <= Pow2(31)
      ensures Valid() && heap == map[] && entrycount == 0 && this.hash == hash
      ensures minsize <= |table| && (|table| > 1 ==> |table| < 2 * minsize)
    {
      hide LoadLimit;
      hide Limits;
      hide Pow2;
      hide PowerOfTwo;
      hide Sound;
      hide Total;
      var size := TableSize(minsize);
      this.hash := hash;
      table := seq(size, _ => 0);
      heap := map[];
      entrycount := 0;
      loadlimit := LoadLimit(size);
      LoadLimitIs(size);
      next := 1;
      chains := seq(size, _ => []);
      new;
      EmptySound(size);
    }

    /** The least power of two that is at least minsize. */
    static method TableSize(minsize: nat) returns (size: nat)
      requires minsize <= Pow2(31)
      ensures PowerOfTwo(size) && minsize <= size <= Pow2(31) && (size > 1 ==> size < 2 * minsize)
    {
      size := 1;
      ghost var e := 0;
      while size < minsize
        invariant size == Pow2(e) && e <= 31 && (size > 1 ==> size < 2 * minsize)
        decreases minsize - size
      {
        if e == 31 { assert false; }
        size := 2 * size;
        e := e + 1;
      }
      PowIsPower(e);
      PowGrows(e, 31);
    }

    // ---------------------------------------------------------------------------------------
    // Expansion
    // ---------------------------------------------------------------------------------------

    /** Doubles the table, if there is memory for it: by copying, or, failing that, in place. */
    method Expand(copying: bool, memory: bool) returns (ok: bool)
      requires Core()
      modifies this`table, this`heap, this`loadlimit, this`chains
      ensures Core() && SameEntries(old(heap), heap) && Total(chains) == old(Total(chains))
      ensures ok <==> old(|table|) < 0x8000_0000 && (copying || memory)
      ensures !ok ==> table == old(table) && heap == old(heap) && chains == old(chains) && loadlimit == old(loadlimit)
      ensures ok ==> |table| == 2 * old(|table|)
      ensures ok ==> if copying then Copied(old(heap), old(chains), chains) else Spread(old(heap), old(chains), chains)
    {
      hide Sound;
      hide PowerOfTwo;
      hide LoadLimit;
      hide Limits;
      hide Bucketed;
      hide Unique;
      hide Total;
      hide Known;
      hide Pow2;
      ghost var h0, olds, n := heap, chains, |table|;
      TopSize();
      SoundParts(heap, table, chains);
      DoubleSize(n);
      var newsize := 2 * |table| % Pow2(32);
      if newsize == 0 { return false; }
      if copying {
        CopyRehash(newsize);
        CopiedSound(h0, olds, heap, table, chains);
      } else if memory {
        SpreadRehash();
        SpreadSound(h0, olds, heap, table, chains);
      } else {
        return false;
      }
      loadlimit := LoadLimit(newsize);
      LoadLimitIs(newsize);
      ok := true;
    }

    /** Takes the entries one by one from the old table to a new one. */
    method CopyRehash(newsize: nat)
      requires LinkedAll(heap, table, chains) && Unique(Total(chains)) && newsize > 0
      modifies this`table, this`heap, this`chains
      ensures LinkedAll(heap, table, chains) && |chains| == newsize
      ensures SameEntries(old(heap), heap) && Total(chains) == old(Total(chains))
      ensures forall j :: 0 <= j < newsize ==> chains[j] == Reversed(Picked(old(heap), newsize, old(Flat(chains)), j))
      ensures Bucketed(heap, chains, newsize)
    {
      hide LinkedAll;
      hide Copying;
      hide Unique;
      hide Total;
      hide Flat;
      ghost var h0, all := heap, Flat(chains);
      ghost var done: seq<nat> := [];
      var newtable := seq(newsize, _ => 0);
      ghost var fresh_: seq<seq<nat>> := seq(newsize, _ => []);
      CopyStart(heap, table, chains, newsize);
      CopySizes(h0, all, heap, table, chains, newtable, fresh_, 0, done);
      TotalFlat(chains);
      ghost var n := |table|;
      var i := 0;
      while i < |table|
        invariant 0 <= i <= |table| == n && |table| == |chains| && |newtable| == |fresh_| == newsize
        invariant Copying(h0, all, heap, table, chains, newtable, fresh_, i, done)
      {
        while table[i] != 0
          invariant n == |table| == |chains| > i && |newtable| == |fresh_| == newsize
          invariant Copying(h0, all, heap, table, chains, newtable, fresh_, i, done)
          decreases |chains[i]|
        {
          CopyStep(h0, all, heap, table, chains, newtable, fresh_, i, done);
          var e := table[i];
          table := table[i := heap[e].next];
          var index := heap[e].h % newsize;
          heap := heap[e := heap[e].(next := newtable[index])];
          newtable := newtable[index := e];
          chains, done := chains[i := chains[i][1..]], done + [e];
          fresh_ := fresh_[index := [e] + fresh_[index]];
        }
        CopyNext(h0, all, heap, table, chains, newtable, fresh_, i, done);
        i := i + 1;
      }
      CopyEnds(h0, all, heap, table, chains, newtable, fresh_, done);
      table, chains := newtable, fresh_;
    }

    /** Doubles the table in place and takes out of every chain what no longer belongs there. */
    method SpreadRehash()
      requires Sound(heap, table, chains)
      modifies this`table, this`heap, this`chains
      ensures LinkedAll(heap, table, chains) && |chains| == 2 * old(|chains|)
      ensures SameEntries(old(heap), heap) && Total(chains) == old(Total(chains))
      ensures Bucketed(heap, chains, |chains|)
      ensures forall j :: 0 <= j < old(|chains|) ==> DoneAt(old(heap), old(chains), chains, j)
    {
      hide LinkedAll;
      hide InPlace;
      hide Unique;
      hide Total;
      hide DoneAt;
      hide Sound;
      hide Bucketed;
      ghost var h0, olds, n := heap, chains, |table|;
      SoundParts(heap, table, chains);
      var tablelength := |table|;
      InPlaceStart(heap, table, chains);
      table := table + seq(tablelength, _ => 0);
      chains := chains + seq(n, _ => []);
      ghost var seen: seq<nat>, kept: seq<nat>, rest: seq<nat> := [], [], olds[0];
      var i := 0;
      while i < tablelength
        invariant 0 <= i <= n && |table| == |chains| == 2 * n
        invariant InPlace(h0, olds, heap, table, chains, i, seen, kept, rest)
        invariant i < n ==> seen == kept == []
      {
        var prev, e := 0, table[i];
        InPlaceChain(h0, olds, heap, table, chains, i, seen, kept, rest);
        while e != 0
          invariant |table| == |chains| == 2 * n && e == Nth(rest, 0)
          invariant prev == (if kept == [] then 0 else kept[|kept| - 1])
          invariant InPlace(h0, olds, heap, table, chains, i, seen, kept, rest)
          decreases |rest|
        {
          SpreadStep(h0, table, olds, heap, chains, i, seen, kept, rest);
          var index := heap[e].h % (2 * tablelength);
          if index == i {
            StayStep(h0, olds, heap, table, chains, i, seen, kept, rest);
            prev := e;
            seen, kept, rest := seen + [e], kept + [e], rest[1..];
            e := heap[prev].next;
          } else {
            ghost var h1, t1 := heap, table;
            var after := heap[e].next;
            if prev == 0 { table := table[i := after]; } else { heap := heap[prev := heap[prev].(next := after)]; }
            heap := heap[e := heap[e].(next := table[index])];
            table := table[index := e];
            GoStep(h0, olds, h1, t1, chains, i, seen, kept, rest, heap, table);
            chains := chains[i := kept + rest[1..]][index := [e] + chains[index]];
            seen, rest := seen + [e], rest[1..];
            e := after;
          }
        }
        RestEmpty(h0, olds, heap, table, chains, i, seen, kept, rest);
        InPlaceNext(h0, olds, heap, table, chains, i, seen, kept);
        i := i + 1;
        seen, kept, rest := [], [], if i < n then olds[i] else [];
      }
      InPlaceEnds(h0, olds, heap, table, chains, seen, kept, rest);
    }

    // ---------------------------------------------------------------------------------------
    // Entries
    // ---------------------------------------------------------------------------------------

    /** Adds an entry; a table that is full for its limit is expanded first, if that is possible. */
    method Insert(k: nat, v: nat, copying: bool, memory: bool, entrymemory: bool) returns (ok: bool, ghost e: nat)
      requires Valid()
      modifies this`table, this`heap, this`loadlimit, this`chains, this`entrycount, this`next
      ensures Valid() && ok == entrymemory
      ensures ok ==> e !in old(heap) && WithEntry(old(heap), heap, e, k, v) && entrycount == old(entrycount) + 1
      ensures ok ==> var i := hash(k) % |table|; chains[i] != [] && chains[i][0] == e
      ensures !ok ==> SameEntries(old(heap), heap) && entrycount == old(entrycount)
      ensures var grows := old(entrycount) + 1 > old(loadlimit) && old(|table|) < 0x8000_0000 && (copying || memory);
              var i := hash(k) % |table|; var others := if ok then chains[i := chains[i][1..]] else chains;
              && |table| == (if grows then 2 * old(|table|) else old(|table|))
              && (!grows ==> loadlimit == old(loadlimit))
              && if !grows then others == old(chains)
                 else if copying then Copied(old(heap), old(chains), others)
                 else Spread(old(heap), old(chains), others)
    {
      hide Limits;
      hide Sound;
      hide PowerOfTwo;
      hide Pow2;
      hide Copied;
      hide Spread;
      hide Total;
      hide SameEntries;
      e := 0;
      MakeRoom(copying, memory);
      ghost var h1, c1 := heap, chains;
      if !entrymemory {
        entrycount := entrycount - 1;
        return false, 0;
      }
      e := Link(k, v);
      WithTwice(old(heap), h1, heap, e, k, v);
      HeadOff(c1, hash(k) % |table|, e);
      ok := true;
    }

    /** Counts the entry to come, and expands the table if that is one too many. */
    method MakeRoom(copying: bool, memory: bool)
      requires Valid()
      modifies this`table, this`heap, this`loadlimit, this`chains, this`entrycount
      ensures Core() && entrycount == old(entrycount) + 1 && SameEntries(old(heap), heap)
      ensures Total(chains) == old(Total(chains)) && |chains| == |table|
      ensures var grows := old(entrycount) + 1 > old(loadlimit) && old(|table|) < 0x8000_0000 && (copying || memory);
              && |table| == (if grows then 2 * old(|table|) else old(|table|))
              && (!grows ==> loadlimit == old(loadlimit))
              && if !grows then chains == old(chains)
                 else if copying then Copied(old(heap), old(chains), chains)
                 else Spread(old(heap), old(chains), chains)
    {
      hide Limits;
      hide Sound;
      hide PowerOfTwo;
      hide Pow2;
      hide Copied;
      hide Spread;
      hide Total;
      entrycount := entrycount + 1;
      if entrycount > loadlimit {
        var expanded := Expand(copying, memory);
      }
      SoundParts(heap, table, chains);
    }

    /** A new entry at the head of its chain. */
    method Link(k: nat, v: nat) returns (ghost e: nat)
      requires Core() && entrycount == |Total(chains)| + 1
      modifies this`table, this`heap, this`chains, this`next
      ensures Valid() && |table| == old(|table|) && |chains| == old(|chains|) == |table|
      ensures e !in old(heap) && WithEntry(old(heap), heap, e, k, v)
      ensures var i := hash(k) % |table|; chains == old(chains)[i := [e] + old(chains)[i]]
    {
      hide Limits;
      hide Sound;
      hide PowerOfTwo;
      hide Pow2;
      hide LinkedAll;
      hide Total;
      hide Unique;
      hide Bucketed;
      hide Known;
      ghost var h1, t1, c1 := heap, table, chains;
      SoundParts(heap, table, chains);
      var a := next;
      next := next + 1;
      var index := hash(k) % |table|;
      heap := heap[a := Entry(k, v, hash(k), table[index])];
      table := table[index := a];
      e := a;
      chains := chains[index := [e] + chains[index]];
      InsertSound(h1, t1, c1, heap, index, e);
    }

    /** The value of the first entry for k in its chain. */
    method Search(k: nat) returns (found: Option<nat>)
      requires Valid()
      ensures found == Lookup(heap, chains[hash(k) % |table|], k)
      ensures found.Some? ==> exists p: nat :: FirstAt(heap, chains[hash(k) % |table|], k, p, found.value)
      ensures found.None? <==> forall a :: a in heap ==> heap[a].k != k
    {
      var hashvalue := hash(k);
      var index := hashvalue % |table|;
      ghost var ids := chains[index];
      ghost var p := 0;
      assert IsChain(heap, table[index], ids);
      InsideHeap(heap, table[index], ids);
      assert ids[0..] == ids;
      var e := table[index];
      while e != 0
        invariant p <= |ids| && e == Nth(ids, p)
        invariant forall q :: 0 <= q < p ==> ids[q] in heap && heap[ids[q]].k != k
        invariant Lookup(heap, ids, k) == Lookup(heap, ids[p..], k)
        decreases |ids| - p
      {
        assert Linked(heap, ids, p);
        if hashvalue == heap[e].h && heap[e].k == k {
          LookupMeans(heap, chains, |table|, hash, k);
          assert FirstAt(heap, ids, k, p, heap[e].v);
          return Some(heap[e].v);
        }
        assert ids[p..][1..] == ids[p + 1..];
        p := p + 1;
        e := heap[e].next;
      }
      NoMoreIds(ids, p);
      LookupMeans(heap, chains, |table|, hash, k);
      return None;
    }

    /** Makes the pointer before x skip it, and frees x. */
    method Unhook(index: nat, prev: nat, x: nat, ghost p: nat)
      requires Valid() && index < |chains| && p < |chains[index]| && x == chains[index][p]
      requires prev == if p == 0 then 0 else chains[index][p - 1]
      modifies this`table, this`heap, this`chains, this`entrycount
      ensures Valid() && Without(old(heap), heap, x) && entrycount == old(entrycount) - 1
      ensures chains == old(chains[index := chains[index][..p] + chains[index][p + 1..]])
      ensures Total(chains) == old(Total(chains)) - multiset{x}
    {
      hide Without;
      hide Unhooked;
      hide Sound;
      hide PowerOfTwo;
      hide Pow2;
      hide Total;
      hide LinkedAll;
      hide Unique;
      hide Bucketed;
      hide Known;
      ghost var h1, t1, c1, ids := heap, table, chains, chains[index];
      SoundParts(heap, table, chains);
      UnhookAt(heap, table, chains, index, p);
      Unhooks(heap, table, index, ids[..p], x);
      if prev == 0 {
        table := table[index := heap[x].next];
      } else {
        heap := heap[prev := heap[prev].(next := heap[x].next)];
      }
      heap := heap - {x};
      entrycount := entrycount - 1;
      chains := chains[index := ids[..p] + ids[p + 1..]];
      RemoveSound(h1, t1, c1, heap, table, index, p);
      WithoutKeeps(h1, heap, x, hash, next);
    }

    /** Takes out the first entry for k in its chain. */
    method Remove(k: nat) returns (gone: Option<nat>, ghost e: nat)
      requires Valid()
      modifies this`table, this`heap, this`chains, this`entrycount
      ensures Valid()
      ensures gone == old(Lookup(heap, chains[hash(k) % |table|], k))
      ensures gone.Some? ==>
                var i := hash(k) % old(|table|);
                exists p: nat :: FirstAt(old(heap), old(chains)[i], k, p, gone.value) && e == old(chains)[i][p]
                            && chains == old(chains)[i := old(chains)[i][..p] + old(chains)[i][p + 1..]]
      ensures gone.None? ==> heap == old(heap) && chains == old(chains) && entrycount == old(entrycount)
      ensures gone.Some? ==> Without(old(heap), heap, e) && old(heap)[e].k == k && old(heap)[e].v == gone.value
      ensures gone.Some? ==> entrycount == old(entrycount) - 1
    {
      hide Sound;
      hide PowerOfTwo;
      hide Pow2;
      hide Total;
      SoundParts(heap, table, chains);
      var index := hash(k) % |table|;
      ghost var ids := chains[index];
      ghost var p := 0;
      InsideHeap(heap, table[index], ids);
      assert ids[0..] == ids;
      var prev, x := 0, table[index];
      e := 0;
      while x != 0
        invariant p <= |ids| && x == Nth(ids, p) && prev == (if p == 0 then 0 else ids[p - 1])
        invariant forall q :: 0 <= q < p ==> ids[q] in heap && heap[ids[q]].k != k
        invariant Lookup(heap, ids, k) == Lookup(heap, ids[p..], k)
        decreases |ids| - p
      {
        assert Linked(heap, ids, p);
        if heap[x].k == k {
          e := x;
          gone := Some(heap[x].v);
          assert FirstAt(heap, ids, k, p, gone.value);
          Unhook(index, prev, x, p);
          return;
        }
        assert ids[p..][1..] == ids[p + 1..];
        p := p + 1;
        prev := x;
        x := heap[x].next;
      }
      NoMoreIds(ids, p);
      gone := None;
    }
  }

  // ---------------------------------------------------------------------------------------
  // Entries
  // ---------------------------------------------------------------------------------------

  /** A new table, or none when more than 2^31 buckets are asked for. */
  method CreateTable(minsize: nat, hash: nat -> nat) returns (h: HashTable?)
    ensures h == null <==> minsize > 0x8000_0000
    ensures h != null ==>
              && fresh(h) && h.Valid() && h.heap == map[] && h.entrycount == 0 && h.hash == hash
              && minsize <= |h.table| && (|h.table| > 1 ==> |h.table| < 2 * minsize)
  {
    TopSize();
    if minsize > 0x8000_0000 { return null; }
    h := new HashTable.Create(minsize, hash);
  }

  lemma TopSize()
    ensures Pow2(31) == 0x8000_0000
  {
    ByteSteps();
    assert Pow2(7) == 128;
    PowAdd(24, 7);
  }

  /** One new entry; the others keep hash, key and value. */
  ghost predicate WithEntry(h0: Heap, heap: Heap, e: nat, k: nat, v: nat) {
    && heap.Keys == h0.Keys + {e} && heap[e].k == k && heap[e].v == v
    && forall a :: a in h0 ==> heap[a].h == h0[a].h && heap[a].k == h0[a].k && heap[a].v == h0[a].v
  }

  lemma WithTwice(h0: Heap, h1: Heap, heap: Heap, e: nat, k: nat, v: nat)
    requires SameEntries(h0, h1) && e !in h1 && WithEntry(h1, heap, e, k, v)
    ensures e !in h0 && WithEntry(h0, heap, e, k, v)
  {
  }

  lemma HeadOff(chains: seq<seq<nat>>, i: nat, e: nat)
    requires i < |chains|
    ensures chains[i := [e] + chains[i]][i := ([e] + chains[i])[1..]] == chains
  {
    assert ([e] + chains[i])[1..] == chains[i];
  }

  /** One entry less. */
  ghost predicate Without(h0: Heap, heap: Heap, e: nat) {
    && e in h0 && heap.Keys == h0.Keys - {e}
    && forall a :: a in heap ==> heap[a].h == h0[a].h && heap[a].k == h0[a].k && heap[a].v == h0[a].v
  }

  ghost function Lookup(heap: Heap, ids: seq<nat>, k: nat): Option<nat> {
    if ids == [] || ids[0] !in heap then None
    else if heap[ids[0]].k == k then Some(heap[ids[0]].v)
    else Lookup(heap, ids[1..], k)
  }

  /** The entry at place p is the first for k, and v its value. */
  ghost predicate FirstAt(heap: Heap, ids: seq<nat>, k: nat, p: nat, v: nat) {
    && p < |ids| && (forall q :: 0 <= q <= p ==> ids[q] in heap)
    && heap[ids[p]].k == k && heap[ids[p]].v == v && forall q :: 0 <= q < p ==> heap[ids[q]].k != k
  }

  lemma {:induction false} LookupNone(heap: Heap, ids: seq<nat>, k: nat)
    requires forall a :: a in ids ==> a in heap
    ensures Lookup(heap, ids, k).None? <==> forall a :: a in ids ==> heap[a].k != k
  {
    if ids != [] { LookupNone(heap, ids[1..], k); }
  }

  /** An entry for k can only be in the chain of its hash. */
  lemma LookupMeans(heap: Heap, chains: seq<seq<nat>>, size: nat, hash: nat -> nat, k: nat)
    requires size == |chains| > 0 && Known(heap, chains) && Bucketed(heap, chains, size)
    requires forall a :: a in heap ==> heap[a].h == hash(heap[a].k)
    ensures Lookup(heap, chains[hash(k) % size], k).None? <==> forall a :: a in heap ==> heap[a].k != k
  {
    var i := hash(k) % size;
    forall a | a in chains[i] ensures a in heap { TotalHas(chains, a); }
    LookupNone(heap, chains[i], k);
    forall a | a in heap && heap[a].k == k ensures a in chains[i] {
      TotalHas(chains, a);
      var j :| 0 <= j < |chains| && a in chains[j];
      assert InBucket(heap, size, a, j);
    }
  }

  lemma NoMoreIds(ids: seq<nat>, p: nat)
    requires p <= |ids| && Nth(ids, p) == 0 && forall a :: a in ids ==> a != 0
    ensures ids[p..] == []
  {
    assert p < |ids| ==> Nth(ids, p) in ids;
  }

  lemma InsertSound(h0: Heap, table: seq<nat>, chains: seq<seq<nat>>, heap: Heap, i: nat, e: nat)
    requires Sound(h0, table, chains) && i < |chains| && e != 0 && e !in h0 && e in heap
    requires heap == h0[e := heap[e]] && heap[e].next == table[i] && heap[e].h % |chains| == i
    ensures Sound(heap, table[i := e], chains[i := [e] + chains[i]])
    ensures |Total(chains[i := [e] + chains[i]])| == |Total(chains)| + 1
  {
    var c := chains[i := [e] + chains[i]];
    forall j, a | 0 <= j < |chains| && a in chains[j] ensures a in h0 { TotalHas(chains, a); }
    Added(h0, heap, table, chains, i, e);
    assert Total(chains)[e] == 0;
    forall j, a | 0 <= j < |c| && a in c[j] ensures InBucket(heap, |c|, a, j) {
      if a != e { assert a in chains[j] && InBucket(h0, |chains|, a, j); }
    }
  }

  /** The pointers around place p of a chain. */
  lemma UnhookAt(heap: Heap, table: seq<nat>, chains: seq<seq<nat>>, i: nat, p: nat)
    requires LinkedAll(heap, table, chains) && i < |chains| && p < |chains[i]|
    ensures chains[i] == chains[i][..p] + [chains[i][p]] + chains[i][p + 1..]
    ensures chains[i][p] in heap && chains[i][p] != 0
    ensures p > 0 ==>
              && chains[i][p - 1] in heap && chains[i][p - 1] != 0
              && chains[i][..p][|chains[i][..p]| - 1] == chains[i][p - 1]
  {
    assert IsChain(heap, table[i], chains[i]);
    assert Linked(heap, chains[i], p);
    if p > 0 { assert Linked(heap, chains[i], p - 1); }
  }

  lemma RemoveSound(h0: Heap, table: seq<nat>, chains: seq<seq<nat>>, heap: Heap, t: seq<nat>, i: nat, p: nat)
    requires Sound(h0, table, chains) && i < |chains| && p < |chains[i]|
    requires var l, e := chains[i][..p], chains[i][p];
             e in h0 && (l != [] ==> l[|l| - 1] in h0) && Unhooked(h0, heap, table, t, i, l, e)
    ensures var c := chains[i := chains[i][..p] + chains[i][p + 1..]];
            Sound(heap, t, c) && |Total(c)| == |Total(chains)| - 1 && Total(c) == Total(chains) - multiset{chains[i][p]}
    ensures Without(h0, heap, chains[i][p])
  {
    hide Bucketed;
    hide Known;
    hide Unhooked;
    hide Without;
    hide LinkedAll;
    hide Total;
    hide Unique;
    SoundParts(h0, table, chains);
    var l, e, r := chains[i][..p], chains[i][p], chains[i][p + 1..];
    UnhookAt(h0, table, chains, i, p);
    Dropped(h0, heap, table, t, chains, i, l, e, r);
    UnhookedEntries(h0, heap, table, t, i, l, e);
    UniqueLess(Total(chains), e);
    KnownLess(h0, heap, chains, chains[i := l + r], i, l, e, r);
  }

  lemma WithoutKeeps(h0: Heap, heap: Heap, e: nat, hash: nat -> nat, next: nat)
    requires Without(h0, heap, e)
    requires forall a :: a in h0 ==> a < next && h0[a].h == hash(h0[a].k)
    ensures forall a :: a in heap ==> a < next && heap[a].h == hash(heap[a].k)
  {
  }

  /** The two ways to write it. */
  lemma Unhooks(heap: Heap, table: seq<nat>, i: nat, l: seq<nat>, e: nat)
    requires e in heap && i < |table| && (l != [] ==> l[|l| - 1] in heap)
    ensures l == [] ==> Unhooked(heap, heap - {e}, table, table[i := heap[e].next], i, l, e)
    ensures l != [] ==>
              Unhooked(heap, heap[l[|l| - 1] := heap[l[|l| - 1]].(next := heap[e].next)] - {e}, table, table, i, l, e)
  {
  }

  lemma KnownLess(h0: Heap, heap: Heap, chains: seq<seq<nat>>, c: seq<seq<nat>>, i: nat, l: seq<nat>, e: nat,
                  r: seq<nat>)
    requires i < |chains| && chains[i] == l + [e] + r && c == chains[i := l + r]
    requires Known(h0, chains) && Bucketed(h0, chains, |chains|) && Without(h0, heap, e)
    requires Unique(Total(chains)) && Total(chains)[e] == 1 && Total(c) == Total(chains) - multiset{e}
    ensures Known(heap, c) && Bucketed(heap, c, |c|)
  {
    hide Total;
    UniqueLess(Total(chains), e);
    forall j, a | 0 <= j < |c| && a in c[j] ensures InBucket(heap, |c|, a, j) {
      assert a in chains[j];
      assert InBucket(h0, |chains|, a, j);
      TotalHas(c, a);
    }
  }

  lemma UnhookedEntries(h0: Heap, heap: Heap, table: seq<nat>, t: seq<nat>, i: nat, l: seq<nat>, e: nat)
    requires e in h0 && i < |table| && (l != [] ==> l[|l| - 1] in h0) && Unhooked(h0, heap, table, t, i, l, e)
    ensures Without(h0, heap, e) && |t| == |table|
  {
  }

  lemma UniqueLess(m: multiset<nat>, e: nat)
    requires Unique(m) && m[e] == 1
    ensures Unique(m - multiset{e}) && |m - multiset{e}| == |m| - 1
    ensures forall a :: a in m - multiset{e} <==> a in m && a != e
  {
  }

  // ---------------------------------------------------------------------------------------
  // What an expansion does
  // ---------------------------------------------------------------------------------------

  /** Copied: every new chain holds the entries of its old chain that belong there, turned around. */
  ghost predicate Copied(h0: Heap, olds: seq<seq<nat>>, chains: seq<seq<nat>>) {
    |chains| == 2 * |olds| > 0 &&
    forall j :: 0 <= j < |chains| ==> CopiedAt(h0, olds, chains, j)
  }

  ghost predicate CopiedAt(h0: Heap, olds: seq<seq<nat>>, chains: seq<seq<nat>>, j: nat)
    requires j < |chains| == 2 * |olds|
  {
    chains[j] == Reversed(Picked(h0, |chains|, olds[j % |olds|], j))
  }

  /** In place: what stays keeps its order, what goes is turned around. */
  ghost predicate Spread(h0: Heap, olds: seq<seq<nat>>, chains: seq<seq<nat>>) {
    |chains| == 2 * |olds| > 0 &&
    forall j :: 0 <= j < |olds| ==> DoneAt(h0, olds, chains, j)
  }

  lemma EmptySound(size: nat)
    requires size > 0
    ensures Sound(map[], seq(size, _ => 0), seq(size, _ => [])) && |Total(seq(size, _ => []))| == 0
  {
    TotalEmpty(seq(size, _ => []));
  }

  lemma SoundParts(heap: Heap, table: seq<nat>, chains: seq<seq<nat>>)
    requires Sound(heap, table, chains)
    ensures |table| == |chains| > 0 && LinkedAll(heap, table, chains) && Unique(Total(chains))
    ensures Known(heap, chains) && Bucketed(heap, chains, |table|)
  {
  }

  lemma DoubleSize(n: nat)
    requires PowerOfTwo(n) && n <= Pow2(31)
    ensures 2 * n % Pow2(32) == 0 <==> n == Pow2(31)
    ensures n < Pow2(31) ==> 2 * n % Pow2(32) == 2 * n && PowerOfTwo(2 * n) && 2 * n <= Pow2(31)
  {
    hide Pow2;
    hide Log;
    PowTwice(31);
    WrapsAtTop(n, Pow2(31), Pow2(32));
    if n < Pow2(31) {
      var e := Log(n);
      if e >= 31 { PowGrows(31, e); }
      PowTwice(e);
      PowIsPower(e + 1);
      PowGrows(e + 1, 31);
    }
  }

  lemma WrapsAtTop(n: nat, p: nat, q: nat)
    requires q == 2 * p && 0 < n <= p
    ensures 2 * n % q == if n == p then 0 else 2 * n
  {
    if n == p { ModSelf(q); } else { ModSmall(2 * n, q); }
  }

  lemma ModSelf(q: nat)
    requires q > 0
    ensures q % q == 0
  {
  }

  lemma ModSmall(a: nat, q: nat)
    requires a < q
    ensures a % q == a
  {
  }

  lemma CopySizes(h0: Heap, all: seq<nat>, heap: Heap, table: seq<nat>, chains: seq<seq<nat>>,
                  table': seq<nat>, chains': seq<seq<nat>>, i: nat, done: seq<nat>)
    requires Copying(h0, all, heap, table, chains, table', chains', i, done)
    ensures |table| == |chains| && |table'| == |chains'|
  {
  }

  lemma CopyEnds(h0: Heap, all: seq<nat>, heap: Heap, table: seq<nat>, chains: seq<seq<nat>>,
                 table': seq<nat>, chains': seq<seq<nat>>, done: seq<nat>)
    requires Copying(h0, all, heap, table, chains, table', chains', |chains|, done)
    ensures LinkedAll(heap, table', chains') && Total(chains') == multiset(all) && SameEntries(h0, heap)
    ensures |chains'| > 0 && Bucketed(heap, chains', |chains'|)
    ensures forall j :: 0 <= j < |chains'| ==> chains'[j] == Reversed(Picked(h0, |chains'|, all, j))
  {
    CopyDone(h0, all, heap, table, chains, table', chains', done);
  }

  lemma SameEntriesSound(h0: Heap, olds: seq<seq<nat>>, table: seq<nat>, heap: Heap, chains: seq<seq<nat>>)
    requires SameEntries(h0, heap) && Total(chains) == Total(olds) && Unique(Total(olds)) && |chains| > 0
    requires Known(h0, olds)
    requires LinkedAll(heap, table, chains) && Bucketed(heap, chains, |chains|)
    ensures Sound(heap, table, chains)
  {
  }

  lemma CopiedSound(h0: Heap, olds: seq<seq<nat>>, heap: Heap, table: seq<nat>, chains: seq<seq<nat>>)
    requires |olds| > 0 && Unique(Total(olds)) && Bucketed(h0, olds, |olds|) && Known(h0, olds)
    requires |chains| == 2 * |olds| && SameEntries(h0, heap) && Total(chains) == Total(olds)
    requires LinkedAll(heap, table, chains) && Bucketed(heap, chains, |chains|)
    requires forall j :: 0 <= j < |chains| ==> chains[j] == Reversed(Picked(h0, |chains|, Flat(olds), j))
    ensures Sound(heap, table, chains) && Copied(h0, olds, chains)
  {
    SameEntriesSound(h0, olds, table, heap, chains);
    forall j | 0 <= j < |chains| ensures CopiedAt(h0, olds, chains, j) { CopyOrder(h0, olds, |olds|, j); }
  }

  lemma SpreadSound(h0: Heap, olds: seq<seq<nat>>, heap: Heap, table: seq<nat>, chains: seq<seq<nat>>)
    requires |olds| > 0 && Unique(Total(olds)) && Known(h0, olds)
    requires |chains| == 2 * |olds| && SameEntries(h0, heap) && Total(chains) == Total(olds)
    requires LinkedAll(heap, table, chains) && Bucketed(heap, chains, |chains|)
    ensures Sound(heap, table, chains)
  {
    SameEntriesSound(h0, olds, table, heap, chains);
  }

  lemma InPlaceChain(h0: Heap, olds: seq<seq<nat>>, heap: Heap, table: seq<nat>, chains: seq<seq<nat>>, i: nat,
                     seen: seq<nat>, kept: seq<nat>, rest: seq<nat>)
    requires InPlace(h0, olds, heap, table, chains, i, seen, kept, rest) && i < |olds| && kept == []
    ensures i < |table| && table[i] == Nth(rest, 0)
  {
    assert kept + rest == rest;
  }

  /** The entry about to be looked at. */
  lemma SpreadStep(h0: Heap, table: seq<nat>, olds: seq<seq<nat>>, heap: Heap, chains: seq<seq<nat>>, i: nat,
                   seen: seq<nat>, kept: seq<nat>, rest: seq<nat>)
    requires InPlace(h0, olds, heap, table, chains, i, seen, kept, rest) && i < |olds| && Nth(rest, 0) != 0
    requires Bucketed(h0, olds, |olds|)
    ensures rest != [] && rest[0] in heap && (kept != [] ==> kept[|kept| - 1] in heap && kept[|kept| - 1] != 0)
    ensures var n, e := |olds|, rest[0]; var x := heap[e].h % (2 * n);
            && (x == i ==> InBucket(h0, 2 * n, e, i)) && (x != i ==> x == i + n && InBucket(h0, 2 * n, e, x))
            && heap[e].next == Nth(rest[1..], 0)
  {
    var e, n := rest[0], |olds|;
    assert rest == [e] + rest[1..];
    assert kept + rest == kept + [e] + rest[1..];
    LastLink(heap, table[i], kept, e, rest[1..]);
    InsideHeap(heap, table[i], chains[i]);
    if kept != [] { assert kept[|kept| - 1] in chains[i]; }
    assert e in olds[i];
    assert InBucket(h0, n, e, i);
    TwoPlaces(h0[e].h, n, i);
  }

  lemma RestEmpty(h0: Heap, olds: seq<seq<nat>>, heap: Heap, table: seq<nat>, chains: seq<seq<nat>>, i: nat,
                  seen: seq<nat>, kept: seq<nat>, rest: seq<nat>)
    requires InPlace(h0, olds, heap, table, chains, i, seen, kept, rest) && i < |olds| && Nth(rest, 0) == 0
    ensures rest == []
  {
    InsideHeap(heap, table[i], chains[i]);
    NotNull(kept, rest);
  }

  lemma NotNull(kept: seq<nat>, rest: seq<nat>)
    requires forall a :: a in kept + rest ==> a != 0
    ensures Nth(rest, 0) == 0 ==> rest == []
  {
    if rest != [] { assert (kept + rest)[|kept|] == rest[0] && rest[0] in kept + rest; }
  }

  lemma InPlaceEnds(h0: Heap, olds: seq<seq<nat>>, heap: Heap, table: seq<nat>, chains: seq<seq<nat>>,
                    seen: seq<nat>, kept: seq<nat>, rest: seq<nat>)
    requires InPlace(h0, olds, heap, table, chains, |olds|, seen, kept, rest)
    ensures LinkedAll(heap, table, chains) && Total(chains) == Total(olds) && SameEntries(h0, heap)
    ensures |chains| == 2 * |olds| > 0 && Bucketed(heap, chains, |chains|)
    ensures forall j :: 0 <= j < |olds| ==> DoneAt(h0, olds, chains, j)
  {
    InPlaceDone(h0, olds, heap, table, chains, seen, kept, rest);
  }

  /** The two ways agree: every bucket holds the same entries. */
  lemma ExpansionsAgree(h0: Heap, h1: Heap, h2: Heap, t1: seq<nat>, t2: seq<nat>, a: seq<seq<nat>>, b: seq<seq<nat>>,
                        j: nat)
    requires SameEntries(h0, h1) && SameEntries(h0, h2) && Sound(h1, t1, a) && Sound(h2, t2, b)
    requires |a| == |b| && Total(a) == Total(b) && j < |a|
    ensures multiset(a[j]) == multiset(b[j])
  {
    SameBuckets(h1, a, h2, b, |a|, j);
  }
}
