/** Walking over a hash table, and removing entries on the way. */
module HashIterators {
  import opened HashChains
  import opened Rehashing
  import opened HashTables
  import opened Options

  /** The entries from place p of chain i on. */
  ghost function From(chains: seq<seq<nat>>, i: nat, p: nat): seq<nat> {
    if i < |chains| && p <= |chains[i]| then chains[i][p..] + Flat(chains[i + 1..]) else []
  }

  class Iterator {
    const h: HashTable
    var e: nat
    var parent: nat
    var index: nat
    /** Place of e in its chain. */
    ghost var p: nat

    /** At the end, or at an entry whose predecessor in the chain is `parent`. */
    ghost predicate Valid()
      reads this, h
    {
      h.Valid() &&
      (e != 0 ==>
         && index < |h.chains| && p < |h.chains[index]| && e == h.chains[index][p]
         && parent == if p == 0 then 0 else h.chains[index][p - 1])
    }

    /** The entries still to come, the current one first. */
    ghost function Rest(): seq<nat>
      reads this, h
    {
      if e == 0 then [] else From(h.chains, index, p)
    }

    /** Stands at the first entry of the first chain that is not empty. */
    constructor Start(h: HashTable)
      requires h.Valid()
      ensures Valid() && this.h == h && Rest() == Flat(h.chains)
    {
      hide Sound;
      hide Unique;
      hide Total;
      hide LinkedAll;
      this.h := h;
      var found: nat, at: nat := 0, |h.table|;
      if h.entrycount == 0 { NothingThere(h.chains); } else {
        found, at := FirstEntry(h, 0);
        assert h.chains[0..] == h.chains;
      }
      e := found;
      index := at;
      parent := 0;
      p := 0;
    }

    /** The first chain from i0 on that is not empty, and its head. */
    static method FirstEntry(h: HashTable, i0: nat) returns (found: nat, at: nat)
      requires h.Valid() && i0 <= |h.chains|
      ensures found != 0 ==> i0 <= at < |h.chains| && HeadAt(h.chains, i0, at, found)
      ensures found == 0 ==> at == |h.table| && Flat(h.chains[i0..]) == []
    {
      hide HashTable.Core;
      hide Bucketed;
      hide Known;
      hide Sound;
      hide Unique;
      hide Total;
      hide LinkedAll;
      CoreFacts(h);
      ghost var cs := h.chains[i0..];
      var i := i0;
      while i < |h.table|
        invariant i0 <= i <= |h.table| && AllEmpty(cs[..i - i0])
      {
        HeadIs(h.heap, h.table, h.chains, i);
        if h.table[i] != 0 {
          FlatSkips(cs, i - i0);
          assert cs[i - i0 + 1..] == h.chains[i + 1..];
          assert h.chains[i][0..] == h.chains[i];
          return h.table[i], i;
        }
        assert cs[..i + 1 - i0] == cs[..i - i0] + [h.chains[i]];
        i := i + 1;
      }
      assert cs[..i - i0] == cs;
      TotalEmpty(cs);
      return 0, |h.table|;
    }

    /** Goes on to the next entry; false at the end. */
    method Advance() returns (more: bool)
      requires Valid()
      modifies this
      ensures Valid() && (more <==> Rest() != [])
      ensures Rest() == if old(Rest()) == [] then [] else old(Rest())[1..]
    {
      if e == 0 { return false; }
      SoundParts(h.heap, h.table, h.chains);
      ghost var cs := h.chains;
      NextOf(h.heap, h.table, cs, index, p);
      var next := h.heap[e].next;
      RestStep(cs, index, p);
      more := Go(next, p + 1);
    }

    /** The rest of advancing, once the entry that follows in the chain is known. */
    method Go(next: nat, ghost q: nat) returns (more: bool)
      requires h.Valid() && e != 0 && index < |h.chains| && q <= |h.chains[index]|
      requires next == Nth(h.chains[index], q)
      modifies this
      ensures h.Valid() && (more <==> e != 0)
      ensures e != 0 ==> index < |h.chains| && p < |h.chains[index]| && e == h.chains[index][p]
      ensures if next != 0 then e == next && parent == old(e) && index == old(index) && p == q
              else parent == 0 && (e != 0 ==> p == 0 && index > old(index))
      ensures Rest() == From(h.chains, old(index), q)
    {
      hide Sound;
      hide Unique;
      hide Total;
      hide LinkedAll;
      ghost var cs := h.chains;
      SoundParts(h.heap, h.table, cs);
      if next != 0 {
        parent := e;
        e := next;
        p := q;
        return true;
      }
      ChainOver(h.heap, h.table, cs, index, q);
      parent := 0;
      e, index := FirstEntry(h, index + 1);
      p := 0;
      more := e != 0;
    }

    /** Takes the current entry out of the table and goes on. */
    method Remove() returns (more: bool)
      requires Valid() && e != 0
      modifies this, h`table, h`heap, h`chains, h`entrycount
      ensures Valid() && (more <==> Rest() != []) && Rest() == old(Rest())[1..]
      ensures Without(old(h.heap), h.heap, old(e)) && h.entrycount == old(h.entrycount) - 1
      ensures h.chains == old(h.chains[index := h.chains[index][..p] + h.chains[index][p + 1..]])
      ensures Total(h.chains) == old(Total(h.chains)) - multiset{old(e)}
    {
      hide Sound;
      hide Unique;
      hide Total;
      hide LinkedAll;
      hide From;
      hide Flat;
      hide Without;
      ghost var cs, i0, p0 := h.chains, index, p;
      SoundParts(h.heap, h.table, cs);
      NextOf(h.heap, h.table, cs, index, p);
      var next := h.heap[e].next;
      var removed, before := e, parent;
      h.Unhook(index, parent, e, p);
      RemoveRest(cs, h.chains, i0, p0, next);
      more := Go(next, p0);
      if e != 0 { RestStep(h.chains, index, p); }
      if parent == removed { parent := before; }
    }

    /** Goes to the first entry for k, if there is one; otherwise stays. */
    method Seek(k: nat) returns (found: bool)
      requires Valid()
      modifies this
      ensures Valid() && (found <==> exists a :: a in h.heap && h.heap[a].k == k)
      ensures if found then e in h.heap && h.heap[e].k == k
              else e == old(e) && parent == old(parent) && index == old(index)
      ensures found ==> Lookup(h.heap, h.chains[h.hash(k) % |h.table|], k) == Some(h.heap[e].v)
      ensures found ==> index == h.hash(k) % |h.table| && FirstAt(h.heap, h.chains[index], k, p, h.heap[e].v)
    {
      hide Sound;
      hide Unique;
      hide Total;
      CoreFacts(h);
      var hashvalue := h.hash(k);
      var at := hashvalue % |h.table|;
      ghost var ids, q := h.chains[at], 0;
      assert IsChain(h.heap, h.table[at], ids);
      InsideHeap(h.heap, h.table[at], ids);
      LookupMeans(h.heap, h.chains, |h.table|, h.hash, k);
      assert ids[0..] == ids;
      var x, before := h.table[at], 0;
      while x != 0
        invariant q <= |ids| && x == Nth(ids, q) && before == (if q == 0 then 0 else ids[q - 1])
        invariant forall r :: 0 <= r < q ==> ids[r] in h.heap && h.heap[ids[r]].k != k
        invariant Lookup(h.heap, ids, k) == Lookup(h.heap, ids[q..], k)
        decreases |ids| - q
      {
        assert Linked(h.heap, ids, q);
        if hashvalue == h.heap[x].h && h.heap[x].k == k {
          index, e, parent, p := at, x, before, q;
          return true;
        }
        assert ids[q..][1..] == ids[q + 1..];
        q := q + 1;
        before := x;
        x := h.heap[x].next;
      }
      NoMoreIds(ids, q);
      return false;
    }

    /** Removes everything. */
    static method RemoveAll(h: HashTable)
      requires h.Valid()
      modifies h`table, h`heap, h`chains, h`entrycount
      ensures h.Valid() && h.entrycount == 0 && h.heap == map[]
      ensures forall i :: 0 <= i < |h.table| ==> h.table[i] == 0
    {
      hide HashTable.Core;
      hide Sound;
      hide Unique;
      hide LinkedAll;
      hide From;
      hide Without;
      var itr := new Iterator.Start(h);
      ghost var all := Flat(h.chains);
      TotalFlat(h.chains);
      while itr.e != 0
        invariant itr.Valid() && itr.h == h && fresh(itr)
        invariant Total(h.chains) == multiset(itr.Rest())
        decreases |itr.Rest()|
      {
        ghost var rest := itr.Rest();
        itr.RestHead();
        assert rest == [rest[0]] + rest[1..];
        var more := itr.Remove();
      }
      CoreParts(h);
      NothingLeft(h.heap, h.table, h.chains);
    }

    lemma RestHead()
      requires Valid() && e != 0
      ensures Rest() != [] && Rest()[0] == e
    {
    }

    /** Visits every entry: each one once, in the order of the chains. */
    static method VisitAll(h: HashTable) returns (seen: seq<nat>)
      requires h.Valid()
      ensures seen == Flat(h.chains) && Unique(multiset(seen))
      ensures forall a :: a in seen <==> a in h.heap
    {
      hide HashTable.Core;
      hide Sound;
      hide Total;
      hide LinkedAll;
      hide From;
      hide Flat;
      hide Unique;
      var itr := new Iterator.Start(h);
      seen := [];
      while itr.e != 0
        invariant itr.Valid() && itr.h == h && fresh(itr)
        invariant seen + itr.Rest() == Flat(h.chains)
        decreases |itr.Rest()|
      {
        itr.RestHead();
        ghost var rest := itr.Rest();
        Shifted(seen, rest);
        seen := seen + [itr.e];
        var more := itr.Advance();
      }
      assert seen + [] == seen;
      AllSeen(h, seen);
    }
  }

  lemma CoreFacts(h: HashTable)
    requires h.Valid()
    ensures |h.table| == |h.chains| > 0 && LinkedAll(h.heap, h.table, h.chains)
    ensures Known(h.heap, h.chains) && Bucketed(h.heap, h.chains, |h.table|)
    ensures forall a :: a in h.heap ==> h.heap[a].h == h.hash(h.heap[a].k)
  {
  }

  lemma Shifted(seen: seq<nat>, rest: seq<nat>)
    requires rest != []
    ensures seen + rest == seen + [rest[0]] + rest[1..]
  {
  }

  lemma AllSeen(h: HashTable, seen: seq<nat>)
    requires h.Valid() && seen == Flat(h.chains)
    ensures Unique(multiset(seen)) && forall a :: a in seen <==> a in h.heap
  {
    hide Bucketed;
    hide LinkedAll;
    TotalFlat(h.chains);
    CoreParts(h);
    forall a ensures a in seen <==> a in h.heap { assert a in seen <==> a in multiset(seen); }
  }

  lemma CoreParts(h: HashTable)
    requires h.Valid()
    ensures Sound(h.heap, h.table, h.chains) && Unique(Total(h.chains)) && h.entrycount == |Total(h.chains)|
    ensures forall a :: a in h.heap <==> a in Total(h.chains)
  {
  }

  /** The first entry from chain i0 on is a, the head of chain i. */
  ghost predicate HeadAt(chains: seq<seq<nat>>, i0: nat, i: nat, a: nat)
    requires i0 <= i < |chains|
  {
    chains[i] != [] && chains[i][0] == a && Flat(chains[i0..]) == From(chains, i, 0)
  }

  lemma HeadIs(heap: Heap, table: seq<nat>, chains: seq<seq<nat>>, i: nat)
    requires LinkedAll(heap, table, chains) && i < |chains|
    ensures table[i] == 0 <==> chains[i] == []
    ensures table[i] == Nth(chains[i], 0)
  {
    ChainEmpty(heap, table[i], chains[i]);
  }

  lemma NothingThere(chains: seq<seq<nat>>)
    requires |Total(chains)| == 0
    ensures Flat(chains) == []
  {
    TotalFlat(chains);
    assert |multiset(Flat(chains))| == |Flat(chains)|;
  }

  lemma NextOf(heap: Heap, table: seq<nat>, chains: seq<seq<nat>>, i: nat, p: nat)
    requires LinkedAll(heap, table, chains) && i < |chains| && p < |chains[i]|
    ensures chains[i][p] in heap && heap[chains[i][p]].next == Nth(chains[i], p + 1)
  {
    assert IsChain(heap, table[i], chains[i]);
    assert Linked(heap, chains[i], p);
  }

  lemma RestStep(chains: seq<seq<nat>>, i: nat, p: nat)
    requires i < |chains| && p < |chains[i]|
    ensures From(chains, i, p) == [chains[i][p]] + From(chains, i, p + 1)
  {
    hide Flat;
    var e, l, r := chains[i][p], chains[i][p + 1..], Flat(chains[i + 1..]);
    assert chains[i][p..] == [e] + l;
    assert [e] + l + r == [e] + (l + r);
  }

  lemma ChainOver(heap: Heap, table: seq<nat>, chains: seq<seq<nat>>, i: nat, q: nat)
    requires LinkedAll(heap, table, chains) && i < |chains| && q <= |chains[i]| && Nth(chains[i], q) == 0
    ensures From(chains, i, q) == Flat(chains[i + 1..])
  {
    InsideHeap(heap, table[i], chains[i]);
    NoMoreIds(chains[i], q);
  }

  lemma RemoveRest(cs: seq<seq<nat>>, c: seq<seq<nat>>, i: nat, p: nat, next: nat)
    requires i < |cs| && p < |cs[i]| && c == cs[i := cs[i][..p] + cs[i][p + 1..]] && next == Nth(cs[i], p + 1)
    ensures p <= |c[i]| && next == Nth(c[i], p) && From(c, i, p) == From(cs, i, p + 1)
    ensures p > 0 ==> c[i][p - 1] == cs[i][p - 1]
    ensures From(cs, i, p) == [cs[i][p]] + From(cs, i, p + 1)
  {
    RestStep(cs, i, p);
    assert c[i][p..] == cs[i][p + 1..] && c[i + 1..] == cs[i + 1..];
  }

  lemma NothingLeft(heap: Heap, table: seq<nat>, chains: seq<seq<nat>>)
    requires Sound(heap, table, chains) && Total(chains) == multiset{}
    ensures heap == map[] && forall i :: 0 <= i < |table| ==> table[i] == 0
  {
    forall i | 0 <= i < |table| ensures table[i] == 0 {
      ChainEmpty(heap, table[i], chains[i]);
      if chains[i] != [] {
        TotalHas(chains, chains[i][0]);
        assert false;
      }
    }
  }
}
