/** B-tree nodes in memory: arrays of fixed size, of which the first n keys and the first n + 1
    pointers count. */
module BTreeHeap {
  import opened KeySearch
  import opened BTreeShape

  datatype Node = Node(leaf: bool, n: nat, keys: seq<Item>, kids: seq<nat>)

  type Heap = map<nat, Node>

  /** memmove of `count` elements. */
  function Moved<T>(dst: seq<T>, to: nat, src: seq<T>, from: nat, count: nat): (r: seq<T>)
    requires to + count <= |dst| && from + count <= |src|
    ensures |r| == |dst|
    ensures r[..to + count] == dst[..to] + src[from..from + count]
  {
    dst[..to] + src[from..from + count] + dst[to + count..]
  }

  /** Copying one more element. */
  lemma CopyStep<T>(dst: seq<T>, src: seq<T>, from: nat, j: nat)
    requires j < |dst| && from + j < |src|
    ensures Moved(dst, 0, src, from, 0) == dst
    ensures Moved(dst, 0, src, from, j)[j := src[j + from]] == Moved(dst, 0, src, from, j + 1)
  {
  }

  /** Shifting one more element up by one place, from the end of the first n. */
  lemma ShiftStep<T>(s: seq<T>, j: nat, n: nat)
    requires 0 < j <= n < |s|
    ensures Moved(s, j + 1, s, j, n - j)[j - 1] == s[j - 1]
    ensures Moved(s, j + 1, s, j, n - j)[j := s[j - 1]] == Moved(s, j, s, j - 1, n - j + 1)
  {
  }

  lemma NothingMoved<T>(s: seq<T>, to: nat, src: seq<T>, from: nat)
    requires to <= |s| && from <= |src|
    ensures Moved(s, to, src, from, 0) == s
  {
  }

  ghost function Roots(kids: seq<Tree>): (r: seq<nat>)
    ensures |r| == |kids|
  {
    seq(|kids|, i requires 0 <= i < |kids| => kids[i].id)
  }

  ghost predicate Arrays(nd: Node, t: nat) { |nd.keys| == 2 * t - 1 && |nd.kids| == 2 * t && nd.n <= 2 * t - 1 }

  /** The node itself; the pointers of a leaf are null. */
  ghost predicate NodeIs(nd: Node, t: nat, keys: seq<Item>, kids: seq<Tree>) {
    && Arrays(nd, t) && nd.keys[..nd.n] == keys
    && (nd.leaf <==> kids == [])
    && (if kids == [] then forall i :: 0 <= i < 2 * t ==> nd.kids[i] == 0
        else |kids| == nd.n + 1 && nd.kids[..nd.n + 1] == Roots(kids))
  }

  // ---------------------------------------------------------------------------------------
  // Ownership
  // ---------------------------------------------------------------------------------------

  ghost function Ids(tr: Tree): set<nat>
    decreases tr
  {
    {tr.id} + AllIds(tr.kids)
  }

  ghost function AllIds(kids: seq<Tree>): set<nat>
    decreases kids
  {
    if kids == [] then {} else Ids(kids[0]) + AllIds(kids[1..])
  }

  /** The tree lies in the heap, no node twice. */
  ghost predicate Owns(heap: Heap, t: nat, tr: Tree)
    decreases tr
  {
    && tr.id in heap && tr.id != 0 && NodeIs(heap[tr.id], t, tr.keys, tr.kids)
    && tr.id !in AllIds(tr.kids) && OwnsAll(heap, t, tr.kids)
  }

  ghost predicate OwnsAll(heap: Heap, t: nat, kids: seq<Tree>)
    decreases kids
  {
    kids == [] ||
    (Owns(heap, t, kids[0]) && OwnsAll(heap, t, kids[1..]) && Ids(kids[0]) !! AllIds(kids[1..]))
  }

  lemma {:induction false} IdsConcat(a: seq<Tree>, b: seq<Tree>)
    ensures AllIds(a + b) == AllIds(a) + AllIds(b)
    decreases a
  {
    hide Ids;
    if a == [] {
      assert a + b == b;
    } else {
      IdsConcat(a[1..], b);
      assert (a + b)[1..] == a[1..] + b;
    }
  }

  lemma {:induction false} OwnsConcat(heap: Heap, t: nat, a: seq<Tree>, b: seq<Tree>)
    ensures OwnsAll(heap, t, a + b) <==> OwnsAll(heap, t, a) && OwnsAll(heap, t, b) && AllIds(a) !! AllIds(b)
    decreases a
  {
    hide Ids;
    hide Owns;
    if a == [] {
      assert a + b == b;
    } else {
      OwnsConcat(heap, t, a[1..], b);
      IdsConcat(a[1..], b);
      assert (a + b)[1..] == a[1..] + b;
    }
  }

  lemma IdsOne(tr: Tree)
    ensures AllIds([tr]) == Ids(tr)
  {
    hide Ids;
    assert [tr][1..] == [];
    assert AllIds([]) == {};
  }

  lemma OwnsOne(heap: Heap, t: nat, tr: Tree)
    ensures OwnsAll(heap, t, [tr]) <==> Owns(heap, t, tr)
    ensures AllIds([tr]) == Ids(tr)
  {
    hide Ids;
    hide Owns;
    IdsOne(tr);
    assert [tr][1..] == [];
    assert OwnsAll(heap, t, []) && AllIds([]) == {};
  }

  ghost predicate Agree(heap: Heap, heap': Heap, ids: set<nat>) {
    forall a :: a in ids && a in heap ==> a in heap' && heap'[a] == heap[a]
  }

  /** A tree depends on its own nodes alone. */
  lemma {:induction false} OwnsFrame(heap: Heap, heap': Heap, t: nat, tr: Tree)
    requires Owns(heap, t, tr) && Agree(heap, heap', Ids(tr))
    ensures Owns(heap', t, tr)
    decreases tr
  {
    OwnsAllFrame(heap, heap', t, tr.kids);
  }

  lemma {:induction false} OwnsAllFrame(heap: Heap, heap': Heap, t: nat, kids: seq<Tree>)
    requires OwnsAll(heap, t, kids) && Agree(heap, heap', AllIds(kids))
    ensures OwnsAll(heap', t, kids)
    decreases kids
  {
    if kids != [] {
      OwnsFrame(heap, heap', t, kids[0]);
      OwnsAllFrame(heap, heap', t, kids[1..]);
    }
  }

  lemma {:induction false} OwnsInHeap(heap: Heap, t: nat, tr: Tree)
    requires Owns(heap, t, tr)
    ensures Ids(tr) <= heap.Keys && 0 !in Ids(tr)
    decreases tr
  {
    OwnsAllInHeap(heap, t, tr.kids);
  }

  lemma {:induction false} OwnsAllInHeap(heap: Heap, t: nat, kids: seq<Tree>)
    requires OwnsAll(heap, t, kids)
    ensures AllIds(kids) <= heap.Keys && 0 !in AllIds(kids)
    decreases kids
  {
    if kids != [] {
      OwnsInHeap(heap, t, kids[0]);
      OwnsAllInHeap(heap, t, kids[1..]);
    }
  }

  /** Children a, c, b in a row. */
  lemma OwnsMiddle(heap: Heap, t: nat, a: seq<Tree>, c: seq<Tree>, b: seq<Tree>)
    ensures AllIds(a + c + b) == AllIds(a) + AllIds(c) + AllIds(b)
    ensures OwnsAll(heap, t, a + c + b) <==>
              && OwnsAll(heap, t, a) && OwnsAll(heap, t, c) && OwnsAll(heap, t, b)
              && AllIds(a) !! AllIds(c) !! AllIds(b)
  {
    hide AllIds;
    hide OwnsAll;
    OwnsConcat(heap, t, a + c, b);
    OwnsConcat(heap, t, a, c);
    IdsConcat(a + c, b);
    IdsConcat(a, c);
  }

  // ---------------------------------------------------------------------------------------
  // Changing a part
  // ---------------------------------------------------------------------------------------

  /** Only nodes of `ids` have changed or gone, `ids'` are in their place, and new ones are fresh. */
  ghost predicate Changed(heap: Heap, heap': Heap, ids: set<nat>, ids': set<nat>) {
    && Agree(heap, heap', heap.Keys - ids)
    && heap'.Keys == heap.Keys - ids + ids'
    && (ids' - ids) !! heap.Keys
  }

  lemma ChangedTrans(h0: Heap, h1: Heap, h2: Heap, a: set<nat>, b: set<nat>, c: set<nat>)
    requires Changed(h0, h1, a, b) && Changed(h1, h2, b, c) && a <= h0.Keys
    ensures Changed(h0, h2, a, c)
  {
  }

  /** A row of children c is replaced by d, within one node. */
  lemma RowReplaced(heap: Heap, heap': Heap, t: nat, x: Tree, a: seq<Tree>, c: seq<Tree>, b: seq<Tree>,
                    x': Tree, d: seq<Tree>)
    requires Owns(heap, t, x) && x.kids == a + c + b
    requires x'.id == x.id && x'.kids == a + d + b && x.id in heap'
    requires NodeIs(heap'[x.id], t, x'.keys, x'.kids)
    requires OwnsAll(heap', t, d) && Changed(heap, heap', {x.id} + AllIds(c), {x.id} + AllIds(d))
    requires x.id !in AllIds(d)
    ensures Owns(heap', t, x') && Changed(heap, heap', Ids(x), Ids(x'))
  {
    OwnsMiddle(heap, t, a, c, b);
    OwnsMiddle(heap', t, a, d, b);
    OwnsAllInHeap(heap, t, x.kids);
    hide NodeIs;
    hide OwnsAll;
    hide AllIds;
    RowChanged(heap, heap', AllIds(a), AllIds(c), AllIds(b), AllIds(d), x.id);
    OwnsAllFrame(heap, heap', t, a);
    OwnsAllFrame(heap, heap', t, b);
  }

  lemma RowChanged(heap: Heap, heap': Heap, a: set<nat>, c: set<nat>, b: set<nat>, d: set<nat>, x: nat)
    requires a + c + b <= heap.Keys && x in heap && x !in a + c + b && a !! c !! b && x !in d
    requires Changed(heap, heap', {x} + c, {x} + d)
    ensures a !! d !! b && x !in a + d + b
    ensures Agree(heap, heap', a) && Agree(heap, heap', b)
    ensures Changed(heap, heap', {x} + (a + c + b), {x} + (a + d + b))
  {
  }
}
