/** The B-tree with its nodes in memory. */
module BTrees {
  import opened BitLog
  import opened KeySearch
  import opened BTreeShape
  import opened BTreeOrder
  import opened BTreeHeap
  import opened BTreeSteps
  import opened BTreeDelete
  import opened BTreeSwaps

  // ---------------------------------------------------------------------------------------
  // Sizes
  // ---------------------------------------------------------------------------------------

  const NODE_BYTES := 16    // leaf and n in one word, and the pool pointer
  const PTR_BYTES := 8

  /** Half the fan-out that fits into `size` bytes; below 2 there is no tree. */
  function Degree(size: int): int {
    var n := (size - NODE_BYTES - PTR_BYTES) / (2 * PTR_BYTES);
    if size < NODE_BYTES + PTR_BYTES then 0 else (n + 1) / 2
  }

  /** Bytes behind the node header: 2 * t - 1 keys, then 2 * t pointers. */
  function Extra(t: nat): int { PTR_BYTES + (2 * t - 1) * (2 * PTR_BYTES) }

  /** Keys and pointers tile the space behind the header, fit into the size asked for, and a node of
      two more keys would not. */
  lemma LayoutFits(size: int)
    requires Degree(size) >= 2
    ensures var t := Degree(size);
            && NODE_BYTES + (2 * t - 1) * PTR_BYTES + 2 * t * PTR_BYTES == NODE_BYTES + Extra(t)
            && NODE_BYTES + Extra(t) <= size < NODE_BYTES + Extra(t + 1)
  {
  }

  class BTree {
    const t: nat
    const nbits: nat
    const logs: LogTable
    var root: nat
    var heap: Heap
    /** Addresses from here on have never been handed out. */
    var next: nat

    ghost predicate Ready()
      reads this, logs
    {
      && t >= 2 && next > 0 && (forall a :: a in heap ==> a < next)
      && logs.Valid() && 2 * t - 1 < |logs.table| && SearchBits(2 * t - 1, nbits)
    }

    /** An empty tree with nodes of at most `size` bytes. */
    constructor Create(logs: LogTable, size: int)
      requires logs.Valid() && |logs.table| % 2 == 0
      requires Degree(size) >= 2 && 2 * Degree(size) - 1 < Pow2(32)
      modifies logs
      ensures Ready() && t == Degree(size) && this.logs == logs
      ensures |logs.table| % 2 == 0 && old(|logs.table|) <= |logs.table|
      ensures Valid(Tree(root, [], []), 0)
    {
      hide Pow2;
      hide Log;
      t := Degree(size);
      this.logs := logs;
      root := 1;
      next := 2;
      heap := map[1 := Node(true, 0, seq(2 * Degree(size) - 1, _ => Item(0, 0)), seq(2 * Degree(size), _ => 0))];
      var bits := logs.NodeBits(2 * Degree(size) - 1);
      nbits := bits;
      new;
      EmptyTree(heap, t, root);
    }

    /** The nodes in the heap are those of the tree: sorted, every leaf h levels down, every node but
        the root at least half full. */
    ghost predicate Valid(tr: Tree, h: nat)
      reads this, logs
    {
      && Ready() && tr.id == root && Owns(heap, t, tr) && heap.Keys == Ids(tr)
      && Shape(tr, h, t, if h == 0 then 0 else 1) && Sorted(InOrder(tr))
    }

    // ---------------------------------------------------------------------------------------
    // Nodes
    // ---------------------------------------------------------------------------------------

    /** A zeroed leaf. */
    method AllocNode() returns (z: nat)
      requires Ready()
      modifies this`heap, this`next
      ensures Ready() && z != 0 && z !in old(heap) && heap.Keys == old(heap).Keys + {z}
      ensures heap == old(heap)[z := heap[z]] && heap[z].leaf && heap[z].n == 0 && Arrays(heap[z], t)
      ensures forall i :: 0 <= i < 2 * t ==> heap[z].kids[i] == 0
    {
      z := next;
      next := next + 1;
      heap := heap[z := Node(true, 0, seq(2 * t - 1, _ => Item(0, 0)), seq(2 * t, _ => 0))];
    }

    /** memmove from the keys of one node to those of another, or within one. */
    method MoveKeys(x: nat, to: nat, y: nat, from: nat, count: nat)
      requires x in heap && y in heap && to + count <= |heap[x].keys| && from + count <= |heap[y].keys|
      modifies this`heap
      ensures heap == old(heap)[x := old(heap[x].(keys := Moved(heap[x].keys, to, heap[y].keys, from, count)))]
    {
      heap := heap[x := heap[x].(keys := Moved(heap[x].keys, to, heap[y].keys, from, count))];
    }

    method MoveKids(x: nat, to: nat, y: nat, from: nat, count: nat)
      requires x in heap && y in heap && to + count <= |heap[x].kids| && from + count <= |heap[y].kids|
      modifies this`heap
      ensures heap == old(heap)[x := old(heap[x].(kids := Moved(heap[x].kids, to, heap[y].kids, from, count)))]
    {
      heap := heap[x := heap[x].(kids := Moved(heap[x].kids, to, heap[y].kids, from, count))];
    }

    method FindKIndex(x: nat, k: Item) returns (i: int, r: int)
      requires Ready() && x in heap && Arrays(heap[x], t) && Sorted(heap[x].keys[..heap[x].n])
      modifies logs
      ensures Ready() && Found(heap[x].keys[..heap[x].n], k, i, r)
    {
      i, r := FindByBits(heap[x].keys, heap[x].n, k, logs, nbits);
    }

    // ---------------------------------------------------------------------------------------
    // Splitting
    // ---------------------------------------------------------------------------------------

    /** Copies the last half of the full node y to the front of z. */
    method CopyHalf(z: nat, y: nat)
      requires t >= 2 && z in heap && y in heap && z != y && Arrays(heap[z], t) && Arrays(heap[y], t)
      modifies this`heap
      ensures var nz, ny := old(heap[z]), old(heap[y]);
              heap == old(heap)[z := Node(ny.leaf, t - 1, Moved(nz.keys, 0, ny.keys, t, t - 1),
                                          if ny.leaf then nz.kids else Moved(nz.kids, 0, ny.kids, t, t))]
    {
      hide Moved;
      ghost var nz, ny := heap[z], heap[y];
      heap := heap[z := heap[z].(leaf := heap[y].leaf)];
      heap := heap[z := heap[z].(n := t - 1)];
      NothingMoved(nz.keys, 0, ny.keys, t);
      var j := 0;
      while j < t - 1
        invariant 0 <= j <= t - 1
        invariant heap == old(heap)[z := Node(ny.leaf, t - 1, Moved(nz.keys, 0, ny.keys, t, j), nz.kids)]
      {
        CopyStep(nz.keys, ny.keys, t, j);
        heap := heap[z := heap[z].(keys := heap[z].keys[j := heap[y].keys[j + t]])];
        j := j + 1;
      }
      if !heap[y].leaf { CopyHalfKids(z, y); }
    }

    method CopyHalfKids(z: nat, y: nat)
      requires t >= 2 && z in heap && y in heap && z != y && Arrays(heap[z], t) && Arrays(heap[y], t)
      modifies this`heap
      ensures heap == old(heap)[z := old(heap[z]).(kids := Moved(old(heap[z]).kids, 0, old(heap[y]).kids, t, t))]
    {
      hide Moved;
      ghost var nz, ny := heap[z], heap[y];
      NothingMoved(nz.kids, 0, ny.kids, t);
      var j := 0;
      while j < t
        invariant 0 <= j <= t
        invariant heap == old(heap)[z := nz.(kids := Moved(nz.kids, 0, ny.kids, t, j))]
      {
        CopyStep(nz.kids, ny.kids, t, j);
        heap := heap[z := heap[z].(kids := heap[z].kids[j := heap[y].kids[j + t]])];
        j := j + 1;
      }
    }

    /** Makes room in the parent x and links z behind the child i, with the key m between. */
    method LinkHalf(x: nat, i: nat, z: nat, m: Item)
      requires t >= 2 && x in heap && Arrays(heap[x], t) && i <= heap[x].n < 2 * t - 1
      modifies this`heap
      ensures var nd := old(heap[x]); var n := nd.n;
              heap == old(heap)[x := Node(nd.leaf, n + 1, Moved(nd.keys, i + 1, nd.keys, i, n - i)[i := m],
                                          Moved(nd.kids, i + 2, nd.kids, i + 1, n - i)[i + 1 := z])]
    {
      hide Moved;
      ShiftKids(x, i);
      heap := heap[x := heap[x].(kids := heap[x].kids[i + 1 := z])];
      ShiftKeys(x, i);
      heap := heap[x := heap[x].(keys := heap[x].keys[i := m])];
      heap := heap[x := heap[x].(n := heap[x].n + 1)];
    }

    method ShiftKids(x: nat, i: nat)
      requires t >= 2 && x in heap && Arrays(heap[x], t) && i <= heap[x].n < 2 * t - 1
      modifies this`heap
      ensures var nd := old(heap[x]);
              heap == old(heap)[x := nd.(kids := Moved(nd.kids, i + 2, nd.kids, i + 1, nd.n - i))]
    {
      hide Moved;
      ghost var nd := heap[x];
      NothingMoved(nd.kids, nd.n + 2, nd.kids, nd.n + 1);
      var j: nat := heap[x].n;
      while j > i
        invariant i <= j <= nd.n
        invariant heap == old(heap)[x := nd.(kids := Moved(nd.kids, j + 2, nd.kids, j + 1, nd.n - j))]
      {
        ShiftStep(nd.kids, j + 1, nd.n + 1);
        heap := heap[x := heap[x].(kids := heap[x].kids[j + 1 := heap[x].kids[j]])];
        j := j - 1;
      }
    }

    method ShiftKeys(x: nat, i: nat)
      requires t >= 2 && x in heap && Arrays(heap[x], t) && i <= heap[x].n < 2 * t - 1
      modifies this`heap
      ensures var nd := old(heap[x]);
              heap == old(heap)[x := nd.(keys := Moved(nd.keys, i + 1, nd.keys, i, nd.n - i))]
    {
      hide Moved;
      ghost var nd := heap[x];
      NothingMoved(nd.keys, nd.n + 1, nd.keys, nd.n);
      var j: int := heap[x].n - 1;
      while j >= i
        invariant i - 1 <= j <= nd.n - 1
        invariant heap == old(heap)[x := nd.(keys := Moved(nd.keys, j + 2, nd.keys, j + 1, nd.n - 1 - j))]
      {
        ShiftStep(nd.keys, j + 1, nd.n);
        heap := heap[x := heap[x].(keys := heap[x].keys[j + 1 := heap[x].keys[j]])];
        j := j - 1;
      }
    }

    /** Splits the full child y of x at i. */
    method SplitChild(x: nat, i: nat, y: nat, ghost tr: Tree) returns (ghost z: nat)
      requires Ready() && Owns(heap, t, tr) && tr.id == x && Inner(tr) && i <= |tr.keys| < 2 * t - 1
      requires y == tr.kids[i].id && Full(tr.kids[i], t)
      modifies this`heap, this`next
      ensures Ready() && Owns(heap, t, Split(tr, i, t, z))
      ensures Changed(old(heap), heap, Ids(tr), Ids(Split(tr, i, t, z)))
    {
      hide Owns;
      hide NodeIs;
      hide Ids;
      hide Moved;
      hide Changed;
      ghost var h0 := heap;
      SplitStart(heap, t, tr, i);
      var z' := AllocNode();
      z := z';
      ghost var blank := heap[z];
      CopyHalf(z', y);
      heap := heap[y := heap[y].(n := t - 1)];
      LinkHalf(x, i, z', heap[y].keys[t - 1]);
      SplitDone(h0, heap, t, tr, i, z, blank);
    }

    // ---------------------------------------------------------------------------------------
    // Insertion
    // ---------------------------------------------------------------------------------------

    /** Makes room at j and stores k there. */
    method PutKey(x: nat, j: nat, k: Item)
      requires x in heap && Arrays(heap[x], t) && j <= heap[x].n < 2 * t - 1
      modifies this`heap
      ensures var nd := old(heap[x]);
              heap == old(heap)[x := nd.(keys := Moved(nd.keys, j + 1, nd.keys, j, nd.n - j)[j := k], n := nd.n + 1)]
    {
      hide Moved;
      NothingMoved(heap[x].keys, heap[x].n + 1, heap[x].keys, heap[x].n);
      if j != heap[x].n { MoveKeys(x, j + 1, x, j, heap[x].n - j); }
      heap := heap[x := heap[x].(keys := heap[x].keys[j := k])];
      heap := heap[x := heap[x].(n := heap[x].n + 1)];
    }

    method InsertLeaf(x: nat, k: Item, ghost tr: Tree, ghost lo: int) returns (ghost tr': Tree)
      requires Ready() && Owns(heap, t, tr) && tr.id == x && tr.kids == []
      requires Shape(tr, 0, t, lo) && |tr.keys| < 2 * t - 1 && Sorted(InOrder(tr))
      modifies this`heap, logs
      ensures Ready() && Owns(heap, t, tr') && tr'.id == x && Changed(old(heap), heap, Ids(tr), Ids(tr'))
      ensures Shape(tr', 0, t, lo) && Inserted(InOrder(tr), k, InOrder(tr')) && Sorted(InOrder(tr'))
    {
      hide Moved;
      hide Owns;
      hide Ids;
      hide Changed;
      hide Sorted;
      hide NodeIs;
      hide InOrder;
      hide Shape;
      ghost var h0 := heap;
      NodeFacts(heap, t, tr, 0, lo);
      LeafFacts(tr, t, lo);
      var i, r := FindKIndex(x, k);
      LeafGrows(heap[x], t, tr, i, k);
      PutKey(x, i + 1, k);
      tr' := LeafWith(tr, i, k);
      LeafFacts(tr', t, lo);
      InsertedLeaf(tr.keys, k, i);
      LeafReplaced(h0, heap, t, tr, tr');
    }

    /** Inserts below a node that is not full; splits a full child before entering it. */
    method InsertNonFull(x: nat, k: Item, ghost tr: Tree, ghost h: nat, ghost lo: int) returns (ghost tr': Tree)
      requires Ready() && Owns(heap, t, tr) && tr.id == x
      requires Shape(tr, h, t, lo) && |tr.keys| < 2 * t - 1 && Sorted(InOrder(tr))
      modifies this`heap, this`next, logs
      ensures Ready() && Owns(heap, t, tr') && tr'.id == x && Changed(old(heap), heap, Ids(tr), Ids(tr'))
      ensures Shape(tr', h, t, lo) && Inserted(InOrder(tr), k, InOrder(tr')) && Sorted(InOrder(tr'))
      decreases h
    {
      hide Owns;
      hide NodeIs;
      hide Ids;
      hide InOrder;
      hide Changed;
      hide Shape;
      NodeFacts(heap, t, tr, h, lo);
      if heap[x].leaf {
        tr' := InsertLeaf(x, k, tr, lo);
      } else {
        var i, r := FindKIndex(x, k);
        i := i + 1;
        ghost var tr1, h1 := tr, heap;
        i, tr1 := MakeRoom(x, k, i, tr, h, lo);
        ghost var h2 := heap;
        ChildFacts(h2, t, tr1, i, h, lo);
        RouteInsert(tr1, k, i);
        ghost var c := InsertNonFull(heap[x].kids[i], k, tr1.kids[i], h - 1, t - 1);
        tr' := ChildAt(tr1, i, c);
        ChildReplaced(h2, heap, t, tr1, i, c);
        InsertBelow(tr1, k, i, c);
        ChildShape(tr1, i, c, h, t, lo);
        OwnsInHeap(h1, t, tr);
        ChangedTrans(h1, h2, heap, Ids(tr), Ids(tr1), Ids(tr'));
      }
    }

    /** Splits the child at i0 if it is full, and picks the half that is to take k. */
    method MakeRoom(x: nat, k: Item, i0: nat, ghost tr: Tree, ghost h: nat, ghost lo: int)
      returns (i: nat, ghost tr': Tree)
      requires Ready() && Owns(heap, t, tr) && tr.id == x && h > 0
      requires Shape(tr, h, t, lo) && |tr.keys| < 2 * t - 1 && Sorted(InOrder(tr))
      requires LastAtMost(tr.keys, k, i0 - 1)
      modifies this`heap, this`next
      ensures Ready() && Owns(heap, t, tr') && tr'.id == x && Changed(old(heap), heap, Ids(tr), Ids(tr'))
      ensures Shape(tr', h, t, lo) && Inner(tr') && InOrder(tr') == InOrder(tr)
      ensures FitsAt(tr'.keys, k, i) && |tr'.kids[i].keys| < 2 * t - 1
      ensures |tr.kids[i0].keys| < 2 * t - 1 ==> i == i0 && tr' == tr
      ensures |tr.kids[i0].keys| == 2 * t - 1 ==>
                && |tr'.keys| == |tr.keys| + 1 && tr'.keys[i0] == tr.kids[i0].keys[t - 1]
                && i == if k.rank > tr'.keys[i0].rank then i0 + 1 else i0
    {
      hide Owns;
      hide NodeIs;
      hide Ids;
      hide InOrder;
      hide Changed;
      hide Shape;
      i := i0;
      ChildFacts(heap, t, tr, i, h, lo);
      if heap[heap[x].kids[i]].n == 2 * t - 1 {
        SplitKeeps(tr, i, h, t, lo, 0);
        ghost var z := SplitChild(x, i, heap[x].kids[i], tr);
        tr' := Split(tr, i, t, z);
        SplitKeeps(tr, i, h, t, lo, z);
        NodeFacts(heap, t, tr', h, lo);
        if Cmp(k, heap[x].keys[i]) > 0 { i := i + 1; }
      } else {
        tr' := tr;
        NothingChanged(heap, t, tr);
      }
    }

    /** Adds an item. */
    method Insert(k: Item, ghost tr: Tree, ghost h: nat) returns (ghost tr': Tree, ghost h': nat)
      requires Valid(tr, h)
      modifies this`heap, this`next, this`root, logs
      ensures Valid(tr', h') && Inserted(InOrder(tr), k, InOrder(tr'))
      ensures h' == if |tr.keys| == 2 * t - 1 then h + 1 else h
    {
      hide Owns;
      hide NodeIs;
      hide Ids;
      hide InOrder;
      hide Shape;
      var r := root;
      ghost var tr1, lo, h0 := tr, if h == 0 then 0 else 1, heap;
      h' := h;
      NodeFacts(heap, t, tr, h, lo);
      if heap[r].n == 2 * t - 1 {
        tr1 := GrowRoot(tr, h);
        r := root;
        h', lo := h + 1, 1;
      } else {
        NothingChanged(heap, t, tr);
      }
      ghost var h1 := heap;
      tr' := InsertNonFull(r, k, tr1, h', lo);
    }

    /** The full root becomes one of two children of a new root. */
    method GrowRoot(ghost tr: Tree, ghost h: nat) returns (ghost tr': Tree)
      requires Valid(tr, h) && |tr.keys| == 2 * t - 1
      modifies this`heap, this`next, this`root
      ensures Valid(tr', h + 1) && InOrder(tr') == InOrder(tr) && |tr'.keys| == 1
    {
      hide Owns;
      hide NodeIs;
      hide Ids;
      hide InOrder;
      hide Shape;
      hide Inner;
      ghost var h0 := heap;
      var r := root;
      var s := AllocNode();
      root := s;
      heap := heap[s := heap[s].(leaf := false)];
      heap := heap[s := heap[s].(n := 0)];
      heap := heap[s := heap[s].(kids := heap[s].kids[0 := r])];
      ghost var top := Tree(s, [], [tr]);
      TopFacts(h0, heap, t, tr, h, s);
      ghost var z := SplitChild(s, 0, r, top);
      tr' := Split(top, 0, t, z);
      SplitKeeps(top, 0, h + 1, t, 0, z);
      ShapeRaised(tr', h + 1, t, 0, 1);
    }

    // ---------------------------------------------------------------------------------------
    // Deletion: the steps
    // ---------------------------------------------------------------------------------------

    /** Merges `mid` and the child i + 1 into the child i. */
    method MergeKids(x: nat, i: nat, mid: Item, ghost tr: Tree, ghost h: nat, ghost lo: int)
      requires Ready() && Owns(heap, t, tr) && tr.id == x && Shape(tr, h, t, lo) && h > 0 && i < |tr.keys|
      requires |tr.kids[i].keys| == t - 1 && |tr.kids[i + 1].keys| == t - 1
      modifies this`heap
      ensures Ready() && Inner(tr) && Owns(heap, t, Merge(tr, i, mid))
      ensures Changed(old(heap), heap, Ids(tr), Ids(Merge(tr, i, mid)))
    {
      hide Owns;
      hide NodeIs;
      hide Ids;
      hide Moved;
      hide Changed;
      hide Shape;
      ghost var h0 := heap;
      PairFacts(heap, t, tr, i, h, lo);
      var y, z := heap[x].kids[i], heap[x].kids[i + 1];
      Absorb(y, z, mid);
      DropChild(x, i);
      heap := heap - {z};
      MergeDone(h0, heap, t, tr, i, mid, h, lo);
    }

    /** Appends mid and all of z to y. */
    method Absorb(y: nat, z: nat, mid: Item)
      requires y in heap && z in heap && y != z && Arrays(heap[y], t) && Arrays(heap[z], t)
      requires heap[y].n + 1 + heap[z].n <= 2 * t - 1
      modifies this`heap
      ensures var ny, nz := old(heap[y]), old(heap[z]);
              heap == old(heap)[y := Node(ny.leaf, ny.n + 1 + nz.n,
                                          Moved(ny.keys[ny.n := mid], ny.n + 1, nz.keys, 0, nz.n),
                                          Moved(ny.kids, ny.n + 1, nz.kids, 0, nz.n + 1))]
    {
      hide Moved;
      heap := heap[y := heap[y].(keys := heap[y].keys[heap[y].n := mid], n := heap[y].n + 1)];
      MoveKeys(y, heap[y].n, z, 0, heap[z].n);
      MoveKids(y, heap[y].n, z, 0, heap[z].n + 1);
      heap := heap[y := heap[y].(n := heap[y].n + heap[z].n)];
    }

    /** Closes the gap left by the key i and the child i + 1. */
    method DropChild(x: nat, i: nat)
      requires x in heap && Arrays(heap[x], t) && i < heap[x].n
      modifies this`heap
      ensures var nd := old(heap[x]); var n := nd.n;
              heap == old(heap)[x := Node(nd.leaf, n - 1, Moved(nd.keys, i, nd.keys, i + 1, n - i - 1),
                                          Moved(nd.kids, i + 1, nd.kids, i + 2, n - i - 1))]
    {
      hide Moved;
      MoveKeys(x, i, x, i + 1, heap[x].n - i - 1);
      MoveKids(x, i + 1, x, i + 2, heap[x].n - i - 1);
      heap := heap[x := heap[x].(n := heap[x].n - 1)];
    }

    /** Moves all keys and children up by one place. */
    method ShiftUp(x: nat)
      requires x in heap && Arrays(heap[x], t) && heap[x].n < 2 * t - 1
      modifies this`heap
      ensures var nd := old(heap[x]);
              heap == old(heap)[x := nd.(keys := Moved(nd.keys, 1, nd.keys, 0, nd.n),
                                         kids := Moved(nd.kids, 1, nd.kids, 0, nd.n + 1))]
              && |heap[x].keys| == |nd.keys| && |heap[x].kids| == |nd.kids|
    {
      MoveKeys(x, 1, x, 0, heap[x].n);
      MoveKids(x, 1, x, 0, heap[x].n + 1);
    }

    /** The other way, once there is one key less. */
    method ShiftDown(x: nat)
      requires x in heap && Arrays(heap[x], t) && heap[x].n < 2 * t - 1
      modifies this`heap
      ensures var nd := old(heap[x]);
              heap == old(heap)[x := nd.(keys := Moved(nd.keys, 0, nd.keys, 1, nd.n),
                                         kids := Moved(nd.kids, 0, nd.kids, 1, nd.n + 1))]
    {
      MoveKeys(x, 0, x, 1, heap[x].n);
      MoveKids(x, 0, x, 1, heap[x].n + 1);
    }

    method PassRight(x: nat, i: nat, y: nat, xp: nat)
      requires x in heap && y in heap && xp in heap && x != y && x != xp && y != xp
      requires Arrays(heap[x], t) && Arrays(heap[y], t) && Arrays(heap[xp], t)
      requires i < heap[x].n && heap[y].n > 0 && heap[xp].n < 2 * t - 1
      modifies this`heap
      ensures var nx, ny, nz := old(heap[x]), old(heap[y]), old(heap[xp]);
              heap == old(heap)[xp := Node(nz.leaf, nz.n + 1, Moved(nz.keys, 1, nz.keys, 0, nz.n)[0 := nx.keys[i]],
                                           Moved(nz.kids, 1, nz.kids, 0, nz.n + 1)[0 := ny.kids[ny.n]])]
                               [x := nx.(keys := nx.keys[i := ny.keys[ny.n - 1]])]
                               [y := ny.(n := ny.n - 1)]
    {
      hide Moved;
      ShiftUp(xp);
      heap := heap[xp := heap[xp].(keys := heap[xp].keys[0 := heap[x].keys[i]])];
      heap := heap[x := heap[x].(keys := heap[x].keys[i := heap[y].keys[heap[y].n - 1]])];
      heap := heap[xp := heap[xp].(kids := heap[xp].kids[0 := heap[y].kids[heap[y].n]])];
      heap := heap[y := heap[y].(n := heap[y].n - 1)];
      heap := heap[xp := heap[xp].(n := heap[xp].n + 1)];
    }

    method PassLeft(x: nat, i: nat, xp: nat, y: nat)
      requires x in heap && y in heap && xp in heap && x != y && x != xp && y != xp
      requires Arrays(heap[x], t) && Arrays(heap[y], t) && Arrays(heap[xp], t)
      requires i < heap[x].n && heap[y].n > 0 && heap[xp].n < 2 * t - 1
      modifies this`heap
      ensures var nx, ny, nz := old(heap[x]), old(heap[xp]), old(heap[y]);
              heap == old(heap)[xp := Node(ny.leaf, ny.n + 1, ny.keys[ny.n := nx.keys[i]],
                                           ny.kids[ny.n + 1 := nz.kids[0]])]
                               [x := nx.(keys := nx.keys[i := nz.keys[0]])]
                               [y := Node(nz.leaf, nz.n - 1, Moved(nz.keys, 0, nz.keys, 1, nz.n - 1),
                                          Moved(nz.kids, 0, nz.kids, 1, nz.n))]
    {
      hide Moved;
      heap := heap[xp := heap[xp].(keys := heap[xp].keys[heap[xp].n := heap[x].keys[i]], n := heap[xp].n + 1)];
      heap := heap[x := heap[x].(keys := heap[x].keys[i := heap[y].keys[0]])];
      heap := heap[xp := heap[xp].(kids := heap[xp].kids[heap[xp].n := heap[y].kids[0]])];
      heap := heap[y := heap[y].(n := heap[y].n - 1)];
      ShiftDown(y);
    }

    /** The child i + 1 gets a key from its left neighbour by way of the parent. */
    method TakeFromLeft(x: nat, i: nat, ghost tr: Tree, ghost h: nat, ghost lo: int)
      requires Ready() && Owns(heap, t, tr) && tr.id == x && Shape(tr, h, t, lo) && h > 0 && i < |tr.keys|
      requires |tr.kids[i].keys| >= t && |tr.kids[i + 1].keys| == t - 1
      modifies this`heap
      ensures Ready() && Inner(tr) && Owns(heap, t, LendRight(tr, i))
      ensures Changed(old(heap), heap, Ids(tr), Ids(LendRight(tr, i)))
    {
      hide Owns;
      hide NodeIs;
      hide Ids;
      hide Moved;
      hide Changed;
      hide Shape;
      ghost var h0 := heap;
      PairFacts(heap, t, tr, i, h, lo);
      PassRight(x, i, heap[x].kids[i], heap[x].kids[i + 1]);
      TakenFromLeft(h0, heap, t, tr, i, h, lo);
    }

    /** The child i gets a key from its right neighbour by way of the parent. */
    method TakeFromRight(x: nat, i: nat, ghost tr: Tree, ghost h: nat, ghost lo: int)
      requires Ready() && Owns(heap, t, tr) && tr.id == x && Shape(tr, h, t, lo) && h > 0 && i < |tr.keys|
      requires |tr.kids[i].keys| == t - 1 && |tr.kids[i + 1].keys| >= t
      modifies this`heap
      ensures Ready() && Inner(tr) && Owns(heap, t, LendLeft(tr, i))
      ensures Changed(old(heap), heap, Ids(tr), Ids(LendLeft(tr, i)))
    {
      hide Owns;
      hide NodeIs;
      hide Ids;
      hide Moved;
      hide Changed;
      hide Shape;
      ghost var h0 := heap;
      PairFacts(heap, t, tr, i, h, lo);
      PassLeft(x, i, heap[x].kids[i], heap[x].kids[i + 1]);
      TakenFromRight(h0, heap, t, tr, i, h, lo);
    }

    /** Makes sure that the child to enter has at least t keys: `xp` is that child, maybe merged with
        its neighbour, at position p. */
    method Fatten(x: nat, i: nat, ghost tr: Tree, ghost h: nat, ghost lo: int)
      returns (xp: nat, ghost tr': Tree, ghost p: nat)
      requires Ready() && Owns(heap, t, tr) && tr.id == x && Shape(tr, h, t, lo) && h > 0
      requires i <= |tr.keys| && |tr.keys| >= 1
      modifies this`heap
      ensures Ready() && Owns(heap, t, tr') && tr'.id == x && Changed(old(heap), heap, Ids(tr), Ids(tr'))
      ensures Fattened(tr, i, tr', p, h, t) && xp == tr'.kids[p].id
      ensures tr' == (if |tr.kids[i].keys| >= t then tr
                      else if i > 0 && |tr.kids[i - 1].keys| >= t then LendRight(tr, i - 1)
                      else if i < |tr.keys| && |tr.kids[i + 1].keys| >= t then LendLeft(tr, i)
                      else if i > 0 then Merge(tr, i - 1, tr.keys[i - 1])
                      else Merge(tr, i, tr.keys[i]))
    {
      hide Owns;
      hide Fattened;
      hide NodeIs;
      hide Ids;
      hide Changed;
      hide Shape;
      hide InOrder;
      hide Includes;
      hide Merge;
      hide LendLeft;
      hide LendRight;
      ChildFacts(heap, t, tr, i, h, lo);
      NodeFat(heap, t, tr, i, h, lo);
      xp, tr', p := heap[x].kids[i], tr, i;
      if heap[xp].n != t - 1 {
        NothingChanged(heap, t, tr);
        FatAlready(tr, i, h, t);
        return;
      }
      if i > 0 { PairFacts(heap, t, tr, i - 1, h, lo); }
      if i < heap[x].n { PairFacts(heap, t, tr, i, h, lo); }
      if i > 0 && heap[heap[x].kids[i - 1]].n >= t {
        LentFromLeft(tr, i - 1, h, t, lo);
        TakeFromLeft(x, i - 1, tr, h, lo);
        tr' := LendRight(tr, i - 1);
      } else if i < heap[x].n && heap[heap[x].kids[i + 1]].n >= t {
        LentFromRight(tr, i, h, t, lo);
        TakeFromRight(x, i, tr, h, lo);
        tr' := LendLeft(tr, i);
      } else if i > 0 {
        ghost var mid := tr.keys[i - 1];
        MergedKids(tr, i - 1, h, t, lo);
        xp := heap[x].kids[i - 1];
        MergeKids(x, i - 1, heap[x].keys[i - 1], tr, h, lo);
        tr', p := Merge(tr, i - 1, mid), i - 1;
      } else {
        ghost var mid := tr.keys[i];
        MergedKids(tr, i, h, t, lo);
        MergeKids(x, i, heap[x].keys[i], tr, h, lo);
        tr' := Merge(tr, i, mid);
      }
    }

    // ---------------------------------------------------------------------------------------
    // Deletion
    // ---------------------------------------------------------------------------------------

    /** Case 1: the key i of a leaf. */
    method DeleteFromLeaf(x: nat, k: Item, s: nat, i: nat, ghost tr: Tree, ghost lo: int)
      returns (gone: Item, ghost tr': Tree)
      requires Ready() && Owns(heap, t, tr) && tr.id == x && tr.kids == [] && Shape(tr, 0, t, lo) && i < |tr.keys|
      requires (s == 0 ==> tr.keys[i].rank == k.rank) && (s == 1 ==> i == |tr.keys| - 1) && (s == 2 ==> i == 0)
      modifies this`heap
      ensures Ready() && Owns(heap, t, tr') && tr'.id == x && Changed(old(heap), heap, Ids(tr), Ids(tr'))
      ensures Shape(tr', 0, t, lo - 1) && Removed(InOrder(tr), k, s, InOrder(tr'), gone, false)
    {
      hide Owns;
      hide NodeIs;
      hide Ids;
      hide Changed;
      hide Shape;
      hide InOrder;
      hide Moved;
      hide Removed;
      ghost var h0 := heap;
      LeafNodeFacts(heap, t, tr);
      LeafFacts(tr, t, lo);
      LeafShrinks(heap[x], t, tr, i);
      gone := heap[x].keys[i];
      MoveKeys(x, i, x, i + 1, heap[x].n - i - 1);
      heap := heap[x := heap[x].(n := heap[x].n - 1)];
      tr' := Tree(x, tr.keys[..i] + tr.keys[i + 1..], []);
      LeafFacts(tr', t, lo - 1);
      RemovedLeaf(tr.keys, k, s, i);
      LeafReplaced(h0, heap, t, tr, tr');
    }

    /** Case 2: the key i of an inner node compares equal to k. */
    method DeleteHere(x: nat, k: Item, i: nat, ghost tr: Tree, ghost h: nat, ghost lo: int)
      returns (gone: Item, ghost tr': Tree, ghost swapped: bool)
      requires Ready() && Owns(heap, t, tr) && tr.id == x && Shape(tr, h, t, lo) && h > 0 && lo >= 1
      requires i < |tr.keys| && tr.keys[i].rank == k.rank && Sorted(InOrder(tr))
      modifies this`heap, logs
      ensures Ready() && Owns(heap, t, tr') && tr'.id == x && Changed(old(heap), heap, Ids(tr), Ids(tr'))
      ensures Shape(tr', h, t, lo - 1) && Removed(InOrder(tr), k, 0, InOrder(tr'), gone, swapped)
      ensures swapped <==> SwapsAt(tr, h, k, t, i)
      ensures Inner(tr) && |tr.kids[i].keys| >= t ==> gone == tr.keys[i] && ByPredecessor(tr, tr', i)
      ensures Inner(tr) && |tr.kids[i].keys| < t && |tr.kids[i + 1].keys| >= t ==>
                gone == tr.keys[i] && BySuccessor(tr, tr', i)
      decreases h, 0
    {
      hide Swaps;
      hide Owns;
      hide NodeIs;
      hide Ids;
      hide Changed;
      hide Shape;
      hide InOrder;
      hide Removed;
      hide Merge;
      ghost var h0 := heap;
      PairFacts(heap, t, tr, i, h, lo);
      ChildFacts(heap, t, tr, i, h, lo);
      ChildFacts(heap, t, tr, i + 1, h, lo);
      NodeFat(heap, t, tr, i, h, lo);
      var yn := heap[heap[x].kids[i]].n;
      var zn := heap[heap[x].kids[i + 1]].n;
      if yn >= t {
        gone, tr' := DeletePredecessor(x, k, i, tr, h, lo);
        swapped := false;
      } else if zn >= t {
        gone, tr' := DeleteSuccessor(x, k, i, tr, h, lo);
        swapped := false;
      } else {
        gone, tr', swapped := DeleteMerged(x, k, i, tr, h, lo);
      }
    }

    /** Case 2a. */
    method DeletePredecessor(x: nat, k: Item, i: nat, ghost tr: Tree, ghost h: nat, ghost lo: int)
      returns (gone: Item, ghost tr': Tree)
      requires Ready() && Owns(heap, t, tr) && tr.id == x && Shape(tr, h, t, lo) && h > 0 && lo >= 1
      requires i < |tr.keys| && tr.keys[i].rank == k.rank && Inner(tr) && |tr.kids[i].keys| >= t
      modifies this`heap, logs
      ensures Ready() && Owns(heap, t, tr') && tr'.id == x && Changed(old(heap), heap, Ids(tr), Ids(tr'))
      ensures Shape(tr', h, t, lo - 1) && Removed(InOrder(tr), k, 0, InOrder(tr'), gone, false)
      ensures gone == tr.keys[i] && ByPredecessor(tr, tr', i)
      decreases h, 0, 0
    {
      hide Owns;
      hide NodeIs;
      hide Ids;
      hide Changed;
      hide Shape;
      hide InOrder;
      hide Removed;
      ghost var h0 := heap;
      PairFacts(heap, t, tr, i, h, lo);
      ChildFacts(heap, t, tr, i, h, lo);
      RaisedChild(tr, i, h, t, lo);
      gone := heap[x].keys[i];
      var p: Item;
      ghost var c: Tree, sw: bool;
      p, c, sw := NodeDelete(heap[x].kids[i], Item(0, 0), 1, tr.kids[i], h - 1, t);
      ghost var h2 := heap;
      ChildReplaced(h0, h2, t, tr, i, c);
      NodeArrays(h2, t, ChildAt(tr, i, c));
      heap := heap[x := heap[x].(keys := heap[x].keys[i := p])];
      tr' := PairAt(tr, i, c, p, tr.kids[i + 1]);
      assert tr'.kids == tr.kids[i := c];
      KeyReplaced(h0, h2, heap, t, tr, i, i, c, p, h, lo);
      NotSwapped(InOrder(tr.kids[i]), Item(0, 0), 1, InOrder(c), p, sw);
      DeleteByPredecessor(tr, i, c, k, Item(0, 0), p);
      RemovedLast(InOrder(tr.kids[i]), Item(0, 0), InOrder(c), p, sw);
    }

    /** Case 2b. */
    method DeleteSuccessor(x: nat, k: Item, i: nat, ghost tr: Tree, ghost h: nat, ghost lo: int)
      returns (gone: Item, ghost tr': Tree)
      requires Ready() && Owns(heap, t, tr) && tr.id == x && Shape(tr, h, t, lo) && h > 0 && lo >= 1
      requires i < |tr.keys| && tr.keys[i].rank == k.rank && Inner(tr) && |tr.kids[i + 1].keys| >= t
      modifies this`heap, logs
      ensures Ready() && Owns(heap, t, tr') && tr'.id == x && Changed(old(heap), heap, Ids(tr), Ids(tr'))
      ensures Shape(tr', h, t, lo - 1) && Removed(InOrder(tr), k, 0, InOrder(tr'), gone, false)
      ensures gone == tr.keys[i] && BySuccessor(tr, tr', i)
      decreases h, 0, 0
    {
      hide Owns;
      hide NodeIs;
      hide Ids;
      hide Changed;
      hide Shape;
      hide InOrder;
      hide Removed;
      ghost var h0 := heap;
      PairFacts(heap, t, tr, i, h, lo);
      ChildFacts(heap, t, tr, i + 1, h, lo);
      RaisedChild(tr, i + 1, h, t, lo);
      gone := heap[x].keys[i];
      var p: Item;
      ghost var c: Tree, sw: bool;
      p, c, sw := NodeDelete(heap[x].kids[i + 1], Item(0, 0), 2, tr.kids[i + 1], h - 1, t);
      ghost var h2 := heap;
      ChildReplaced(h0, h2, t, tr, i + 1, c);
      NodeArrays(h2, t, ChildAt(tr, i + 1, c));
      heap := heap[x := heap[x].(keys := heap[x].keys[i := p])];
      tr' := PairAt(tr, i, tr.kids[i], p, c);
      assert tr'.kids == tr.kids[i + 1 := c];
      KeyReplaced(h0, h2, heap, t, tr, i, i + 1, c, p, h, lo);
      NotSwapped(InOrder(tr.kids[i + 1]), Item(0, 0), 2, InOrder(c), p, sw);
      DeleteBySuccessor(tr, i, c, k, Item(0, 0), p);
      RemovedFirst(InOrder(tr.kids[i + 1]), Item(0, 0), InOrder(c), p, sw);
    }

    /** Case 2c: the merged child gets the search key, not the key found. */
    method DeleteMerged(x: nat, k: Item, i: nat, ghost tr: Tree, ghost h: nat, ghost lo: int)
      returns (gone: Item, ghost tr': Tree, ghost swapped: bool)
      requires Ready() && Owns(heap, t, tr) && tr.id == x && Shape(tr, h, t, lo) && h > 0 && lo >= 1
      requires i < |tr.keys| && tr.keys[i].rank == k.rank && Sorted(InOrder(tr))
      requires Inner(tr) && |tr.kids[i].keys| == t - 1 && |tr.kids[i + 1].keys| == t - 1
      modifies this`heap, logs
      ensures Ready() && Owns(heap, t, tr') && tr'.id == x && Changed(old(heap), heap, Ids(tr), Ids(tr'))
      ensures Shape(tr', h, t, lo - 1) && Removed(InOrder(tr), k, 0, InOrder(tr'), gone, swapped)
      ensures swapped <==> tr.keys[i] != k || Swaps(Joined(tr, i, k), h - 1, k, t)
      decreases h, 0, 0
    {
      hide Swaps;
      hide BTreeSwaps.Joined;
      hide Owns;
      hide NodeIs;
      hide Ids;
      hide Changed;
      hide Shape;
      hide InOrder;
      hide Removed;
      ghost var h0 := heap;
      PairFacts(heap, t, tr, i, h, lo);
      MergeShape(tr, i, k, h, t, lo);
      MergedHas(tr, i, k, h, t, lo);
      MergedIs(tr, i, k);
      var y := heap[x].kids[i];
      MergeKids(x, i, k, tr, h, lo);
      ghost var m, h1 := Merge(tr, i, k), heap;
      ChildFacts(h1, t, m, i, h, |tr.keys| - 1);
      RaisedChild(m, i, h, t, |tr.keys| - 1);
      ghost var c: Tree;
      gone, c, swapped := NodeDelete(y, k, 0, m.kids[i], h - 1, t);
      tr' := ChildAt(m, i, c);
      ChildReplaced(h1, heap, t, m, i, c);
      ChildShape(m, i, c, h, t, |tr.keys| - 1);
      SizeAtLeast(tr, h, t, lo);
      LowerShape(tr', h, t, |tr.keys| - 1);
      OwnsInHeap(h0, t, tr);
      ChangedTrans(h0, h1, heap, Ids(tr), Ids(m), Ids(tr'));
      DeleteFromMerged(tr, i, c, k, gone, swapped, h, t, lo);
      swapped := swapped || tr.keys[i] != k;
    }

    /** Removes one item below x: one that compares equal to k (s = 0), the last (1), the first (2).
        Every node entered but the root has at least t keys. */
    method NodeDelete(x: nat, k: Item, s: nat, ghost tr: Tree, ghost h: nat, ghost lo: int)
      returns (gone: Item, ghost tr': Tree, ghost swapped: bool)
      requires Ready() && Owns(heap, t, tr) && tr.id == x && Shape(tr, h, t, lo) && lo >= 1 && s <= 2
      requires s == 0 ==> Sorted(InOrder(tr)) && Has(InOrder(tr), k)
      modifies this`heap, logs
      ensures Ready() && Owns(heap, t, tr') && tr'.id == x && Changed(old(heap), heap, Ids(tr), Ids(tr'))
      ensures Shape(tr', h, t, lo - 1) && Removed(InOrder(tr), k, s, InOrder(tr'), gone, swapped)
      ensures s == 0 ==> (swapped <==> Swaps(tr, h, k, t))
      decreases h, 1
    {
      hide ByPredecessor;
      hide BySuccessor;
      hide LendLeft;
      hide LendRight;
      hide Merge;
      hide Swaps;
      hide SwapsAt;
      hide Widened;
      hide Owns;
      hide NodeIs;
      hide Ids;
      hide Changed;
      hide Shape;
      hide InOrder;
      hide Removed;
      hide Has;
      ghost var h0 := heap;
      SizeAtLeast(tr, h, t, lo);
      PlainFacts(heap, t, tr, h, lo);
      var i, r: int := -1, 0;
      if s != 0 {
        if !heap[x].leaf { r := if s == 1 then 1 else -1; }
        i := if s == 1 then heap[x].n - 1 else -1;
      } else {
        NodeFacts(heap, t, tr, h, lo);
        i, r := FindKIndex(x, k);
        FoundWhere(tr, h, t, lo, k, i, r);
      }
      if heap[x].leaf {
        LeafNeverSwaps(tr, k, t);
        if s == 2 { i := i + 1; }
        gone, tr' := DeleteFromLeaf(x, k, s, i, tr, lo);
        swapped := false;
        return;
      }
      if r == 0 {
        gone, tr', swapped := DeleteHere(x, k, i, tr, h, lo);
        SwapsHere(tr, h, k, t, i);
        return;
      }
      ghost var below := i;
      i := i + 1;
      var xp: nat;
      ghost var tr1: Tree, p: nat;
      xp, tr1, p := Fatten(x, i, tr, h, lo);
      ghost var h1 := heap;
      ChildFacts(h1, t, tr1, p, h, |tr.keys| - 1);
      RaisedChild(tr1, p, h, t, |tr.keys| - 1);
      if s == 0 {
        StillHas(tr, tr1, i, p, k);
        SwapsBelow(tr, below, r, tr1.kids[p], h, k, t, lo);
      }
      ghost var c: Tree;
      gone, c, swapped := NodeDelete(xp, k, s, tr1.kids[p], h - 1, t);
      tr' := ChildAt(tr1, p, c);
      ChildReplaced(h1, heap, t, tr1, p, c);
      ChildShape(tr1, p, c, h, t, |tr.keys| - 1);
      LowerShape(tr', h, t, |tr.keys| - 1);
      OwnsInHeap(h0, t, tr);
      ChangedTrans(h0, h1, heap, Ids(tr), Ids(tr1), Ids(tr'));
      DeleteBelow(tr1, p, c, k, s, gone, swapped);
    }

    /** Deletes an item that compares equal to k; there has to be one. */
    method Delete(k: Item, ghost tr: Tree, ghost h: nat)
      returns (gone: Item, ghost tr': Tree, ghost h': nat, ghost swapped: bool)
      requires Valid(tr, h) && Has(InOrder(tr), k)
      modifies this`heap, this`root, logs
      ensures Valid(tr', h') && h - 1 <= h' <= h
      ensures Removed(InOrder(tr), k, 0, InOrder(tr'), gone, swapped)
      ensures swapped <==> Swaps(tr, h, k, t)
      ensures multiset(InOrder(tr)) == multiset(InOrder(tr')) + multiset{gone} <==> !Swaps(tr, h, k, t)
    {
      hide Swaps;
      hide Owns;
      hide NodeIs;
      hide Ids;
      hide Shape;
      hide InOrder;
      hide Removed;
      hide Has;
      ghost var h0 := heap;
      RootHasKeys(tr, h, t, k);
      gone, tr', swapped := NodeDelete(root, k, 0, tr, h, 1);
      RemovedSorted(InOrder(tr), k, 0, InOrder(tr'), gone, swapped);
      RemovedExactly(InOrder(tr), k, 0, InOrder(tr'), gone, swapped);
      PlainFacts(heap, t, tr', h, 0);
      h' := h;
      if heap[root].n == 0 && !heap[root].leaf {
        var x := root;
        ghost var h1 := heap;
        ChildFacts(h1, t, tr', 0, h, 0);
        RootShrinks(h1, t, tr', h);
        root := heap[x].kids[0];
        heap := heap - {x};
        OwnsFrame(h1, heap, t, tr'.kids[0]);
        tr', h' := tr'.kids[0], h - 1;
      } else {
        RootStays(tr', h, t);
      }
    }
  }

  lemma SplitStart(heap: Heap, t: nat, x: Tree, i: nat)
    requires Owns(heap, t, x) && Inner(x) && i <= |x.keys|
    ensures x.id in heap && x.kids[i].id in heap && x.id != x.kids[i].id
    ensures NodeIs(heap[x.id], t, x.keys, x.kids) && NodeIs(heap[x.kids[i].id], t, x.kids[i].keys, x.kids[i].kids)
    ensures Arrays(heap[x.id], t) && Arrays(heap[x.kids[i].id], t)
    ensures heap[x.id].n == |x.keys|
  {
    OwnsChild(heap, t, x, i);
  }

  /** What the stores of a split add up to. */
  ghost function SplitHeap(heap: Heap, t: nat, x: nat, i: nat, y: nat, z: nat, blank: Node): Heap
    requires x in heap && y in heap && Arrays(heap[x], t) && Arrays(heap[y], t) && Arrays(blank, t) && t >= 2
    requires i <= heap[x].n < 2 * t - 1
  {
    var nx, ny := heap[x], heap[y];
    heap[z := Node(ny.leaf, t - 1, Moved(blank.keys, 0, ny.keys, t, t - 1),
                   if ny.leaf then blank.kids else Moved(blank.kids, 0, ny.kids, t, t))]
        [y := ny.(n := t - 1)]
        [x := Node(nx.leaf, nx.n + 1, Moved(nx.keys, i + 1, nx.keys, i, nx.n - i)[i := ny.keys[t - 1]],
                   Moved(nx.kids, i + 2, nx.kids, i + 1, nx.n - i)[i + 1 := z])]
  }

  lemma SplitDone(h0: Heap, heap: Heap, t: nat, x: Tree, i: nat, z: nat, blank: Node)
    requires t >= 2 && Owns(h0, t, x) && Inner(x) && i <= |x.keys| < 2 * t - 1 && Full(x.kids[i], t)
    requires z != 0 && z !in h0 && Arrays(blank, t) && forall j :: 0 <= j < 2 * t ==> blank.kids[j] == 0
    requires x.id in h0 && x.kids[i].id in h0 && Arrays(h0[x.id], t) && Arrays(h0[x.kids[i].id], t)
    requires h0[x.id].n == |x.keys| && heap == SplitHeap(h0, t, x.id, i, x.kids[i].id, z, blank)
    ensures Owns(heap, t, Split(x, i, t, z)) && Changed(h0, heap, Ids(x), Ids(Split(x, i, t, z)))
  {
    var y := x.kids[i];
    var l, r := LeftHalf(y, t), RightHalf(y, t, z);
    SplitStart(h0, t, x, i);
    OwnsChild(h0, t, x, i);
    SplitNodes(h0, heap, t, x, i, z, blank);
    hide NodeIs;
    hide SplitHeap;
    hide Moved;
    hide Arrays;
    HalvesOwned(h0, heap, t, y, z);
    SplitChanged(h0, heap, x.id, Ids(y), z);
    RowReplaced(h0, heap, t, x, x.kids[..i], [y], x.kids[i + 1..], Split(x, i, t, z), [l, r]);
  }

  lemma SplitNodes(h0: Heap, heap: Heap, t: nat, x: Tree, i: nat, z: nat, blank: Node)
    requires t >= 2 && Inner(x) && i <= |x.keys| < 2 * t - 1 && Full(x.kids[i], t)
    requires z !in h0 && Arrays(blank, t) && forall j :: 0 <= j < 2 * t ==> blank.kids[j] == 0
    requires x.id in h0 && x.kids[i].id in h0 && x.id != x.kids[i].id
    requires NodeIs(h0[x.id], t, x.keys, x.kids) && NodeIs(h0[x.kids[i].id], t, x.kids[i].keys, x.kids[i].kids)
    requires h0[x.id].n == |x.keys| && heap == SplitHeap(h0, t, x.id, i, x.kids[i].id, z, blank)
    ensures var y, x' := x.kids[i], Split(x, i, t, z);
            && heap.Keys == h0.Keys + {z} && Agree(h0, heap, h0.Keys - {x.id, y.id})
            && NodeIs(heap[x.id], t, x'.keys, x'.kids)
            && NodeIs(heap[y.id], t, LeftHalf(y, t).keys, LeftHalf(y, t).kids)
            && NodeIs(heap[z], t, RightHalf(y, t, z).keys, RightHalf(y, t, z).kids)
  {
    hide Moved;
    hide Roots;
    var y := x.kids[i];
    LeftNode(h0[y.id], t, y);
    RightNode(h0[y.id], t, y, z, blank);
    SplitNode(h0[x.id], t, x, i, LeftHalf(y, t), y.keys[t - 1], RightHalf(y, t, z));
    MiddleKey(h0[y.id], t, y);
    hide NodeIs;
  }

  lemma MiddleKey(nd: Node, t: nat, y: Tree)
    requires t >= 2 && Full(y, t) && NodeIs(nd, t, y.keys, y.kids)
    ensures nd.keys[t - 1] == y.keys[t - 1] && (nd.leaf <==> y.kids == [])
  {
  }

  lemma SplitChanged(h0: Heap, heap: Heap, x: nat, c: set<nat>, z: nat)
    requires x in h0 && x !in c && c <= h0.Keys && z !in h0 && heap.Keys == h0.Keys + {z}
    requires Agree(h0, heap, h0.Keys - ({x} + c))
    ensures Changed(h0, heap, {x} + c, {x} + (c + {z})) && x !in c + {z}
  {
  }

  lemma HalvesOwned(h0: Heap, heap: Heap, t: nat, y: Tree, z: nat)
    requires t >= 2 && Full(y, t) && Owns(h0, t, y) && z !in h0 && z != 0 && y.id in heap && z in heap
    requires Agree(h0, heap, AllIds(y.kids))
    requires NodeIs(heap[y.id], t, LeftHalf(y, t).keys, LeftHalf(y, t).kids)
    requires NodeIs(heap[z], t, RightHalf(y, t, z).keys, RightHalf(y, t, z).kids)
    ensures var l, r := LeftHalf(y, t), RightHalf(y, t, z);
            OwnsAll(heap, t, [l, r]) && AllIds([l, r]) == Ids(y) + {z}
  {
    hide NodeIs;
    var l, r := LeftHalf(y, t), RightHalf(y, t, z);
    OwnsInHeap(h0, t, y);
    OwnsAllFrame(h0, heap, t, y.kids);
    assert y.kids == l.kids + r.kids;
    OwnsConcat(heap, t, l.kids, r.kids);
    IdsConcat(l.kids, r.kids);
    assert Owns(heap, t, l) && Owns(heap, t, r);
    OwnsTwo(heap, t, l, r);
  }

  lemma EmptyTree(heap: Heap, t: nat, root: nat)
    requires t >= 2 && root != 0
    requires heap == map[root := Node(true, 0, seq(2 * t - 1, _ => Item(0, 0)), seq(2 * t, _ => 0))]
    ensures var tr := Tree(root, [], []);
            Owns(heap, t, tr) && heap.Keys == Ids(tr) && Shape(tr, 0, t, 0) && InOrder(tr) == []
  {
  }

  lemma NodeFacts(heap: Heap, t: nat, x: Tree, h: nat, lo: int)
    requires Owns(heap, t, x) && Shape(x, h, t, lo) && Sorted(InOrder(x))
    ensures x.id in heap && Arrays(heap[x.id], t) && heap[x.id].n == |x.keys|
    ensures heap[x.id].keys[..heap[x.id].n] == x.keys
    ensures (heap[x.id].leaf <==> h == 0) && (h == 0 <==> x.kids == []) && (h > 0 <==> Inner(x))
    ensures Sorted(x.keys) && NodeIs(heap[x.id], t, x.keys, x.kids)
  {
    KeysSorted(x);
  }

  lemma ChildFacts(heap: Heap, t: nat, x: Tree, i: nat, h: nat, lo: int)
    requires Owns(heap, t, x) && Shape(x, h, t, lo) && h > 0 && i <= |x.keys|
    ensures Inner(x) && x.id in heap && Arrays(heap[x.id], t) && i < |heap[x.id].kids|
    ensures heap[x.id].kids[i] == x.kids[i].id && x.kids[i].id in heap && heap[x.kids[i].id].n == |x.kids[i].keys|
    ensures Owns(heap, t, x.kids[i]) && Shape(x.kids[i], h - 1, t, t - 1)
    ensures Full(x.kids[i], t) || |x.kids[i].keys| < 2 * t - 1
  {
    OwnsChild(heap, t, x, i);
    assert heap[x.id].kids[..heap[x.id].n + 1][i] == x.kids[i].id;
  }

  lemma NothingChanged(heap: Heap, t: nat, x: Tree)
    requires Owns(heap, t, x)
    ensures Changed(heap, heap, Ids(x), Ids(x))
  {
    OwnsInHeap(heap, t, x);
  }

  /** The new root above the old one, before the split. */
  lemma TopFacts(h0: Heap, heap: Heap, t: nat, tr: Tree, h: nat, s: nat)
    requires t >= 2 && Owns(h0, t, tr) && h0.Keys == Ids(tr) && Shape(tr, h, t, if h == 0 then 0 else 1)
    requires |tr.keys| == 2 * t - 1 && Sorted(InOrder(tr))
    requires s !in h0 && s != 0 && heap.Keys == h0.Keys + {s} && Agree(h0, heap, h0.Keys)
    requires Arrays(heap[s], t) && !heap[s].leaf && heap[s].n == 0 && heap[s].kids[0] == tr.id
    ensures var top := Tree(s, [], [tr]);
            && Owns(heap, t, top) && heap.Keys == Ids(top) && Shape(top, h + 1, t, 0) && Inner(top)
            && Full(tr, t) && InOrder(top) == InOrder(tr)
  {
    OwnsInHeap(h0, t, tr);
    OwnsFrame(h0, heap, t, tr);
    OwnsOne(heap, t, tr);
    assert heap[s].kids[..1] == [tr.id];
    assert Shape(tr, h, t, t - 1);
  }

  lemma LeafFacts(x: Tree, t: nat, lo: int)
    requires x.kids == []
    ensures InOrder(x) == x.keys && (Shape(x, 0, t, lo) <==> lo <= |x.keys| <= 2 * t - 1)
  {
  }

  lemma ShapeRaised(tr: Tree, h: nat, t: nat, lo: int, lo': int)
    requires Shape(tr, h, t, lo) && lo' <= |tr.keys|
    ensures Shape(tr, h, t, lo')
  {
  }

  // ---------------------------------------------------------------------------------------
  // Steps of a deletion
  // ---------------------------------------------------------------------------------------

  lemma PairFacts(heap: Heap, t: nat, x: Tree, i: nat, h: nat, lo: int)
    requires Owns(heap, t, x) && Shape(x, h, t, lo) && h > 0 && i < |x.keys|
    ensures Inner(x) && x.id in heap && Arrays(heap[x.id], t) && heap[x.id].n == |x.keys|
    ensures NodeIs(heap[x.id], t, x.keys, x.kids) && heap[x.id].keys[i] == x.keys[i]
    ensures var y, z := x.kids[i], x.kids[i + 1];
            && heap[x.id].kids[i] == y.id && heap[x.id].kids[i + 1] == z.id && y.id in heap && z.id in heap
            && x.id != y.id && x.id != z.id && y.id != z.id && Alike(y, z)
            && NodeIs(heap[y.id], t, y.keys, y.kids) && NodeIs(heap[z.id], t, z.keys, z.kids)
            && Arrays(heap[y.id], t) && Arrays(heap[z.id], t)
            && heap[y.id].n == |y.keys| && heap[z.id].n == |z.keys|
            && heap[z.id].leaf == heap[y.id].leaf
  {
    OwnsPairOf(heap, t, x, i);
    assert Shape(x.kids[i], h - 1, t, t - 1) && Shape(x.kids[i + 1], h - 1, t, t - 1);
    assert heap[x.id].kids[..heap[x.id].n + 1][i] == x.kids[i].id;
    assert heap[x.id].kids[..heap[x.id].n + 1][i + 1] == x.kids[i + 1].id;
    assert heap[x.id].keys[..heap[x.id].n][i] == x.keys[i];
  }

  lemma MergeDone(h0: Heap, heap: Heap, t: nat, x: Tree, i: nat, mid: Item, h: nat, lo: int)
    requires t >= 2 && Owns(h0, t, x) && Shape(x, h, t, lo) && h > 0 && i < |x.keys|
    requires |x.kids[i].keys| == t - 1 && |x.kids[i + 1].keys| == t - 1
    requires x.id in h0 && x.kids[i].id in h0 && x.kids[i + 1].id in h0
    requires Arrays(h0[x.id], t) && Arrays(h0[x.kids[i].id], t) && Arrays(h0[x.kids[i + 1].id], t)
    requires h0[x.id].n == |x.keys| && h0[x.kids[i].id].n == t - 1 && h0[x.kids[i + 1].id].n == t - 1
    requires var nx, ny, nz, n := h0[x.id], h0[x.kids[i].id], h0[x.kids[i + 1].id], h0[x.id].n;
             heap == h0[x.kids[i].id := Node(ny.leaf, ny.n + 1 + nz.n,
                                             Moved(ny.keys[ny.n := mid], ny.n + 1, nz.keys, 0, nz.n),
                                             Moved(ny.kids, ny.n + 1, nz.kids, 0, nz.n + 1))]
                       [x.id := Node(nx.leaf, n - 1, Moved(nx.keys, i, nx.keys, i + 1, n - i - 1),
                                     Moved(nx.kids, i + 1, nx.kids, i + 2, n - i - 1))] - {x.kids[i + 1].id}
    ensures Inner(x) && Owns(heap, t, Merge(x, i, mid)) && Changed(h0, heap, Ids(x), Ids(Merge(x, i, mid)))
  {
    hide Moved;
    PairFacts(h0, t, x, i, h, lo);
    var y, z := x.kids[i], x.kids[i + 1];
    MergedNode(h0[y.id], h0[z.id], t, y, z, y.id, mid);
    ShrunkNode(h0[x.id], t, x, i, Join(y.id, y, mid, z));
    hide NodeIs;
    hide Owns;
    hide Ids;
    hide Changed;
    MergeReplaced(h0, heap, t, x, i, mid);
  }

  lemma TakenFromLeft(h0: Heap, heap: Heap, t: nat, x: Tree, i: nat, h: nat, lo: int)
    requires t >= 2 && Owns(h0, t, x) && Shape(x, h, t, lo) && h > 0 && i < |x.keys|
    requires |x.kids[i].keys| >= t && |x.kids[i + 1].keys| == t - 1
    requires x.id in h0 && x.kids[i].id in h0 && x.kids[i + 1].id in h0
    requires Arrays(h0[x.id], t) && Arrays(h0[x.kids[i].id], t) && Arrays(h0[x.kids[i + 1].id], t)
    requires h0[x.id].n == |x.keys| && h0[x.kids[i].id].n >= t && h0[x.kids[i + 1].id].n == t - 1
    requires var nx, ny, nz := h0[x.id], h0[x.kids[i].id], h0[x.kids[i + 1].id];
             heap == h0[x.kids[i + 1].id := Node(nz.leaf, nz.n + 1,
                                                 Moved(nz.keys, 1, nz.keys, 0, nz.n)[0 := nx.keys[i]],
                                                 Moved(nz.kids, 1, nz.kids, 0, nz.n + 1)[0 := ny.kids[ny.n]])]
                       [x.id := nx.(keys := nx.keys[i := ny.keys[ny.n - 1]])]
                       [x.kids[i].id := ny.(n := ny.n - 1)]
    ensures Inner(x) && Owns(heap, t, LendRight(x, i)) && Changed(h0, heap, Ids(x), Ids(LendRight(x, i)))
  {
    hide NodeIs;
    hide Moved;
    PairFacts(h0, t, x, i, h, lo);
    var y, z := x.kids[i], x.kids[i + 1];
    var m, r := y.keys[|y.keys| - 1], Join(z.id, LentRight(y), x.keys[i], z);
    LenderNode(h0[y.id], t, y);
    ReceiverRight(h0[y.id], h0[z.id], t, y, z, x.keys[i]);
    PairNode(h0[x.id], t, x, i, Lender(y), m, r);
    hide Owns;
    hide Ids;
    hide Changed;
    assert Lender(y).kids + r.kids == y.kids + z.kids;
    PairReplaced(h0, heap, t, x, i, Lender(y), m, r);
  }

  lemma TakenFromRight(h0: Heap, heap: Heap, t: nat, x: Tree, i: nat, h: nat, lo: int)
    requires t >= 2 && Owns(h0, t, x) && Shape(x, h, t, lo) && h > 0 && i < |x.keys|
    requires |x.kids[i].keys| == t - 1 && |x.kids[i + 1].keys| >= t
    requires x.id in h0 && x.kids[i].id in h0 && x.kids[i + 1].id in h0
    requires Arrays(h0[x.id], t) && Arrays(h0[x.kids[i].id], t) && Arrays(h0[x.kids[i + 1].id], t)
    requires h0[x.id].n == |x.keys| && h0[x.kids[i].id].n == t - 1 && h0[x.kids[i + 1].id].n >= t
    requires var nx, ny, nz := h0[x.id], h0[x.kids[i].id], h0[x.kids[i + 1].id];
             heap == h0[x.kids[i].id := Node(ny.leaf, ny.n + 1, ny.keys[ny.n := nx.keys[i]],
                                             ny.kids[ny.n + 1 := nz.kids[0]])]
                       [x.id := nx.(keys := nx.keys[i := nz.keys[0]])]
                       [x.kids[i + 1].id := Node(nz.leaf, nz.n - 1, Moved(nz.keys, 0, nz.keys, 1, nz.n - 1),
                                                 Moved(nz.kids, 0, nz.kids, 1, nz.n))]
    ensures Inner(x) && Owns(heap, t, LendLeft(x, i)) && Changed(h0, heap, Ids(x), Ids(LendLeft(x, i)))
  {
    hide Moved;
    PairFacts(h0, t, x, i, h, lo);
    var y, z := x.kids[i], x.kids[i + 1];
    var m, l := z.keys[0], Join(y.id, y, x.keys[i], LentLeft(z));
    GiverNode(h0[z.id], t, z);
    ReceiverLeft(h0[y.id], h0[z.id], t, y, z, x.keys[i]);
    PairNode(h0[x.id], t, x, i, l, m, Giver(z));
    hide NodeIs;
    hide Owns;
    hide Ids;
    hide Changed;
    assert l.kids + Giver(z).kids == y.kids + z.kids;
    PairReplaced(h0, heap, t, x, i, l, m, Giver(z));
  }

  lemma NodeFat(heap: Heap, t: nat, x: Tree, i: nat, h: nat, lo: int)
    requires Owns(heap, t, x) && Shape(x, h, t, lo) && h > 0 && i <= |x.keys|
    ensures x.id in heap && heap[x.id].n == |x.keys| && |x.kids[i].keys| >= t - 1
    ensures Shape(x, h, t, |x.keys| - 1)
    ensures forall j :: 0 <= j < |x.kids| ==> |x.kids[j].keys| >= t - 1
  {
    assert Shape(x.kids[i], h - 1, t, t - 1);
    forall j | 0 <= j < |x.kids| ensures |x.kids[j].keys| >= t - 1 {
      assert Shape(x.kids[j], h - 1, t, t - 1);
    }
  }

  /** The key i has given way to its predecessor, the last item below the child i; nothing else changes. */
  ghost predicate ByPredecessor(x: Tree, x': Tree, i: nat) {
    && Inner(x) && Inner(x') && i < |x.keys| == |x'.keys|
    && x'.keys == x.keys[i := x'.keys[i]] && x'.kids == x.kids[i := x'.kids[i]]
    && InOrder(x.kids[i]) == InOrder(x'.kids[i]) + [x'.keys[i]]
  }

  /** The key i has given way to its successor, the first item below the child i + 1. */
  ghost predicate BySuccessor(x: Tree, x': Tree, i: nat) {
    && Inner(x) && Inner(x') && i < |x.keys| == |x'.keys|
    && x'.keys == x.keys[i := x'.keys[i]] && x'.kids == x.kids[i + 1 := x'.kids[i + 1]]
    && InOrder(x.kids[i + 1]) == [x'.keys[i]] + InOrder(x'.kids[i + 1])
  }

  lemma RemovedLast(s: seq<Item>, any: Item, s': seq<Item>, p: Item, swapped: bool)
    requires Removed(s, any, 1, s', p, swapped)
    ensures s == s' + [p]
  {
    var u, j: nat :| RemovedAt(s, any, 1, s', p, swapped, u, j);
  }

  lemma RemovedFirst(s: seq<Item>, any: Item, s': seq<Item>, p: Item, swapped: bool)
    requires Removed(s, any, 2, s', p, swapped)
    ensures s == [p] + s'
  {
    var u, j: nat :| RemovedAt(s, any, 2, s', p, swapped, u, j);
  }

  /** Child i of x may be entered as child p of x': it has at least t keys, and x' holds what x holds. */
  ghost predicate Fattened(x: Tree, i: nat, x': Tree, p: nat, h: nat, t: nat) {
    && Inner(x) && Inner(x') && i <= |x.keys| && p <= |x'.keys|
    && Shape(x', h, t, |x.keys| - 1) && InOrder(x') == InOrder(x) && |x'.kids[p].keys| >= t
    && (i == 0 ==> p == 0) && (i == |x.keys| ==> p == |x'.keys|)
    && Includes(InOrder(x'.kids[p]), InOrder(x.kids[i])) && Widened(x, i, x'.kids[p])
  }

  lemma FatAlready(x: Tree, i: nat, h: nat, t: nat)
    requires Shape(x, h, t, |x.keys| - 1) && Inner(x) && i <= |x.keys| && |x.kids[i].keys| >= t
    ensures Fattened(x, i, x, i, h, t)
  {
    hide InOrder;
    hide Shape;
    WidenedSelf(x, i);
    var s := InOrder(x.kids[i]);
    assert s == [] + s + [];
  }

  lemma LentFromLeft(x: Tree, i: nat, h: nat, t: nat, lo: int)
    requires Shape(x, h, t, lo) && h > 0 && i < |x.keys| && t >= 2
    requires |x.kids[i].keys| >= t && |x.kids[i + 1].keys| == t - 1
    ensures Inner(x)
    ensures var x' := LendRight(x, i);
            && x'.id == x.id && |x'.kids| == |x.kids| && x'.kids[i + 1].id == x.kids[i + 1].id
            && Fattened(x, i + 1, x', i + 1, h, t)
  {
    hide InOrder;
    hide Includes;
    hide Widened;
    LendRightOrders(x, i, h, t, lo);
    LendRightShape(x, i, h, t, lo);
    LowerShape(LendRight(x, i), h, t, lo);
    WidenedByLeft(x, i, h, t, lo);
  }

  lemma LentFromRight(x: Tree, i: nat, h: nat, t: nat, lo: int)
    requires Shape(x, h, t, lo) && h > 0 && i < |x.keys| && t >= 2
    requires |x.kids[i].keys| == t - 1 && |x.kids[i + 1].keys| >= t
    ensures Inner(x)
    ensures var x' := LendLeft(x, i);
            && x'.id == x.id && |x'.kids| == |x.kids| && x'.kids[i].id == x.kids[i].id && Fattened(x, i, x', i, h, t)
  {
    hide InOrder;
    hide Includes;
    hide Widened;
    LendLeftOrders(x, i, h, t, lo);
    LendLeftShape(x, i, h, t, lo);
    LowerShape(LendLeft(x, i), h, t, lo);
    WidenedByRight(x, i, h, t, lo);
  }

  lemma MergedKids(x: Tree, i: nat, h: nat, t: nat, lo: int)
    requires Shape(x, h, t, lo) && h > 0 && i < |x.keys| && t >= 2
    requires |x.kids[i].keys| == t - 1 && |x.kids[i + 1].keys| == t - 1
    ensures Inner(x)
    ensures var x' := Merge(x, i, x.keys[i]);
            && x'.id == x.id && |x'.kids| == |x.kids| - 1 && x'.kids[i].id == x.kids[i].id
            && Fattened(x, i + 1, x', i, h, t) && (i == 0 ==> Fattened(x, i, x', i, h, t))
  {
    hide InOrder;
    hide Includes;
    hide Widened;
    MergeOrders(x, i, x.keys[i], h, t, lo);
    MergeIncludes(x, i, x.keys[i], h, t, lo);
    MergeShape(x, i, x.keys[i], h, t, lo);
    WidenedByMerge(x, i, h, t, lo);
  }

  lemma LeafNodeFacts(heap: Heap, t: nat, x: Tree)
    requires Owns(heap, t, x) && x.kids == []
    ensures x.id in heap && Arrays(heap[x.id], t) && heap[x.id].n == |x.keys| && NodeIs(heap[x.id], t, x.keys, [])
  {
  }

  lemma RaisedChild(x: Tree, i: nat, h: nat, t: nat, lo: int)
    requires Shape(x, h, t, lo) && h > 0 && i < |x.kids| && |x.kids[i].keys| >= t
    ensures Shape(x.kids[i], h - 1, t, t)
  {
    LowerShape(x.kids[i], h - 1, t, t - 1);
  }

  lemma NotSwapped(s: seq<Item>, k: Item, mode: nat, s': seq<Item>, gone: Item, swapped: bool)
    requires Removed(s, k, mode, s', gone, swapped) && (mode == 1 || mode == 2)
    ensures !swapped
  {
  }

  lemma NodeArrays(heap: Heap, t: nat, x: Tree)
    requires Owns(heap, t, x)
    ensures x.id in heap && Arrays(heap[x.id], t) && heap[x.id].n == |x.keys|
  {
  }

  /** One child and one key of x are new. */
  lemma KeyReplaced(h0: Heap, h2: Heap, heap: Heap, t: nat, x: Tree, j: nat, ci: nat, c: Tree, p: Item, h: nat, lo: int)
    requires Shape(x, h, t, lo) && h > 0 && j < |x.keys| && ci < |x.kids| && Shape(c, h - 1, t, t - 1)
    requires Owns(h2, t, ChildAt(x, ci, c)) && Changed(h0, h2, Ids(x), Ids(ChildAt(x, ci, c)))
    requires x.id in h2 && j < |h2[x.id].keys| && heap == h2[x.id := h2[x.id].(keys := h2[x.id].keys[j := p])]
    ensures var x' := Tree(x.id, x.keys[j := p], x.kids[ci := c]);
            Owns(heap, t, x') && Changed(h0, heap, Ids(x), Ids(x')) && Shape(x', h, t, lo - 1)
  {
    var y, x' := ChildAt(x, ci, c), Tree(x.id, x.keys[j := p], x.kids[ci := c]);
    assert h2[x.id].keys[j := p][..|x.keys|] == h2[x.id].keys[..|x.keys|][j := p];
    OwnsAllFrame(h2, heap, t, y.kids);
    ChildShape(x, ci, c, h, t, lo);
    LowerShape(x', h, t, lo);
    IdsSame(y, x');
  }

  lemma IdsSame(y: Tree, x: Tree)
    requires y.id == x.id && y.kids == x.kids
    ensures Ids(y) == Ids(x)
  {
  }

  lemma SizeAtLeast(x: Tree, h: nat, t: nat, lo: int)
    requires Shape(x, h, t, lo)
    ensures |x.keys| >= lo && Shape(x, h, t, lo - 1) && (h > 0 ==> Inner(x))
  {
  }

  lemma PlainFacts(heap: Heap, t: nat, x: Tree, h: nat, lo: int)
    requires Owns(heap, t, x) && Shape(x, h, t, lo)
    ensures x.id in heap && Arrays(heap[x.id], t) && heap[x.id].n == |x.keys|
    ensures (heap[x.id].leaf <==> h == 0) && (h == 0 <==> x.kids == []) && (h > 0 <==> Inner(x))
  {
  }

  /** Where the search for an item that is there ends. */
  lemma FoundWhere(x: Tree, h: nat, t: nat, lo: int, k: Item, i: int, r: int)
    requires Shape(x, h, t, lo) && lo >= 1 && Sorted(InOrder(x)) && Has(InOrder(x), k) && Found(x.keys, k, i, r)
    ensures h == 0 ==> i >= 0 && x.keys[i].rank == k.rank
    ensures h > 0 && r == 0 ==> i >= 0 && x.keys[i].rank == k.rank
    ensures h > 0 && r != 0 ==> Inner(x) && Has(InOrder(x.kids[i + 1]), k)
  {
    KeysSorted(x);
    if h == 0 {
      var j :| 0 <= j < |x.keys| && x.keys[j].rank == k.rank;
      assert x.keys[j].rank <= x.keys[i].rank;
    } else if r != 0 {
      RouteHas(x, k, i);
    }
  }

  lemma StillHas(x: Tree, x': Tree, i: nat, p: nat, k: Item)
    requires Inner(x) && Inner(x') && i < |x.kids| && p < |x'.kids| && InOrder(x') == InOrder(x)
    requires Sorted(InOrder(x)) && Has(InOrder(x.kids[i]), k) && Includes(InOrder(x'.kids[p]), InOrder(x.kids[i]))
    ensures Sorted(InOrder(x'.kids[p])) && Has(InOrder(x'.kids[p]), k)
  {
    hide InOrder;
    IncludesHas(InOrder(x'.kids[p]), InOrder(x.kids[i]), k);
    AtChild(x', p);
    SortedParts(Before(x', p), InOrder(x'.kids[p]), After(x', p));
  }

  lemma RootHasKeys(x: Tree, h: nat, t: nat, k: Item)
    requires Shape(x, h, t, if h == 0 then 0 else 1) && Has(InOrder(x), k)
    ensures Shape(x, h, t, 1)
  {
  }

  lemma RootShrinks(heap: Heap, t: nat, x: Tree, h: nat)
    requires t >= 2 && Owns(heap, t, x) && Shape(x, h, t, 0) && |x.keys| == 0 && h > 0
    ensures Inner(x) && Owns(heap, t, x.kids[0]) && Shape(x.kids[0], h - 1, t, if h == 1 then 0 else 1)
    ensures Ids(x) == {x.id} + Ids(x.kids[0]) && x.id !in Ids(x.kids[0]) && InOrder(x) == InOrder(x.kids[0])
  {
    OwnsOne(heap, t, x.kids[0]);
    assert x.kids == [x.kids[0]];
    assert Shape(x.kids[0], h - 1, t, t - 1);
    AtChild(x, 0);
    NothingBefore(x);
    NothingAfter(x);
  }

  lemma RootStays(x: Tree, h: nat, t: nat)
    requires Shape(x, h, t, 0) && (|x.keys| > 0 || h == 0)
    ensures Shape(x, h, t, if h == 0 then 0 else 1)
  {
  }

  lemma MergedIs(x: Tree, i: nat, k: Item)
    requires Inner(x) && i < |x.keys|
    ensures Inner(Merge(x, i, k)) && Merge(x, i, k).kids[i] == Joined(x, i, k)
  {
  }

  /** What the search meets is below the child entered, even when that child has been widened. */
  lemma SwapsBelow(x: Tree, i: int, r: int, c: Tree, h: nat, k: Item, t: nat, lo: int)
    requires Shape(x, h, t, lo) && lo >= 1 && h > 0 && Found(x.keys, k, i, r) && r != 0
    requires Inner(x) && Widened(x, i + 1, c) && Shape(c, h - 1, t, t - 1) && Sorted(InOrder(c))
    ensures Swaps(c, h - 1, k, t) <==> Swaps(x, h, k, t)
  {
    hide Swaps;
    hide Widened;
    KeysSorted(c);
    SwapsWidened(x, i, c, h, k, t, lo);
  }

  /** Not always does deleting give back what was stored: here the search key, another object that
      compares equal, comes back, and the stored one is lost. */
  lemma DeleteCanLose()
    ensures var x := Tree(1, [Item(5, 1)], [Tree(2, [Item(3, 0)], []), Tree(3, [Item(7, 0)], [])]);
            var k := Item(5, 2);
            && Shape(x, 1, 2, 1) && InOrder(x) == [Item(3, 0), Item(5, 1), Item(7, 0)] && Swaps(x, 1, k, 2)
            && (forall s, gone :: Removed(InOrder(x), k, 0, s, gone, true) ==>
                  multiset(InOrder(x)) != multiset(s) + multiset{gone})
  {
    var y, z, k := Tree(2, [Item(3, 0)], []), Tree(3, [Item(7, 0)], []), Item(5, 2);
    var x := Tree(1, [Item(5, 1)], [y, z]);
    assert Shape(y, 0, 2, 1) && Shape(z, 0, 2, 1);
    AtPair(x, 0);
    NothingBefore(x);
    NothingAfter(x);
    assert LastAtMost(x.keys, k, 0) && SwapsAt(x, 1, k, 2, 0);
    forall s, gone | Removed(InOrder(x), k, 0, s, gone, true)
      ensures multiset(InOrder(x)) != multiset(s) + multiset{gone}
    {
      RemovedExactly(InOrder(x), k, 0, s, gone, true);
    }
  }
}
