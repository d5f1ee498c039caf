/** Splitting, merging and lending: what the array shifts make of the nodes. */
module BTreeSteps {
  import opened KeySearch
  import opened BTreeShape
  import opened BTreeHeap

  // ---------------------------------------------------------------------------------------
  // Shifted arrays
  // ---------------------------------------------------------------------------------------

  lemma ShiftIn<T>(s: seq<T>, i: nat, n: nat, v: T)
    requires i <= n < |s|
    ensures Moved(s, i + 1, s, i, n - i)[i := v][..n + 1] == s[..n][..i] + [v] + s[..n][i..]
  {
  }

  lemma ShiftOut<T>(s: seq<T>, i: nat, n: nat)
    requires i < n <= |s|
    ensures Moved(s, i, s, i + 1, n - i - 1)[..n - 1] == s[..n][..i] + s[..n][i + 1..]
  {
  }

  lemma Appended<T>(s: seq<T>, n: nat, r: seq<T>, m: nat)
    requires n + m <= |s| && m <= |r|
    ensures Moved(s, n, r, 0, m)[..n + m] == s[..n] + r[..m]
  {
  }

  // ---------------------------------------------------------------------------------------
  // Halves
  // ---------------------------------------------------------------------------------------

  ghost predicate Full(y: Tree, t: nat) { t >= 1 && |y.keys| == 2 * t - 1 && (y.kids == [] || Inner(y)) }

  ghost function LeftHalf(y: Tree, t: nat): Tree
    requires Full(y, t)
  {
    Tree(y.id, y.keys[..t - 1], if y.kids == [] then [] else y.kids[..t])
  }

  ghost function RightHalf(y: Tree, t: nat, z: nat): Tree
    requires Full(y, t)
  {
    Tree(z, y.keys[t..], if y.kids == [] then [] else y.kids[t..])
  }

  /** The full child i of x, split in two; z is the new node. */
  ghost function Split(x: Tree, i: nat, t: nat, z: nat): Tree
    requires Inner(x) && i <= |x.keys| && Full(x.kids[i], t)
  {
    SplitAt(x, i, LeftHalf(x.kids[i], t), x.kids[i].keys[t - 1], RightHalf(x.kids[i], t, z))
  }

  lemma HalvesJoin(y: Tree, t: nat, z: nat)
    requires Full(y, t)
    ensures Alike(LeftHalf(y, t), RightHalf(y, t, z))
    ensures InOrder(y) == InOrder(LeftHalf(y, t)) + [y.keys[t - 1]] + InOrder(RightHalf(y, t, z))
  {
    var l, r := LeftHalf(y, t), RightHalf(y, t, z);
    assert y.keys == l.keys + [y.keys[t - 1]] + r.keys && y.kids == l.kids + r.kids;
    assert y == Join(y.id, l, y.keys[t - 1], r);
    JoinOrder(y.id, l, y.keys[t - 1], r);
  }

  /** Splitting changes neither the contents nor the depth, and keeps every node at least half full. */
  lemma SplitKeeps(x: Tree, i: nat, h: nat, t: nat, lo: int, z: nat)
    requires Shape(x, h, t, lo) && h > 0 && t >= 2 && i <= |x.keys| < 2 * t - 1 && |x.kids[i].keys| == 2 * t - 1
    ensures Full(x.kids[i], t)
    ensures Shape(Split(x, i, t, z), h, t, lo) && InOrder(Split(x, i, t, z)) == InOrder(x)
    ensures |LeftHalf(x.kids[i], t).keys| == t - 1 && |RightHalf(x.kids[i], t, z).keys| == t - 1
  {
    hide InOrder;
    var y := x.kids[i];
    assert Shape(y, h - 1, t, t - 1);
    HalvesJoin(y, t, z);
    SplitOrder(x, i, LeftHalf(y, t), y.keys[t - 1], RightHalf(y, t, z));
    HalvesShape(y, h - 1, t, z);
    RowShape(x.kids, i, [LeftHalf(y, t), RightHalf(y, t, z)], i + 1, h - 1, t);
  }

  lemma HalvesShape(y: Tree, h: nat, t: nat, z: nat)
    requires Shape(y, h, t, t - 1) && t >= 2 && |y.keys| == 2 * t - 1
    ensures Full(y, t)
    ensures Shape(LeftHalf(y, t), h, t, t - 1) && Shape(RightHalf(y, t, z), h, t, t - 1)
    ensures Kids([LeftHalf(y, t), RightHalf(y, t, z)], h, t)
  {
  }

  /** Children i to j are replaced by others of the same depth. */
  lemma RowShape(kids: seq<Tree>, i: nat, d: seq<Tree>, j: nat, h: nat, t: nat)
    requires Kids(kids, h, t) && Kids(d, h, t) && i <= j <= |kids|
    ensures Kids(kids[..i] + d + kids[j..], h, t)
  {
    hide Shape;
  }

  lemma ChildShape(x: Tree, i: nat, c: Tree, h: nat, t: nat, lo: int)
    requires Shape(x, h, t, lo) && h > 0 && i < |x.kids| && Shape(c, h - 1, t, t - 1)
    ensures Shape(ChildAt(x, i, c), h, t, lo)
  {
    var x' := ChildAt(x, i, c);
    forall j | 0 <= j < |x'.kids| ensures Shape(x'.kids[j], h - 1, t, t - 1) {
      assert Shape(x.kids[j], h - 1, t, t - 1);
    }
  }

  // ---------------------------------------------------------------------------------------
  // The new nodes in the heap
  // ---------------------------------------------------------------------------------------

  lemma RootsSlices(kids: seq<Tree>, i: nat)
    requires i <= |kids|
    ensures Roots(kids[..i]) == Roots(kids)[..i] && Roots(kids[i..]) == Roots(kids)[i..]
  {
  }

  lemma RootsConcat(a: seq<Tree>, b: seq<Tree>)
    ensures Roots(a + b) == Roots(a) + Roots(b)
  {
  }

  /** The left half stays in the old node: only n changes. */
  lemma LeftNode(nd: Node, t: nat, y: Tree)
    requires NodeIs(nd, t, y.keys, y.kids) && t >= 2 && Full(y, t)
    ensures NodeIs(nd.(n := t - 1), t, LeftHalf(y, t).keys, LeftHalf(y, t).kids)
  {
    assert nd.keys[..t - 1] == nd.keys[..nd.n][..t - 1];
    if y.kids != [] {
      assert nd.kids[..t] == nd.kids[..nd.n + 1][..t];
      RootsSlices(y.kids, t);
    }
  }

  /** The right half is copied to the front of a fresh node. */
  lemma RightNode(nd: Node, t: nat, y: Tree, z: nat, fresh_: Node)
    requires NodeIs(nd, t, y.keys, y.kids) && t >= 2 && Full(y, t)
    requires Arrays(fresh_, t) && forall i :: 0 <= i < 2 * t ==> fresh_.kids[i] == 0
    ensures var r := RightHalf(y, t, z);
            NodeIs(Node(nd.leaf, t - 1, Moved(fresh_.keys, 0, nd.keys, t, t - 1),
                        if nd.leaf then fresh_.kids else Moved(fresh_.kids, 0, nd.kids, t, t)), t, r.keys, r.kids)
  {
    assert nd.keys[t..2 * t - 1] == nd.keys[..nd.n][t..];
    assert Moved(fresh_.keys, 0, nd.keys, t, t - 1)[..t - 1] == nd.keys[t..2 * t - 1];
    if y.kids != [] {
      assert nd.kids[t..2 * t] == nd.kids[..nd.n + 1][t..];
      assert Moved(fresh_.kids, 0, nd.kids, t, t)[..t] == nd.kids[t..2 * t];
      RootsSlices(y.kids, t);
    }
  }

  /** The parent makes room for one key and one pointer. */
  lemma SplitNode(nd: Node, t: nat, x: Tree, i: nat, l: Tree, m: Item, r: Tree)
    requires NodeIs(nd, t, x.keys, x.kids) && Inner(x) && i <= |x.keys| < 2 * t - 1 && l.id == x.kids[i].id
    ensures var x' := SplitAt(x, i, l, m, r); var n := nd.n;
            NodeIs(Node(nd.leaf, n + 1, Moved(nd.keys, i + 1, nd.keys, i, n - i)[i := m],
                        Moved(nd.kids, i + 2, nd.kids, i + 1, n - i)[i + 1 := r.id]), t, x'.keys, x'.kids)
  {
    var x', n := SplitAt(x, i, l, m, r), nd.n;
    ShiftIn(nd.keys, i, n, m);
    ShiftIn(nd.kids, i + 1, n + 1, r.id);
    SplitRoots(x.kids, i, l, r);
  }

  lemma SplitRoots(kids: seq<Tree>, i: nat, l: Tree, r: Tree)
    requires i < |kids| && l.id == kids[i].id
    ensures Roots(kids[..i] + [l, r] + kids[i + 1..]) == Roots(kids)[..i + 1] + [r.id] + Roots(kids)[i + 1..]
  {
  }

  /** A leaf with the key k behind its key i. */
  ghost function LeafWith(x: Tree, i: int, k: Item): Tree
    requires -1 <= i < |x.keys|
  {
    Tree(x.id, x.keys[..i + 1] + [k] + x.keys[i + 1..], [])
  }

  lemma LeafGrows(nd: Node, t: nat, x: Tree, i: int, k: Item)
    requires NodeIs(nd, t, x.keys, []) && -1 <= i < |x.keys| < 2 * t - 1
    ensures NodeIs(nd.(keys := Moved(nd.keys, i + 2, nd.keys, i + 1, nd.n - i - 1)[i + 1 := k], n := nd.n + 1), t,
                   LeafWith(x, i, k).keys, [])
    ensures Moved(nd.keys, nd.n + 1, nd.keys, nd.n, 0) == nd.keys
  {
    ShiftIn(nd.keys, i + 1, nd.n, k);
    NothingMoved(nd.keys, nd.n + 1, nd.keys, nd.n);
  }

  lemma LeafReplaced(heap: Heap, heap': Heap, t: nat, x: Tree, x': Tree)
    requires Owns(heap, t, x) && x.kids == [] && x'.kids == [] && x'.id == x.id
    requires x.id in heap && x.id in heap' && heap' == heap[x.id := heap'[x.id]] && NodeIs(heap'[x.id], t, x'.keys, [])
    ensures Owns(heap', t, x') && Changed(heap, heap', Ids(x), Ids(x'))
  {
  }

  /** Another subtree in the place of child i: the node itself need not change. */
  lemma ChildNode(nd: Node, t: nat, x: Tree, i: nat, c: Tree)
    requires NodeIs(nd, t, x.keys, x.kids) && i < |x.kids| && c.id == x.kids[i].id
    ensures NodeIs(nd, t, x.keys, x.kids[i := c])
  {
    assert Roots(x.kids[i := c]) == Roots(x.kids);
  }

  // ---------------------------------------------------------------------------------------
  // Ownership
  // ---------------------------------------------------------------------------------------

  /** Child i as a row of its own. */
  lemma OwnsChild(heap: Heap, t: nat, x: Tree, i: nat)
    requires Owns(heap, t, x) && i < |x.kids|
    ensures x.kids == x.kids[..i] + [x.kids[i]] + x.kids[i + 1..]
    ensures Owns(heap, t, x.kids[i]) && x.id !in Ids(x.kids[i]) && Ids(x.kids[i]) <= Ids(x) <= heap.Keys
    ensures AllIds([x.kids[i]]) == Ids(x.kids[i])
  {
    hide NodeIs;
    assert x.kids == x.kids[..i] + [x.kids[i]] + x.kids[i + 1..];
    OwnsMiddle(heap, t, x.kids[..i], [x.kids[i]], x.kids[i + 1..]);
    OwnsOne(heap, t, x.kids[i]);
    OwnsInHeap(heap, t, x);
  }

  /** The subtree below child i has changed. */
  lemma ChildReplaced(heap: Heap, heap': Heap, t: nat, x: Tree, i: nat, c: Tree)
    requires Owns(heap, t, x) && i < |x.kids| && c.id == x.kids[i].id
    requires Owns(heap', t, c) && Changed(heap, heap', Ids(x.kids[i]), Ids(c))
    ensures Owns(heap', t, ChildAt(x, i, c)) && Changed(heap, heap', Ids(x), Ids(ChildAt(x, i, c)))
    ensures heap'[x.id] == heap[x.id]
  {
    hide NodeIs;
    OwnsChild(heap, t, x, i);
    OwnsOne(heap', t, c);
    ChildNode(heap[x.id], t, x, i, c);
    assert x.kids[i := c] == x.kids[..i] + [c] + x.kids[i + 1..];
    ChildChanged(heap, heap', x.id, Ids(x.kids[i]), Ids(c));
    RowReplaced(heap, heap', t, x, x.kids[..i], [x.kids[i]], x.kids[i + 1..], ChildAt(x, i, c), [c]);
  }

  lemma ChildChanged(heap: Heap, heap': Heap, x: nat, c: set<nat>, d: set<nat>)
    requires Changed(heap, heap', c, d) && x in heap && x !in c
    ensures Changed(heap, heap', {x} + c, {x} + d) && x in heap' && heap'[x] == heap[x] && x !in d
  {
  }
}
