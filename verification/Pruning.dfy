/** Taking a tree down, node by node: what is left is always a tree of the same kind. */
module Pruning {
  import opened PoolImage
  import opened ByteWords
  import opened WordTrees

  /** p is what is left of t when nodes go in the order left, right, node: the right side of a node is
      touched only when the left side is gone, and the node itself goes last. */
  ghost predicate Prunes(p: Tree, t: Tree) {
    p.Leaf? ||
    (t.Node? && p.at == t.at && p.count == t.count && p.text == t.text &&
     ((Prunes(p.left, t.left) && p.right == t.right) || (p.left.Leaf? && Prunes(p.right, t.right))))
  }

  lemma {:induction false} PrunesSelf(t: Tree)
    ensures Prunes(t, t)
  {
    if t.Node? {
      PrunesSelf(t.left);
      PrunesSelf(t.right);
    }
  }

  lemma {:induction false} PrunesTrans(q: Tree, p: Tree, t: Tree)
    requires Prunes(q, p) && Prunes(p, t)
    ensures Prunes(q, t)
  {
    if q.Node? {
      PrunesSides(q, p);
      PrunesSides(p, t);
      PrunesTrans(q.left, p.left, t.left);
      PrunesTrans(q.right, p.right, t.right);
    }
  }

  lemma PrunesSides(p: Tree, t: Tree)
    requires Prunes(p, t) && p.Node?
    ensures t.Node? && Prunes(p.left, t.left) && Prunes(p.right, t.right)
  {
    PrunesSelf(t.right);
  }

  lemma {:induction false} PrunesSmaller(p: Tree, t: Tree)
    requires Prunes(p, t)
    ensures Footprint(p) <= Footprint(t) && Heads(p) <= Heads(t)
    ensures Apart(t) ==> Apart(p)
  {
    hide NodeSet;
    if p.Node? {
      PrunesSides(p, t);
      PrunesSmaller(p.left, t.left);
      PrunesSmaller(p.right, t.right);
    }
  }

  lemma {:induction false} PrunesBounded(p: Tree, t: Tree, x: seq<nat>)
    requires Prunes(p, t)
    ensures Below(t, x) ==> Below(p, x)
    ensures Above(t, x) ==> Above(p, x)
  {
    if p.Node? {
      PrunesSides(p, t);
      PrunesBounded(p.left, t.left, x);
      PrunesBounded(p.right, t.right, x);
    }
  }

  /** Pruning a search tree keeps the order and the counts of the words that stay. */
  lemma {:induction false} PrunesOrdered(p: Tree, t: Tree)
    requires Prunes(p, t) && Ordered(t)
    ensures Ordered(p)
    ensures forall w :: w in Entries(p) ==> w in Entries(t) && Entries(t)[w] == Entries(p)[w]
  {
    if p.Node? {
      PrunesSides(p, t);
      PrunesOrdered(p.left, t.left);
      PrunesOrdered(p.right, t.right);
      PrunesBounded(p.left, t.left, t.text);
      PrunesBounded(p.right, t.right, t.text);
      EntriesBounded(t.left, t.text);
      EntriesBounded(t.right, t.text);
      EntriesApart(t);
    }
  }

  lemma EntriesApart(t: Tree)
    requires t.Node? && Ordered(t)
    ensures forall w :: w in Entries(t.left) ==> w != t.text && w !in Entries(t.right)
    ensures t.text !in Entries(t.right)
  {
    EntriesBounded(t.left, t.text);
    EntriesBounded(t.right, t.text);
    forall w | w in Entries(t.left) ensures w != t.text && w !in Entries(t.right) {
      CompareEqual(w, t.text);
    }
    CompareEqual(t.text, t.text);
  }

  lemma {:induction false} HeadsInside(live: map<nat, nat>, t: Tree)
    requires Roomy(live, t)
    ensures forall h :: h in Heads(t) ==> h + 8 in Footprint(t) && h in live
  {
    if t.Node? {
      NodeParts(t.at, t.text);
      HeadsInside(live, t.left);
      HeadsInside(live, t.right);
    }
  }

  // ---------------------------------------------------------------------------------------
  // In memory
  // ---------------------------------------------------------------------------------------

  /** The tree at `slot` can be taken down: the pointer to it stays when its nodes go. */
  ghost predicate Freeable(v: View, n: nat, slot: nat, t: Tree) {
    && Shaped(v, n) && Planted(v.words, slot, t) && Apart(t) && slot !in Footprint(t) && Roomy(v.live, t)
    && slot < n && Visible(v.live - Heads(t), slot)
  }

  /** u is what is left of v once the tree t at `slot` has become p. */
  ghost predicate CutTo(v: View, u: View, n: nat, slot: nat, t: Tree, p: Tree) {
    && Prunes(p, t) && Shaped(u, n) && Planted(u.words, slot, p)
    && u.live == v.live - (Heads(t) - Heads(p))
    && (forall w :: w in v.words && w in u.words && w != slot && w !in Footprint(t) ==> u.words[w] == v.words[w])
  }

  lemma NothingCut(v: View, n: nat, slot: nat, t: Tree)
    requires Freeable(v, n, slot, t)
    ensures CutTo(v, v, n, slot, t, t)
  {
    PrunesSelf(t);
    assert Heads(t) - Heads(t) == {};
  }

  lemma CutTrans(v: View, a: View, u: View, n: nat, slot: nat, t: Tree, p: Tree, q: Tree)
    requires Shaped(v, n) && CutTo(v, a, n, slot, t, p) && CutTo(a, u, n, slot, p, q)
    ensures CutTo(v, u, n, slot, t, q)
  {
    hide Planted;
    hide Footprint;
    hide Apart;
    PrunesTrans(q, p, t);
    PrunesSmaller(p, t);
    PrunesSmaller(q, p);
    assert v.live - (Heads(t) - Heads(p)) - (Heads(p) - Heads(q)) == v.live - (Heads(t) - Heads(q));
    forall w | w in v.words && w in u.words ensures w in a.words {
      if !Static(w) {
        var h :| h in u.live && h + 8 <= w < h + u.live[h];
        assert h in a.live;
      }
    }
  }

  lemma {:induction false} RoomyVisible(v: View, n: nat, t: Tree)
    requires Shaped(v, n) && Roomy(v.live, t)
    requires forall w :: w in Footprint(t) ==> w < n
    ensures Footprint(t) <= v.words.Keys
  {
    if t.Node? {
      forall w | w in NodeSet(t.at, t.text) ensures w in v.words {
        assert w in Footprint(t) && InNode(t.at, t.text, w);
        assert t.at - 8 in v.live && t.at - 8 + 8 <= w < t.at - 8 + v.live[t.at - 8];
      }
      assert Footprint(t.left) <= Footprint(t) && Footprint(t.right) <= Footprint(t);
      RoomyVisible(v, n, t.left);
      RoomyVisible(v, n, t.right);
    }
  }

  lemma {:induction false} RoomyWithout(live: map<nat, nat>, less: map<nat, nat>, t: Tree)
    requires Roomy(live, t) && forall h :: h in Heads(t) ==> h in less && h in live && less[h] == live[h]
    ensures Roomy(less, t)
  {
    if t.Node? {
      assert t.at - 8 in Heads(t) && Heads(t.left) <= Heads(t) && Heads(t.right) <= Heads(t);
      RoomyWithout(live, less, t.left);
      RoomyWithout(live, less, t.right);
    }
  }

  lemma {:induction false} PrunesRoomy(live: map<nat, nat>, p: Tree, t: Tree)
    requires Roomy(live, t) && Prunes(p, t)
    ensures Roomy(live, p)
  {
    if p.Node? {
      PrunesSides(p, t);
      PrunesRoomy(live, p.left, t.left);
      PrunesRoomy(live, p.right, t.right);
    }
  }

  /** What is left can be taken down further. */
  lemma CutFreeable(v: View, u: View, n: nat, slot: nat, t: Tree, p: Tree)
    requires Freeable(v, n, slot, t) && CutTo(v, u, n, slot, t, p)
    ensures Freeable(u, n, slot, p)
  {
    PrunesSmaller(p, t);
    PrunesRoomy(v.live, p, t);
    HeadsInside(v.live, t);
    RoomyWithout(v.live, u.live, p);
    assert u.live - Heads(p) == v.live - Heads(t);
  }

  lemma VisibleMore(live: map<nat, nat>, more: map<nat, nat>, w: nat)
    requires Visible(live, w) && forall h :: h in live ==> h in more && more[h] == live[h]
    ensures Visible(more, w)
  {
    if !Static(w) {
      var h :| h in live && h + 8 <= w < h + live[h];
      assert h in more;
    }
  }

  /** No clump holds two nodes. */
  lemma HeadsApart(live: map<nat, nat>, t: Tree)
    requires t.Node? && Apart(t) && Roomy(live, t)
    ensures t.at - 8 !in Heads(t.left) && t.at - 8 !in Heads(t.right) && Heads(t.left) !! Heads(t.right)
  {
    NodeParts(t.at, t.text);
    HeadsInside(live, t.left);
    HeadsInside(live, t.right);
    forall h | h in Heads(t.left) ensures h !in Heads(t.right) {
      assert h + 8 in Footprint(t.left);
    }
  }

  lemma FreeableSides(v: View, n: nat, slot: nat, t: Tree)
    requires Freeable(v, n, slot, t) && t.Node?
    ensures Freeable(v, n, t.at, t.left) && Freeable(v, n, t.at + 1, t.right)
  {
    HeadsApart(v.live, t);
    NodeParts(t.at, t.text);
    PlantedVisible(v.words, slot, t);
    var l, r := v.live - Heads(t.left), v.live - Heads(t.right);
    assert t.at - 8 in l && t.at - 8 in r;
    assert InNode(t.at, t.text, t.at) && InNode(t.at, t.text, t.at + 1);
  }

  ghost predicate Sides(t: Tree, side: Tree, other: Tree) {
    t.Node? && ((side == t.left && other == t.right) || (side == t.right && other == t.left))
  }

  lemma SetCut(live: set<nat>, whole: set<nat>, x: nat, side: set<nat>, other: set<nat>, p: set<nat>)
    requires whole == {x} + side + other || whole == {x} + other + side
    requires p <= side && side !! other && x !in side && x !in other && x in live && other <= live
    ensures side - p == whole - (p + other + {x})
    ensures other + {x} <= live - side && side <= whole
  {
  }

  lemma {:induction false} HeadsLive(live: map<nat, nat>, t: Tree)
    requires Roomy(live, t)
    ensures Heads(t) <= live.Keys
  {
    if t.Node? {
      HeadsLive(live, t.left);
      HeadsLive(live, t.right);
    }
  }

  lemma RoomyHere(live: map<nat, nat>, t: Tree)
    requires Roomy(live, t) && t.Node?
    ensures t.at >= 8 && t.at - 8 in live && Roomy(live, t.left) && Roomy(live, t.right)
  {
  }

  lemma HeadsCut(live: map<nat, nat>, t: Tree, side: Tree, other: Tree, p: Tree)
    requires Sides(t, side, other) && Apart(t) && Roomy(live, t) && Prunes(p, side)
    ensures Heads(side) - Heads(p) == Heads(t) - (Heads(p) + Heads(other) + {t.at - 8})
    ensures Heads(other) + {t.at - 8} <= live.Keys - Heads(side)
    ensures Heads(side) <= Heads(t)
  {
    hide Footprint;
    hide Apart;
    hide Heads;
    hide Roomy;
    hide Prunes;
    hide Sides;
    HeadsSides(live, t, side, other);
    SmallerHeads(p, side);
    SetCut(live.Keys, Heads(t), t.at - 8, Heads(side), Heads(other), Heads(p));
  }

  lemma HeadsSides(live: map<nat, nat>, t: Tree, side: Tree, other: Tree)
    requires Sides(t, side, other) && Apart(t) && Roomy(live, t)
    ensures t.Node? && t.at >= 8 && t.at - 8 in live && Heads(other) <= live.Keys && Heads(side) !! Heads(other)
    ensures t.at - 8 !in Heads(side) && t.at - 8 !in Heads(other)
    ensures Heads(t) == {t.at - 8} + Heads(side) + Heads(other) || Heads(t) == {t.at - 8} + Heads(other) + Heads(side)
  {
    hide Footprint;
    hide Apart;
    hide Heads;
    hide Roomy;
    RoomyHere(live, t);
    HeadsApart(live, t);
    HeadsLive(live, other);
    HeadsOf(t);
  }

  lemma HeadsOf(t: Tree)
    requires t.Node? && t.at >= 8
    ensures Heads(t) == {t.at - 8} + Heads(t.left) + Heads(t.right)
  {
  }

  lemma SmallerHeads(p: Tree, t: Tree)
    requires Prunes(p, t)
    ensures Heads(p) <= Heads(t)
  {
    PrunesSmaller(p, t);
  }

  /** The words of the node itself and of the other subtree outlive a cut below. */
  lemma CutBeside(v: View, u: View, n: nat, slot: nat, t: Tree, side: Tree, other: Tree, p: Tree)
    requires Freeable(v, n, slot, t) && Sides(t, side, other)
    requires Prunes(p, side) && Shaped(u, n) && u.live == v.live - (Heads(side) - Heads(p))
    ensures slot in u.words && NodeSet(t.at, t.text) + Footprint(other) <= u.words.Keys
    ensures u.live == v.live - (Heads(t) - (Heads(p) + Heads(other) + {t.at - 8}))
  {
    hide Planted;
    hide Prunes;
    hide NodeSet;
    hide Visible;
    hide Apart;
    hide Heads;
    HeadsCut(v.live, t, side, other, p);
    BesideKept(v, u, n, slot, t, side, other);
  }

  lemma BesideKept(v: View, u: View, n: nat, slot: nat, t: Tree, side: Tree, other: Tree)
    requires Freeable(v, n, slot, t) && Sides(t, side, other) && Shaped(u, n)
    requires Heads(other) + {t.at - 8} <= v.live.Keys - Heads(side) && Heads(side) <= Heads(t)
    requires forall h :: h in v.live && h !in Heads(side) ==> h in u.live && u.live[h] == v.live[h]
    ensures slot in u.words && NodeSet(t.at, t.text) + Footprint(other) <= u.words.Keys
  {
    PlantedVisible(v.words, slot, t);
    hide Planted;
    hide NodeSet;
    hide Visible;
    hide Apart;
    VisibleMore(v.live - Heads(t), u.live, slot);
    var alone := Node(t.at, Leaf, t.count, t.text, other);
    assert Heads(alone) == Heads(other) + {t.at - 8};
    assert Roomy(v.live, alone);
    RoomyWithout(v.live, u.live, alone);
    RoomyVisible(u, n, alone);
  }

  lemma CutLeft(v: View, u: View, n: nat, slot: nat, t: Tree, p: Tree)
    requires Freeable(v, n, slot, t) && t.Node? && CutTo(v, u, n, t.at, t.left, p)
    ensures CutTo(v, u, n, slot, t, t.(left := p))
  {
    hide NodeSet;
    hide NodeAt;
    hide Visible;
    hide Heads;
    CutBeside(v, u, n, slot, t, t.left, t.right, p);
    PrunesSelf(t.right);
    NodeParts(t.at, t.text);
    LeftPlanted(v.words, u.words, slot, t, p);
    HeadsOf(t.(left := p));
    assert Heads(t.(left := p)) == Heads(p) + Heads(t.right) + {t.at - 8};
  }

  lemma LeftPlanted(m: map<nat, nat>, n: map<nat, nat>, slot: nat, t: Tree, p: Tree)
    requires Planted(m, slot, t) && Apart(t) && slot !in Footprint(t) && t.Node? && Planted(n, t.at, p)
    requires slot in n && NodeSet(t.at, t.text) + Footprint(t.right) <= n.Keys
    requires forall w :: w in m && w in n && w != t.at && w !in Footprint(t.left) ==> n[w] == m[w]
    ensures Planted(n, slot, t.(left := p))
  {
    hide NodeSet;
    hide NodeAt;
    NodeParts(t.at, t.text);
    PlantedVisible(m, slot, t);
    NodeFrame(m, n, t.at, t.count, t.text);
    PlantedFrame(m, n, t.at + 1, t.right);
  }

  lemma CutRight(v: View, u: View, n: nat, slot: nat, t: Tree, p: Tree)
    requires Freeable(v, n, slot, t) && t.Node? && t.left.Leaf? && CutTo(v, u, n, t.at + 1, t.right, p)
    ensures CutTo(v, u, n, slot, t, t.(right := p))
  {
    hide NodeSet;
    hide NodeAt;
    hide Visible;
    hide Heads;
    CutBeside(v, u, n, slot, t, t.right, t.left, p);
    PrunesSelf(t.left);
    NodeParts(t.at, t.text);
    RightPlanted(v.words, u.words, slot, t, p);
    HeadsOf(t.(right := p));
    assert Heads(t.(right := p)) == Heads(p) + Heads(t.left) + {t.at - 8};
  }

  lemma RightPlanted(m: map<nat, nat>, n: map<nat, nat>, slot: nat, t: Tree, p: Tree)
    requires Planted(m, slot, t) && Apart(t) && slot !in Footprint(t) && t.Node? && Planted(n, t.at + 1, p)
    requires slot in n && NodeSet(t.at, t.text) + Footprint(t.left) <= n.Keys
    requires forall w :: w in m && w in n && w != t.at + 1 && w !in Footprint(t.right) ==> n[w] == m[w]
    ensures Planted(n, slot, t.(right := p))
  {
    hide NodeSet;
    hide NodeAt;
    NodeParts(t.at, t.text);
    PlantedVisible(m, slot, t);
    NodeFrame(m, n, t.at, t.count, t.text);
    PlantedFrame(m, n, t.at, t.left);
  }

  /** The node itself goes, once both subtrees are gone. */
  lemma CutNode(v: View, u: View, n: nat, slot: nat, t: Tree)
    requires Freeable(v, n, slot, t) && t.Node? && t.left.Leaf? && t.right.Leaf?
    requires Shaped(u, n) && u.live == v.live - {t.at - 8}
    requires forall w :: w in v.words && w in u.words ==> u.words[w] == if w == slot then 0 else v.words[w]
    ensures CutTo(v, u, n, slot, t, Leaf)
  {
    assert Heads(t) == {t.at - 8};
    assert Heads(t) - Heads(Leaf) == {t.at - 8};
  }

  /** The whole pool. */
  lemma CutHolds(v: View, u: View, n: nat, t: Tree, p: Tree)
    requires Holds(v, t) && Shaped(v, n) && CutTo(v, u, n, STATIC_WORD, t, p)
    ensures Holds(u, p)
    ensures forall w :: w in Entries(p) ==> w in Entries(t) && Entries(t)[w] == Entries(p)[w]
  {
    PrunesOrdered(p, t);
    PrunesSmaller(p, t);
    PrunesRoomy(v.live, p, t);
    RoomyWithout(v.live, u.live, p);
  }
}
