/** The word-count tree as it lies in memory: nodes of {left, right, count, text} behind relative
    pointers, a zero pointer for the empty tree. */
module WordTrees {
  import opened PoolImage
  import opened ByteWords

  /** `at` is the word index of the node: left at `at`, right at `at + 1`, the count in the low
      half of `at + 2`, the NUL-terminated text from byte 20 on. */
  datatype Tree = Leaf | Node(at: nat, left: Tree, count: nat, text: seq<nat>, right: Tree)

  /** Words taken by a node: 20 bytes, the text and its terminator. */
  function NodeWords(text: seq<nat>): nat { (|text| + 28) / 8 }

  /** The word that holds character i of the text. */
  function CharWord(at: nat, i: nat): nat { at + 2 + (i + 4) / 8 }

  ghost predicate CharAt(m: map<nat, nat>, at: nat, i: nat, c: nat) {
    CharWord(at, i) in m && Digit(m[CharWord(at, i)], (i + 4) % 8) == c
  }

  ghost predicate TextAt(m: map<nat, nat>, at: nat, text: seq<nat>) {
    && Text(text)
    && (forall i :: 0 <= i < |text| ==> CharAt(m, at, i, text[i]))
    && CharAt(m, at, |text|, 0)
  }

  ghost predicate NodeAt(m: map<nat, nat>, at: nat, count: nat, text: seq<nat>) {
    && at > 8
    && (forall w :: at <= w < at + NodeWords(text) ==> w in m)
    && Low(m[at + 2]) == count && TextAt(m, at, text)
  }

  /** The pointer in word `slot` leads to the tree t. */
  ghost predicate Planted(m: map<nat, nat>, slot: nat, t: Tree)
    decreases t
  {
    && slot in m
    && match t
       case Leaf => m[slot] == 0
       case Node(at, left, count, text, right) =>
         m[slot] == 8 * at && NodeAt(m, at, count, text) && Planted(m, at, left) && Planted(m, at + 1, right)
  }

  ghost predicate InNode(at: nat, text: seq<nat>, w: nat) { at <= w < at + NodeWords(text) }

  ghost function NodeSet(at: nat, text: seq<nat>): set<nat> {
    set w: nat | w < at + NodeWords(text) && InNode(at, text, w)
  }

  /** The words of the nodes. */
  ghost function Footprint(t: Tree): set<nat> {
    if t.Leaf? then {} else NodeSet(t.at, t.text) + Footprint(t.left) + Footprint(t.right)
  }

  /** No word belongs to two nodes. */
  ghost predicate Apart(t: Tree) {
    t.Node? ==>
      && Apart(t.left) && Apart(t.right)
      && NodeSet(t.at, t.text) !! Footprint(t.left) !! Footprint(t.right)
  }

  /** The headers of the clumps the nodes live in. */
  ghost function Heads(t: Tree): set<nat> {
    if t.Leaf? || t.at < 8 then {} else {t.at - 8} + Heads(t.left) + Heads(t.right)
  }

  /** Every node fits into the clump it lives in. */
  ghost predicate Roomy(live: map<nat, nat>, t: Tree) {
    t.Node? ==>
      && t.at >= 8 && t.at - 8 in live && t.at + NodeWords(t.text) <= t.at - 8 + live[t.at - 8]
      && Roomy(live, t.left) && Roomy(live, t.right)
  }

  /** The words of `live` clumps and of the static area. */
  ghost predicate Shaped(v: View, words: nat) {
    forall w: nat :: w in v.words <==> w < words && Visible(v.live, w)
  }

  // ---------------------------------------------------------------------------------------
  // Order and counts
  // ---------------------------------------------------------------------------------------

  ghost predicate Below(t: Tree, x: seq<nat>) {
    t.Node? ==> Compare(t.text, x) < 0 && Below(t.left, x) && Below(t.right, x)
  }

  ghost predicate Above(t: Tree, x: seq<nat>) {
    t.Node? ==> Compare(x, t.text) < 0 && Above(t.left, x) && Above(t.right, x)
  }

  ghost predicate Ordered(t: Tree) {
    t.Node? ==> Below(t.left, t.text) && Above(t.right, t.text) && Ordered(t.left) && Ordered(t.right)
  }

  ghost function Entries(t: Tree): map<seq<nat>, nat> {
    if t.Leaf? then map[] else (Entries(t.left) + Entries(t.right))[t.text := t.count]
  }

  /** What a walk of the tree prints. */
  function InOrder(t: Tree): seq<(seq<nat>, nat)> {
    if t.Leaf? then [] else InOrder(t.left) + [(t.text, t.count)] + InOrder(t.right)
  }

  /** The pool shows the tree t and nothing else: a search tree under the root pointer whose nodes
      are exactly the allocated clumps. */
  ghost predicate Holds(v: View, t: Tree) {
    && Planted(v.words, STATIC_WORD, t) && Apart(t) && STATIC_WORD !in Footprint(t)
    && Roomy(v.live, t) && v.live.Keys == Heads(t)
    && Ordered(t)
  }

  // ---------------------------------------------------------------------------------------
  // Inserting a word
  // ---------------------------------------------------------------------------------------

  /** Where the search for x ends: at its node, or at an empty pointer. */
  ghost predicate Finds(t: Tree, x: seq<nat>) {
    t.Node? && (if Compare(x, t.text) == 0 then true
                else if Compare(x, t.text) < 0 then Finds(t.left, x)
                else Finds(t.right, x))
  }

  /** The count goes up by one, modulo the width of the counter; a new word goes to the node at. */
  ghost function Grown(t: Tree, x: seq<nat>, at: nat): Tree {
    match t
    case Leaf => Node(at, Leaf, 1, x, Leaf)
    case Node(a, left, count, text, right) =>
      if Compare(x, text) == 0 then Node(a, left, (count + 1) % TWO_32, text, right)
      else if Compare(x, text) < 0 then Node(a, Grown(left, x, at), count, text, right)
      else Node(a, left, count, text, Grown(right, x, at))
  }

  lemma {:induction false} GrownBounded(t: Tree, x: seq<nat>, at: nat, y: seq<nat>)
    ensures Below(t, y) && Compare(x, y) < 0 ==> Below(Grown(t, x, at), y)
    ensures Above(t, y) && Compare(y, x) < 0 ==> Above(Grown(t, x, at), y)
  {
    if t.Node? {
      GrownBounded(t.left, x, at, y);
      GrownBounded(t.right, x, at, y);
    }
  }

  lemma {:induction false} BelowMisses(t: Tree, y: seq<nat>, x: seq<nat>)
    requires Below(t, y) && Compare(x, y) >= 0
    ensures x !in Entries(t)
  {
    if t.Node? {
      BelowMisses(t.left, y, x);
      BelowMisses(t.right, y, x);
    }
  }

  lemma {:induction false} AboveMisses(t: Tree, y: seq<nat>, x: seq<nat>)
    requires Above(t, y) && Compare(y, x) >= 0
    ensures x !in Entries(t)
  {
    if t.Node? {
      AboveMisses(t.left, y, x);
      AboveMisses(t.right, y, x);
    }
  }

  /** In a search tree the search finds what is there. */
  lemma {:induction false} FindsEntries(t: Tree, x: seq<nat>)
    requires Ordered(t)
    ensures Finds(t, x) <==> x in Entries(t)
  {
    if t.Node? {
      CompareEqual(x, t.text);
      FindsEntries(t.left, x);
      FindsEntries(t.right, x);
      if Compare(x, t.text) < 0 { AboveMisses(t.right, t.text, x); }
      if Compare(x, t.text) > 0 { BelowMisses(t.left, t.text, x); }
    }
  }

  ghost function Bumped(counts: map<seq<nat>, nat>, x: seq<nat>): map<seq<nat>, nat> {
    counts[x := if x in counts then (counts[x] + 1) % TWO_32 else 1]
  }

  lemma {:induction false} GrownOrdered(t: Tree, x: seq<nat>, at: nat)
    requires Ordered(t)
    ensures Ordered(Grown(t, x, at))
  {
    if t.Node? {
      CompareEqual(x, t.text);
      GrownOrdered(t.left, x, at);
      GrownOrdered(t.right, x, at);
      GrownBounded(t.left, x, at, t.text);
      GrownBounded(t.right, x, at, t.text);
    }
  }

  lemma BumpHere(l: map<seq<nat>, nat>, r: map<seq<nat>, nat>, k: seq<nat>, c: nat)
    ensures (l + r)[k := (c + 1) % TWO_32] == Bumped((l + r)[k := c], k)
    ensures Bumped(map[], k) == map[k := 1]
  {
  }

  lemma BumpSides(l: map<seq<nat>, nat>, r: map<seq<nat>, nat>, k: seq<nat>, c: nat, x: seq<nat>)
    requires x != k
    ensures x !in r ==> (Bumped(l, x) + r)[k := c] == Bumped((l + r)[k := c], x)
    ensures x !in l ==> (l + Bumped(r, x))[k := c] == Bumped((l + r)[k := c], x)
  {
  }

  /** An insertion keeps the order, bumps the count of its word, and touches no other count. */
  lemma GrownCounts(t: Tree, x: seq<nat>, at: nat)
    requires Ordered(t)
    ensures Ordered(Grown(t, x, at)) && Entries(Grown(t, x, at)) == Bumped(Entries(t), x)
    ensures var es, fs := Entries(t), Entries(Grown(t, x, at));
            && fs.Keys == es.Keys + {x} && fs[x] == (if x in es then (es[x] + 1) % 0x1_0000_0000 else 1)
            && forall w :: w in es && w != x ==> fs[w] == es[w]
  {
    GrownBumps(t, x, at);
  }

  lemma {:induction false} GrownBumps(t: Tree, x: seq<nat>, at: nat)
    requires Ordered(t)
    ensures Ordered(Grown(t, x, at)) && Entries(Grown(t, x, at)) == Bumped(Entries(t), x)
  {
    hide Ordered;
    hide Compare;
    hide Bumped;
    hide Below;
    hide Above;
    GrownOrdered(t, x, at);
    if t.Node? {
      OrderedParts(t);
      CompareEqual(x, t.text);
      var l, r := Entries(t.left), Entries(t.right);
      BumpHere(l, r, t.text, t.count);
      if Compare(x, t.text) < 0 {
        GrownBumps(t.left, x, at);
        AboveMisses(t.right, t.text, x);
        BumpSides(l, r, t.text, t.count, x);
      } else if Compare(x, t.text) > 0 {
        GrownBumps(t.right, x, at);
        BelowMisses(t.left, t.text, x);
        BumpSides(l, r, t.text, t.count, x);
      }
    } else {
      BumpHere(map[], map[], x, 0);
      var none: map<seq<nat>, nat> := map[];
      assert none + none == none;
    }
  }

  lemma OrderedParts(t: Tree)
    requires Ordered(t) && t.Node?
    ensures Ordered(t.left) && Ordered(t.right) && Below(t.left, t.text) && Above(t.right, t.text)
  {
  }

  // ---------------------------------------------------------------------------------------
  // Trees in memory
  // ---------------------------------------------------------------------------------------

  ghost predicate Same(m: map<nat, nat>, n: map<nat, nat>, ws: set<nat>) {
    forall w :: w in ws ==> w in m && w in n && n[w] == m[w]
  }

  lemma NodeParts(at: nat, text: seq<nat>)
    ensures at in NodeSet(at, text) && at + 1 in NodeSet(at, text) && at + 2 in NodeSet(at, text)
    ensures forall i: nat :: i <= |text| ==> CharWord(at, i) in NodeSet(at, text)
  {
    forall i: nat | i <= |text| ensures CharWord(at, i) in NodeSet(at, text) {}
  }

  /** Count and text do not depend on the two pointers. */
  lemma NodeFrame(m: map<nat, nat>, n: map<nat, nat>, at: nat, count: nat, text: seq<nat>)
    requires NodeAt(m, at, count, text)
    requires Same(m, n, NodeSet(at, text) - {at, at + 1}) && at in n && at + 1 in n
    ensures NodeAt(n, at, count, text)
  {
    NodeParts(at, text);
    forall w | at <= w < at + NodeWords(text) ensures w in n { assert w in NodeSet(at, text); }
    forall i: nat | i <= |text| ensures CharWord(at, i) in n && n[CharWord(at, i)] == m[CharWord(at, i)] {
      assert CharWord(at, i) in NodeSet(at, text) - {at, at + 1};
    }
  }

  /** A tree depends on its own words alone. */
  lemma {:induction false} PlantedFrame(m: map<nat, nat>, n: map<nat, nat>, slot: nat, t: Tree)
    requires Planted(m, slot, t) && Same(m, n, Footprint(t)) && Same(m, n, {slot})
    ensures Planted(n, slot, t)
    decreases t
  {
    hide NodeAt;
    assert slot in {slot};
    if t.Node? {
      NodeParts(t.at, t.text);
      NodeFrame(m, n, t.at, t.count, t.text);
      PlantedFrame(m, n, t.at, t.left);
      PlantedFrame(m, n, t.at + 1, t.right);
    }
  }

  lemma {:induction false} PlantedVisible(m: map<nat, nat>, slot: nat, t: Tree)
    requires Planted(m, slot, t)
    ensures Footprint(t) <= m.Keys
    decreases t
  {
    if t.Node? {
      PlantedVisible(m, t.at, t.left);
      PlantedVisible(m, t.at + 1, t.right);
    }
  }

  /** What an insertion into the tree at `slot` does to the visible words. */
  ghost predicate GrewWords(m: map<nat, nat>, n: map<nat, nat>, slot: nat, t: Tree, x: seq<nat>, at: nat) {
    && Planted(n, slot, Grown(t, x, at)) && Apart(Grown(t, x, at))
    && m.Keys <= n.Keys
    && Same(m, n, m.Keys - {slot} - Footprint(t))
    && Footprint(Grown(t, x, at)) * m.Keys <= Footprint(t)
  }

  /** No allocation, or one for the new word. */
  ghost predicate GrewLive(old_: map<nat, nat>, live: map<nat, nat>, t: Tree, x: seq<nat>, at: nat) {
    if Finds(t, x) then live == old_
    else
      && at >= 8 && at - 8 in live && at - 8 !in old_ && live == old_[at - 8 := live[at - 8]]
      && at + NodeWords(x) <= at - 8 + live[at - 8]
  }

  /** One level up: the insertion went left. */
  lemma GrewLeft(m: map<nat, nat>, n: map<nat, nat>, slot: nat, t: Tree, x: seq<nat>, at: nat)
    requires t.Node? && Compare(x, t.text) < 0
    requires Planted(m, slot, t) && Apart(t) && slot !in Footprint(t)
    requires GrewWords(m, n, t.at, t.left, x, at)
    ensures GrewWords(m, n, slot, t, x, at)
  {
    hide NodeAt;
    hide NodeSet;
    PlantedVisible(m, slot, t);
    NodeParts(t.at, t.text);
    NodeFrame(m, n, t.at, t.count, t.text);
    PlantedFrame(m, n, t.at + 1, t.right);
    assert slot in m.Keys - {t.at} - Footprint(t.left);
  }

  /** One level up: the insertion went right. */
  lemma GrewRight(m: map<nat, nat>, n: map<nat, nat>, slot: nat, t: Tree, x: seq<nat>, at: nat)
    requires t.Node? && Compare(x, t.text) > 0
    requires Planted(m, slot, t) && Apart(t) && slot !in Footprint(t)
    requires GrewWords(m, n, t.at + 1, t.right, x, at)
    ensures GrewWords(m, n, slot, t, x, at)
  {
    hide NodeAt;
    hide NodeSet;
    PlantedVisible(m, slot, t);
    NodeParts(t.at, t.text);
    NodeFrame(m, n, t.at, t.count, t.text);
    PlantedFrame(m, n, t.at, t.left);
    assert slot in m.Keys - {t.at + 1} - Footprint(t.right);
  }

  /** A new node behind an empty pointer. */
  lemma GrewHere(m: map<nat, nat>, n: map<nat, nat>, slot: nat, x: seq<nat>, at: nat)
    requires Planted(m, slot, Leaf) && m.Keys <= n.Keys
    requires Same(m, n, m.Keys - {slot}) && n[slot] == 8 * at
    requires NodeSet(at, x) !! m.Keys
    requires NodeAt(n, at, 1, x) && at + 1 in n && n[at] == 0 && n[at + 1] == 0
    ensures GrewWords(m, n, slot, Leaf, x, at)
  {
    NodeParts(at, x);
  }

  /** One more of a word that is there. */
  lemma GrewCount(m: map<nat, nat>, slot: nat, t: Tree, x: seq<nat>, at: nat)
    requires t.Node? && Compare(x, t.text) == 0
    requires Planted(m, slot, t) && Apart(t) && slot !in Footprint(t) && t.at + 2 in m
    ensures GrewWords(m, m[t.at + 2 := SetLow(m[t.at + 2], (t.count + 1) % TWO_32)], slot, t, x, at)
  {
    var n := m[t.at + 2 := SetLow(m[t.at + 2], (t.count + 1) % TWO_32)];
    NodeParts(t.at, t.text);
    PlantedVisible(m, slot, t);
    CountedNode(m, t.at, t.count, t.text);
    hide NodeAt;
    hide NodeSet;
    PlantedFrame(m, n, t.at, t.left);
    PlantedFrame(m, n, t.at + 1, t.right);
  }

  lemma CountedNode(m: map<nat, nat>, at: nat, count: nat, text: seq<nat>)
    requires NodeAt(m, at, count, text) && at + 2 in m
    ensures NodeAt(m[at + 2 := SetLow(m[at + 2], (count + 1) % TWO_32)], at, (count + 1) % TWO_32, text)
  {
    var c := (count + 1) % TWO_32;
    var n := m[at + 2 := SetLow(m[at + 2], c)];
    SetLowKeeps(m[at + 2], c, 4);
    forall i: nat, b: nat | i <= |text| && CharAt(m, at, i, b) ensures CharAt(n, at, i, b) {
      if CharWord(at, i) == at + 2 { SetLowKeeps(m[at + 2], c, i + 4); }
    }
  }

  lemma {:induction false} GrownHeads(t: Tree, x: seq<nat>, at: nat, live: map<nat, nat>)
    requires Roomy(live, t) && at >= 8
    ensures Heads(Grown(t, x, at)) == if Finds(t, x) then Heads(t) else Heads(t) + {at - 8}
  {
    if t.Node? {
      if Compare(x, t.text) < 0 { GrownHeads(t.left, x, at, live); }
      else if Compare(x, t.text) > 0 { GrownHeads(t.right, x, at, live); }
    }
  }

  lemma {:induction false} RoomyKept(live: map<nat, nat>, more: map<nat, nat>, t: Tree)
    requires Roomy(live, t) && forall h :: h in live ==> h in more && more[h] == live[h]
    ensures Roomy(more, t)
  {
    if t.Node? {
      RoomyKept(live, more, t.left);
      RoomyKept(live, more, t.right);
    }
  }

  lemma {:induction false} GrownRoomy(live: map<nat, nat>, more: map<nat, nat>, t: Tree, x: seq<nat>, at: nat)
    requires Roomy(live, t) && forall h :: h in live ==> h in more && more[h] == live[h]
    requires !Finds(t, x) ==> at >= 8 && at - 8 in more && at + NodeWords(x) <= at - 8 + more[at - 8]
    ensures Roomy(more, Grown(t, x, at))
  {
    if t.Node? {
      RoomyKept(live, more, t.left);
      RoomyKept(live, more, t.right);
      if Compare(x, t.text) < 0 { GrownRoomy(live, more, t.left, x, at); }
      else if Compare(x, t.text) > 0 { GrownRoomy(live, more, t.right, x, at); }
    }
  }

  /** The whole tree: after an insertion the pool shows the grown tree and nothing else. */
  lemma GrewHolds(v: View, u: View, t: Tree, x: seq<nat>, at: nat)
    requires Holds(v, t) && at >= 8
    requires GrewWords(v.words, u.words, STATIC_WORD, t, x, at) && GrewLive(v.live, u.live, t, x, at)
    ensures Holds(u, Grown(t, x, at))
  {
    GrownCounts(t, x, at);
    GrownHeads(t, x, at, v.live);
    GrownRoomy(v.live, u.live, t, x, at);
  }

  // ---------------------------------------------------------------------------------------
  // How large a tree can be
  // ---------------------------------------------------------------------------------------

  /** The number of nodes. */
  ghost function Nodes(t: Tree): nat { if t.Leaf? then 0 else 1 + Nodes(t.left) + Nodes(t.right) }

  /** Nodes lie apart, so there are not more of them than words. */
  lemma {:induction false} NodesFit(t: Tree, n: nat)
    requires Apart(t) && forall w :: w in Footprint(t) ==> w < n
    ensures Nodes(t) <= |Footprint(t)| <= n
  {
    FewWords(Footprint(t), n);
    if t.Node? {
      NodeParts(t.at, t.text);
      NodesFit(t.left, n);
      NodesFit(t.right, n);
      var a, b, c := NodeSet(t.at, t.text), Footprint(t.left), Footprint(t.right);
      assert |a| >= 1 by { assert a == {t.at} + (a - {t.at}); }
      assert |a + b + c| == |a| + |b| + |c|;
    }
  }

  lemma {:induction false} FewWords(ws: set<nat>, n: nat)
    requires forall w :: w in ws ==> w < n
    ensures |ws| <= n
  {
    if n > 0 {
      FewWords(ws - {n - 1}, n - 1);
    } else if w :| w in ws {
      assert false;
    }
  }

  // ---------------------------------------------------------------------------------------
  // Walking
  // ---------------------------------------------------------------------------------------

  /** In the order of the dictionary, no word twice. */
  ghost predicate Ascends(out: seq<(seq<nat>, nat)>) {
    forall i, j :: 0 <= i < j < |out| ==> Precedes(out[i].0, out[j].0)
  }

  lemma {:induction false} EntriesBounded(t: Tree, x: seq<nat>)
    ensures Below(t, x) ==> forall w :: w in Entries(t) ==> Compare(w, x) < 0
    ensures Above(t, x) ==> forall w :: w in Entries(t) ==> Compare(x, w) < 0
  {
    if t.Node? {
      EntriesBounded(t.left, x);
      EntriesBounded(t.right, x);
    }
  }

  /** A word lies in one place. */
  lemma EntriesWhere(t: Tree, w: seq<nat>, c: nat)
    requires t.Node? && Ordered(t)
    ensures w in Entries(t) && Entries(t)[w] == c <==>
              || (w == t.text && c == t.count)
              || (w in Entries(t.left) && Entries(t.left)[w] == c)
              || (w in Entries(t.right) && Entries(t.right)[w] == c)
  {
    CompareEqual(w, t.text);
    EntriesBounded(t.left, t.text);
    EntriesBounded(t.right, t.text);
  }

  /** The walk gives every word with its count, and in the order of the dictionary. */
  lemma {:induction false} InOrderLists(t: Tree)
    requires Ordered(t)
    ensures |InOrder(t)| == Nodes(t) && Ascends(InOrder(t))
    ensures forall w, c: nat :: (w, c) in InOrder(t) <==> w in Entries(t) && Entries(t)[w] == c
  {
    if t.Node? {
      hide Ordered;
      hide Entries;
      hide Ascends;
      OrderedParts(t);
      InOrderLists(t.left);
      InOrderLists(t.right);
      var l, r := InOrder(t.left), InOrder(t.right);
      forall w, c: nat ensures (w, c) in InOrder(t) <==> w in Entries(t) && Entries(t)[w] == c {
        EntriesWhere(t, w, c);
        InMiddle(l, (t.text, t.count), r, (w, c));
      }
      ListedBelow(t.left, t.text, l);
      ListedAbove(t.right, t.text, r);
      AscendsAround(l, (t.text, t.count), r);
    } else {
      assert InOrder(t) == [];
    }
  }

  lemma InMiddle<T>(l: seq<T>, x: T, r: seq<T>, y: T)
    ensures y in l + [x] + r <==> y in l || y == x || y in r
  {
  }

  lemma ListedBelow(t: Tree, x: seq<nat>, out: seq<(seq<nat>, nat)>)
    requires Below(t, x) && forall w, c: nat :: (w, c) in out <==> w in Entries(t) && Entries(t)[w] == c
    ensures forall i :: 0 <= i < |out| ==> Precedes(out[i].0, x)
  {
    hide Precedes;
    EntriesBounded(t, x);
    forall i | 0 <= i < |out| ensures Precedes(out[i].0, x) {
      assert (out[i].0, out[i].1) in out;
      ComparePrecedes(out[i].0, x);
    }
  }

  lemma ListedAbove(t: Tree, x: seq<nat>, out: seq<(seq<nat>, nat)>)
    requires Above(t, x) && forall w, c: nat :: (w, c) in out <==> w in Entries(t) && Entries(t)[w] == c
    ensures forall i :: 0 <= i < |out| ==> Precedes(x, out[i].0)
  {
    hide Precedes;
    EntriesBounded(t, x);
    forall i | 0 <= i < |out| ensures Precedes(x, out[i].0) {
      assert (out[i].0, out[i].1) in out;
      ComparePrecedes(x, out[i].0);
    }
  }

  lemma AscendsAround(l: seq<(seq<nat>, nat)>, x: (seq<nat>, nat), r: seq<(seq<nat>, nat)>)
    requires Ascends(l) && Ascends(r)
    requires forall i :: 0 <= i < |l| ==> Precedes(l[i].0, x.0)
    requires forall i :: 0 <= i < |r| ==> Precedes(x.0, r[i].0)
    ensures Ascends(l + [x] + r)
  {
    hide Precedes;
    var out := l + [x] + r;
    forall i, j | 0 <= i < j < |out| ensures Precedes(out[i].0, out[j].0) {
      if i < |l| < j { PrecedesTrans(l[i].0, x.0, r[j - |l| - 1].0); }
    }
  }

  lemma PrecedesTrans(a: seq<nat>, b: seq<nat>, c: seq<nat>)
    requires Precedes(a, b) && Precedes(b, c)
    ensures Precedes(a, c)
  {
    hide Precedes;
    hide Compare;
    ComparePrecedes(a, b);
    ComparePrecedes(b, c);
    CompareTrans(a, b, c);
    ComparePrecedes(a, c);
  }
}
