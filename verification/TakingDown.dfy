/** Freeing a node of the word-count tree: what the two calls do, and what crashes may leave. */
module TakingDown {
  import opened PersistentMemory
  import opened PoolImage
  import opened RecoveryFacts
  import opened CrashSafety
  import opened Finishing
  import opened Activation
  import opened Rechaining
  import opened Coalescing
  import opened Reserving
  import opened Registering
  import opened Calls
  import opened Runs
  import opened Allocator
  import opened Leftovers
  import opened ByteWords
  import opened WordTrees
  import opened WordTreeSteps
  import opened Pruning

  // ---------------------------------------------------------------------------------------
  // Lists
  // ---------------------------------------------------------------------------------------

  /** No clump but the one at `h` is reserved. */
  ghost predicate ReservedOnly(m: Image, hs: seq<nat>, h: nat)
    requires Bounds(hs, |m|)
  {
    forall i :: 0 <= i < |hs| - 1 && State(m[hs[i]]) == RESERVED ==> hs[i] == h
  }

  ghost predicate TidyBut(s: Pm, h: nat) {
    Bounds(Chain(s.mem), |s.mem|) && ReservedOnly(s.mem, Chain(s.mem), h)
  }

  /** No clump is reserved. */
  ghost predicate Tidy(s: Pm) { TidyBut(s, 0) }

  /** The list of a node's clump can only clear the pointer to that node: this is what crashes
      between registering that store and freeing the clump leave behind. */
  ghost predicate Noted(m: Image, slot: nat, t: Tree)
    decreases t
  {
    t.Node? ==>
      && t.at >= 8 && OnlyClears(m, t.at - 8, slot)
      && Noted(m, t.at, t.left) && Noted(m, t.at + 1, t.right)
  }

  /** Every node's clump can register one more store. */
  ghost predicate NoneFull(m: Image, t: Tree) {
    t.Node? ==>
      && t.at >= 8 && t.at <= |m| && FreeSlot(m, t.at - 8) < 3
      && NoneFull(m, t.left) && NoneFull(m, t.right)
  }

  lemma {:induction false} NotedKept(m: Image, b: Image, slot: nat, t: Tree)
    requires Noted(m, slot, t) && forall g :: g in Heads(t) ==> SameHeader(b, m, g)
    ensures Noted(b, slot, t) && (NoneFull(b, t) <==> NoneFull(m, t))
    decreases t
  {
    hide FreeSlot;
    hide OnlyClears;
    if t.Node? {
      NotedNode(m, slot, t);
      FullNode(m, t);
      NotedNode(b, slot, t);
      FullNode(b, t);
      assert t.at - 8 in Heads(t) && Heads(t.left) <= Heads(t) && Heads(t.right) <= Heads(t);
      hide Noted;
      hide NoneFull;
      hide Heads;
      ClearsKept(m, b, t.at - 8, slot);
      NotedKept(m, b, t.at, t.left);
      NotedKept(m, b, t.at + 1, t.right);
    }
  }

  lemma ClearsKept(m: Image, b: Image, h: nat, slot: nat)
    requires OnlyClears(m, h, slot) && SameHeader(b, m, h)
    ensures OnlyClears(b, h, slot) && h + 8 <= |b| == |m| && FreeSlot(b, h) == FreeSlot(m, h)
  {
    forall j: nat | j < 3 ensures Entry(b, h, slot, j) { assert Entry(m, h, slot, j); }
  }

  lemma ClearsEmpty(m: Image, h: nat, slot: nat)
    requires h + 8 <= |m| && EmptyList(m, h)
    ensures OnlyClears(m, h, slot)
  {
  }

  /** Whatever the list at g names can be seen among the clumps `live`. */
  ghost predicate NamesSeen(m: Image, g: nat, live: map<nat, nat>) {
    && g + 8 <= |m|
    && (m[g + 2] != 0 ==> Visible(live, m[g + 2] / 8))
    && (m[g + 4] != 0 ==> Visible(live, m[g + 4] / 8))
    && (m[g + 6] != 0 ==> Visible(live, m[g + 6] / 8))
  }

  lemma ClearsNames(m: Image, g: nat, slot: nat, live: map<nat, nat>)
    requires OnlyClears(m, g, slot) && Visible(live, slot)
    ensures NamesSeen(m, g, live)
  {
    hide Visible;
    assert 8 * slot / 8 == slot;
    assert Entry(m, g, slot, 0) && Entry(m, g, slot, 1) && Entry(m, g, slot, 2);
  }

  lemma {:induction false} NotedNames(m: Image, slot: nat, t: Tree, live: map<nat, nat>)
    requires Noted(m, slot, t) && Visible(live, slot) && Roomy(live, t)
    ensures forall g :: g in Heads(t) ==> NamesSeen(m, g, live)
    decreases t
  {
    hide NamesSeen;
    hide OnlyClears;
    if t.Node? {
      ClearsNames(m, t.at - 8, slot, live);
      assert Visible(live, t.at) && Visible(live, t.at + 1);
      NotedNames(m, t.at, t.left, live);
      NotedNames(m, t.at + 1, t.right, live);
    }
  }

  lemma SeenMore(m: Image, g: nat, live: map<nat, nat>, more: map<nat, nat>)
    requires NamesSeen(m, g, live) && forall h :: h in live ==> h in more && more[h] == live[h]
    ensures NamesSeen(m, g, more)
  {
    hide Visible;
    if m[g + 2] != 0 { VisibleMore(live, more, m[g + 2] / 8); }
    if m[g + 4] != 0 { VisibleMore(live, more, m[g + 4] / 8); }
    if m[g + 6] != 0 { VisibleMore(live, more, m[g + 6] / 8); }
  }

  /** The lists of the nodes of t clear the pointers to them, and no other list names a word of a node. */
  ghost predicate Listed(m: Image, live: map<nat, nat>, slot: nat, t: Tree) {
    && Noted(m, slot, t)
    && forall g :: g in live && g !in Heads(t) ==> NamesSeen(m, g, live - Heads(t))
  }

  ghost predicate Rest(t: Tree, side: Tree, rest: Tree) {
    t.Node? && ((side == t.left && rest == t.(left := Leaf)) || (side == t.right && rest == t.(right := Leaf)))
  }

  /** The node without one of its subtrees. */
  lemma RestParts(m: Image, v: View, n: nat, slot: nat, t: Tree, side: Tree, rest: Tree)
    requires Freeable(v, n, slot, t) && Noted(m, slot, t) && Rest(t, side, rest)
    ensures Noted(m, slot, rest) && Roomy(v.live, rest) && Visible(v.live - Heads(t), slot)
    ensures Heads(t) == Heads(side) + Heads(rest) && Heads(side) !! Heads(rest) && Heads(rest) <= v.live.Keys
  {
    hide Noted;
    hide OnlyClears;
    hide Planted;
    hide NodeSet;
    hide Footprint;
    hide Heads;
    hide Roomy;
    hide Apart;
    NotedRest(m, slot, t, side, rest);
    RoomyRest(v.live, t, side, rest);
    RestHeads(v.live, t, side, rest);
  }

  lemma NotedRest(m: Image, slot: nat, t: Tree, side: Tree, rest: Tree)
    requires Noted(m, slot, t) && Rest(t, side, rest)
    ensures Noted(m, slot, rest)
  {
    hide OnlyClears;
  }

  lemma RoomyRest(live: map<nat, nat>, t: Tree, side: Tree, rest: Tree)
    requires Roomy(live, t) && Rest(t, side, rest)
    ensures Roomy(live, rest)
  {
    hide NodeWords;
  }

  lemma RestHeads(live: map<nat, nat>, t: Tree, side: Tree, rest: Tree)
    requires Apart(t) && Roomy(live, t) && Rest(t, side, rest) && Roomy(live, rest)
    ensures Heads(t) == Heads(side) + Heads(rest) && Heads(side) !! Heads(rest) && Heads(rest) <= live.Keys
  {
    hide Apart;
    hide Roomy;
    hide Heads;
    RoomyHere(live, t);
    HeadsApart(live, t);
    HeadsOf(t);
    HeadsOf(rest);
    NoHeads();
    HeadsLive(live, rest);
  }

  lemma NoHeads()
    ensures Heads(Leaf) == {}
  {
  }

  /** Below the node: its own list and those of the other subtree name words outside `side`. */
  lemma ListedBeside(m: Image, v: View, n: nat, slot: nat, t: Tree, side: Tree, rest: Tree)
    requires Freeable(v, n, slot, t) && Listed(m, v.live, slot, t) && Rest(t, side, rest)
    ensures forall g :: g in v.live && g !in Heads(side) ==> NamesSeen(m, g, v.live - Heads(side))
  {
    hide Freeable;
    hide Noted;
    hide Roomy;
    hide Visible;
    hide Heads;
    hide NamesSeen;
    var live, most := v.live - Heads(side), v.live - Heads(t);
    RestParts(m, v, n, slot, t, side, rest);
    VisibleMore(most, live, slot);
    RoomyWithout(v.live, live, rest);
    NotedNames(m, slot, rest, live);
    forall g | g in v.live && g !in Heads(side) ensures NamesSeen(m, g, live) {
      if g !in Heads(t) { SeenMore(m, g, most, live); }
    }
  }

  lemma ListedSides(m: Image, v: View, n: nat, slot: nat, t: Tree)
    requires Freeable(v, n, slot, t) && Listed(m, v.live, slot, t) && t.Node?
    ensures Listed(m, v.live, t.at, t.left) && Listed(m, v.live, t.at + 1, t.right)
  {
    hide NamesSeen;
    hide OnlyClears;
    hide Freeable;
    ListedBeside(m, v, n, slot, t, t.left, t.(left := Leaf));
    ListedBeside(m, v, n, slot, t, t.right, t.(right := Leaf));
  }

  lemma LivingAt(m: Image, hs: seq<nat>, h: nat)
    requires Bounds(hs, |m|) && NoTransit(m, hs) && m[hs[|hs| - 1]] == 0 && h in Living(m, hs)
    ensures Index(hs, h) < |hs| - 1 && State(m[h]) == ACTIVE
  {
    var i :| 0 <= i < |hs| && hs[i] == h;
    IndexUnique(hs, |m|, i);
  }

  lemma LiveClump(s: Pm, h: nat)
    requires Quiet(s, Chain(s.mem)) && h in Sight(s).live
    ensures var hs := Chain(s.mem); var k := Index(hs, h);
            k < |hs| - 1 && hs[k] == h && ClumpAt(s.mem, hs, h, ACTIVE) && h >= FIRST && h % 8 == 0 && h + 8 <= |s.mem|
  {
    hide PersistentMemory.Exec;
    hide Chain;
    hide ClumpOk;
    hide Clump;
    var hs := Chain(s.mem);
    QuietReads(s, hs);
    hide Sight;
    LivingAt(s.mem, hs, h);
  }

  // ---------------------------------------------------------------------------------------
  // What is left of a tree
  // ---------------------------------------------------------------------------------------

  /** The memory b, showing u, is what is left of m, showing v, once the tree t at `slot` has become
      p: the lists of the nodes left clear their pointers, other clumps keep their headers. */
  ghost predicate CutIn(v: View, m: Image, u: View, b: Image, slot: nat, t: Tree, p: Tree) {
    && |b| == |m| && CutTo(v, u, |m|, slot, t, p) && Noted(b, slot, p)
    && forall g :: g in v.live && g !in Heads(t) ==> SameHeader(b, m, g)
  }

  lemma CutInSelf(v: View, m: Image, slot: nat, t: Tree)
    requires Freeable(v, |m|, slot, t) && Noted(m, slot, t) && forall g :: g in v.live ==> g + 8 <= |m|
    ensures CutIn(v, m, v, m, slot, t, t)
  {
    NothingCut(v, |m|, slot, t);
  }

  lemma CutInTrans(v: View, m: Image, u: View, a: Image, w: View, b: Image, slot: nat, t: Tree, p: Tree, q: Tree)
    requires Shaped(v, |m|) && CutIn(v, m, u, a, slot, t, p) && CutIn(u, a, w, b, slot, p, q)
    ensures CutIn(v, m, w, b, slot, t, q)
  {
    hide Shaped;
    hide Noted;
    hide Planted;
    CutTrans(v, u, w, |m|, slot, t, p, q);
    PrunesSmaller(p, t);
  }

  /** The clumps of a node and of its subtrees are live, and none is another's. */
  lemma NodeHeads(v: View, m: Image, slot: nat, t: Tree)
    requires Freeable(v, |m|, slot, t) && t.Node? && Noted(m, slot, t)
    ensures t.at >= 8 && OnlyClears(m, t.at - 8, slot) && Noted(m, t.at, t.left) && Noted(m, t.at + 1, t.right)
    ensures Heads(t) == {t.at - 8} + Heads(t.left) + Heads(t.right) && Heads(t) <= v.live.Keys
    ensures t.at - 8 !in Heads(t.left) && t.at - 8 !in Heads(t.right) && Heads(t.left) !! Heads(t.right)
  {
    hide Planted;
    hide OnlyClears;
    HeadsApart(v.live, t);
    HeadsLive(v.live, t);
    HeadsOf(t);
  }

  lemma NotedNode(b: Image, slot: nat, t: Tree)
    requires t.Node?
    ensures Noted(b, slot, t) <==>
              t.at >= 8 && OnlyClears(b, t.at - 8, slot) && Noted(b, t.at, t.left) && Noted(b, t.at + 1, t.right)
  {
  }

  lemma FullNode(b: Image, t: Tree)
    requires t.Node?
    ensures NoneFull(b, t) <==>
              t.at >= 8 && t.at <= |b| && FreeSlot(b, t.at - 8) < 3 && NoneFull(b, t.left) && NoneFull(b, t.right)
  {
  }

  lemma CutInLeft(v: View, m: Image, u: View, b: Image, slot: nat, t: Tree, p: Tree)
    requires Freeable(v, |m|, slot, t) && t.Node? && Noted(m, slot, t) && CutIn(v, m, u, b, t.at, t.left, p)
    ensures CutIn(v, m, u, b, slot, t, t.(left := p))
    ensures NoneFull(b, t.right) <==> NoneFull(m, t.right)
    ensures t.at >= 8 && t.at <= |m| && FreeSlot(b, t.at - 8) == FreeSlot(m, t.at - 8)
  {
    hide OnlyClears;
    hide Noted;
    hide Freeable;
    hide CutTo;
    NodeHeads(v, m, slot, t);
    ClearsKept(m, b, t.at - 8, slot);
    NotedKept(m, b, t.at + 1, t.right);
    CutLeft(v, u, |m|, slot, t, p);
    NotedNode(b, slot, t.(left := p));
  }

  lemma CutInRight(v: View, m: Image, u: View, b: Image, slot: nat, t: Tree, p: Tree)
    requires Freeable(v, |m|, slot, t) && t.Node? && t.left.Leaf? && Noted(m, slot, t)
    requires CutIn(v, m, u, b, t.at + 1, t.right, p)
    ensures CutIn(v, m, u, b, slot, t, t.(right := p))
    ensures t.at >= 8 && t.at <= |m| && FreeSlot(b, t.at - 8) == FreeSlot(m, t.at - 8)
  {
    hide OnlyClears;
    hide Noted;
    hide Freeable;
    hide CutTo;
    hide FreeSlot;
    NodeHeads(v, m, slot, t);
    ClearsKept(m, b, t.at - 8, slot);
    NotedKept(m, b, t.at, t.left);
    CutRight(v, u, |m|, slot, t, p);
    NotedNode(b, slot, t.(right := p));
  }

  /** What is left can be taken down further. */
  lemma CutListed(v: View, m: Image, u: View, b: Image, slot: nat, t: Tree, p: Tree)
    requires Freeable(v, |m|, slot, t) && Listed(m, v.live, slot, t) && CutIn(v, m, u, b, slot, t, p)
    ensures Freeable(u, |m|, slot, p) && Listed(b, u.live, slot, p)
  {
    CutFreeable(v, u, |m|, slot, t, p);
    hide Freeable;
    hide Noted;
    PrunesSmaller(p, t);
    assert u.live - Heads(p) == v.live - Heads(t);
    forall g | g in u.live && g !in Heads(p) ensures NamesSeen(b, g, u.live - Heads(p)) {
      assert SameHeader(b, m, g) && NamesSeen(m, g, v.live - Heads(t));
    }
  }

  // ---------------------------------------------------------------------------------------
  // Registering the store that unlinks a node
  // ---------------------------------------------------------------------------------------

  lemma NodeRegisters(s: Pm, h: nat, slot: nat)
    requires Quiet(s, Chain(s.mem)) && h in Sight(s).live && slot in Sight(s).words
    ensures h % 8 == 0 && h + 8 <= |s.mem| && slot > 0 && 8 * (h + 8) / 8 - 8 == h
    ensures Registers(s.mem, Chain(s.mem), h, ACTIVE, 8 * slot)
  {
    hide PersistentMemory.Exec;
    hide Chain;
    hide ClumpOk;
    hide Clump;
    hide Sight;
    LiveClump(s, h);
    VisibleReach(s, slot, ACTIVE);
  }

  /** The clump at h has registered to clear `slot`, maybe more than once, and nothing else; nobody
      else names a word of it. */
  ghost predicate Leaving(s: Pm, h: nat, slot: nat) {
    && Quiet(s, Chain(s.mem)) && Tidy(s) && h in Sight(s).live && slot > 0
    && OnlyClears(s.mem, h, slot) && s.mem[h + 2] != 0
    && forall g :: g in Sight(s).live && g != h ==> NamesSeen(s.mem, g, Sight(s).live - {h})
  }

  lemma RegisteredWord(b: Image, m: Image, h: nat, slot: nat)
    requires Registered(b, m, h, 8 * slot, 0) && slot > 0 && OnlyClears(m, h, slot)
    ensures h + 8 <= |b| == |m| && b[h + 2] != 0 && OnlyClears(b, h, slot)
    ensures forall w :: 0 <= w < |m| && !(h < w < h + 8) ==> b[w] == m[w]
  {
    forall j: nat | j < 3 ensures Entry(b, h, slot, j) { assert Entry(m, h, slot, j); }
  }

  lemma RegisteredLeaving(s: Pm, h: nat, slot: nat, r: Pm)
    requires Quiet(s, Chain(s.mem)) && Tidy(s) && h in Sight(s).live && slot > 0 && OnlyClears(s.mem, h, slot)
    requires forall g :: g in Sight(s).live && g != h ==> NamesSeen(s.mem, g, Sight(s).live - {h})
    requires Registered(r.mem, s.mem, h, 8 * slot, 0)
    requires Quiet(r, Chain(r.mem)) && Chain(r.mem) == Chain(s.mem) && Sight(r) == Sight(s)
    ensures Leaving(r, h, slot)
    ensures forall g :: g in Sight(s).live && g != h ==> SameHeader(r.mem, s.mem, g)
  {
    hide PersistentMemory.Exec;
    hide Chain;
    hide ClumpOk;
    hide Clump;
    hide Sight;
    hide OnlyClears;
    hide Registered;
    LiveClump(s, h);
    RegisteredWord(r.mem, s.mem, h, slot);
    var hs := Chain(s.mem);
    var k := Index(hs, h);
    forall i | 0 <= i < |hs| - 1 ensures State(r.mem[hs[i]]) == State(s.mem[hs[i]]) {
      if i != k { RecoveryFacts.HeadersApart(hs, |s.mem|, i, k); }
    }
    forall g | g in Sight(s).live && g != h
      ensures SameHeader(r.mem, s.mem, g) && NamesSeen(r.mem, g, Sight(s).live - {h})
    {
      LiveClump(s, g);
      RecoveryFacts.HeadersApart(hs, |s.mem|, Index(hs, g), k);
      assert NamesSeen(s.mem, g, Sight(s).live - {h});
    }
  }

  /** A word that can be seen without clump k is not one of its words. */
  lemma SeenElsewhere(m: Image, hs: seq<nat>, k: nat, w: nat)
    requires Tiled(m, hs) && k < |hs| - 1 && Visible(Living(m, hs) - {hs[k]}, w)
    ensures !(hs[k] + 8 <= w < hs[k + 1])
  {
    hide State;
    hide Span;
    if Static(w) {
      if k > 0 { assert hs[0] + 8 <= hs[k]; }
    } else {
      var live := Living(m, hs);
      var g: nat :| g in live && g != hs[k] && g + 8 <= w < g + live[g];
      var i: nat :| i < |hs| && hs[i] == g;
      LivingBefore(m, hs, i);
      assert Clump(m, hs, i);
      if i < k { assert i + 1 == k || hs[i + 1] + 8 <= hs[k]; } else { assert k + 1 == i || hs[k + 1] + 8 <= hs[i]; }
    }
  }

  lemma LivingBefore(m: Image, hs: seq<nat>, i: nat)
    requires Tiled(m, hs) && i < |hs| && hs[i] in Living(m, hs)
    ensures i < |hs| - 1
  {
  }

  lemma SeenUnnamed(m: Image, hs: seq<nat>, k: nat, g: nat)
    requires Tiled(m, hs) && k < |hs| - 1 && NamesSeen(m, g, Living(m, hs) - {hs[k]})
    ensures !Names(m[g + 2], hs[k] + 8, hs[k + 1])
    ensures !Names(m[g + 4], hs[k] + 8, hs[k + 1])
    ensures !Names(m[g + 6], hs[k] + 8, hs[k + 1])
  {
    hide Tiled;
    hide Visible;
    if m[g + 2] != 0 { SeenElsewhere(m, hs, k, m[g + 2] / 8); }
    if m[g + 4] != 0 { SeenElsewhere(m, hs, k, m[g + 4] / 8); }
    if m[g + 6] != 0 { SeenElsewhere(m, hs, k, m[g + 6] / 8); }
  }

  lemma LeavingReady(s: Pm, h: nat, slot: nat)
    requires Leaving(s, h, slot)
    ensures h % 8 == 0 && 8 * (h + 8) / 8 - 8 == h && Legal(s.mem, Chain(s.mem), FIRST, Command.Free(h))
    ensures ClumpAt(s.mem, Chain(s.mem), h, ACTIVE)
    ensures var hs := Chain(s.mem); CanCommit(s.mem, hs, Index(hs, h)) && hs[Index(hs, h)] == h
  {
    hide PersistentMemory.Exec;
    hide Chain;
    hide ClumpOk;
    hide Clump;
    hide Sight;
    hide NamesSeen;
    LiveClump(s, h);
    var m, hs := s.mem, Chain(s.mem);
    var k := Index(hs, h);
    LeavingUnnamed(s, h, slot, k);
    ClearsConsistent(m, h, slot);
  }

  lemma LeavingUnnamed(s: Pm, h: nat, slot: nat, k: nat)
    requires Leaving(s, h, slot) && k < |Chain(s.mem)| - 1 && Chain(s.mem)[k] == h
    ensures Unnamed(s.mem, Chain(s.mem), k)
  {
    hide PersistentMemory.Exec;
    hide Chain;
    hide ClumpOk;
    hide Clump;
    hide Sight;
    hide NamesSeen;
    hide OnlyClears;
    hide Unnamed;
    hide Living;
    QuietReads(s, Chain(s.mem));
    NobodyNames(s.mem, Chain(s.mem), k, Living(s.mem, Chain(s.mem)));
  }

  lemma NobodyNames(m: Image, hs: seq<nat>, k: nat, live: map<nat, nat>)
    requires Tiled(m, hs) && ReservedOnly(m, hs, 0) && k < |hs| - 1 && live == Living(m, hs)
    requires forall g :: g in live && g != hs[k] ==> NamesSeen(m, g, live - {hs[k]})
    ensures Unnamed(m, hs, k)
  {
    hide Clump;
    hide NamesSeen;
    hide Names;
    hide State;
    forall i | 0 <= i < |hs| - 1 && i != k && (State(m[hs[i]]) == ACTIVE || State(m[hs[i]]) == RESERVED)
      ensures !Names(m[hs[i] + 2], hs[k] + 8, hs[k + 1])
      ensures !Names(m[hs[i] + 4], hs[k] + 8, hs[k + 1])
      ensures !Names(m[hs[i] + 6], hs[k] + 8, hs[k + 1])
    {
      RecoveryFacts.HeadersApart(hs, |m|, i, k);
      assert hs[i] in live;
      SeenUnnamed(m, hs, k, hs[i]);
    }
  }

  lemma ClearsConsistent(m: Image, h: nat, slot: nat)
    requires OnlyClears(m, h, slot)
    ensures Consistent(m, h)
  {
    assert Entry(m, h, slot, 0) && Entry(m, h, slot, 1) && Entry(m, h, slot, 2);
  }

  // ---------------------------------------------------------------------------------------
  // Insertions leave no clump reserved
  // ---------------------------------------------------------------------------------------

  lemma ReservedTidy(s: Pm, cursor: nat, x: seq<nat>, ptr: nat, r: Pm)
    requires Called(s, cursor, Command.Reserve(NodeSize(x)), r) && Tidy(s) && ptr >= 64
    requires ReserveResult(s.mem, Chain(s.mem), cursor, NodeSize(x), ptr, r.mem, Chain(r.mem))
    ensures TidyBut(r, ptr / 8 - 8)
  {
    hide PersistentMemory.Exec;
    hide Chain;
    hide Atomically;
    hide Quiet;
    hide Carved;
    hide ReservedChain;
    hide ReservedOnly;
    CalledQuiet(s, cursor, Command.Reserve(NodeSize(x)), r);
    var hs := Chain(s.mem);
    var k := FirstFit(s.mem, hs, Index(hs, cursor), ClumpBytes(NodeSize(x)));
    ClumpBytesEnough(NodeSize(x));
    CarvedTidy(r.mem, s.mem, hs, k, ClumpBytes(NodeSize(x)));
  }

  lemma CarvedTidy(b: Image, m: Image, hs: seq<nat>, k: nat, bytes: nat)
    requires Tiled(m, hs) && Fitting(m, hs, k, bytes) && Carved(b, m, hs, k, bytes) && ReservedOnly(m, hs, 0)
    requires Bounds(ReservedChain(m, hs, k, bytes), |b|)
    ensures ReservedOnly(b, ReservedChain(m, hs, k, bytes), hs[k])
  {
    var gs := ReservedChain(m, hs, k, bytes);
    forall j | 0 <= j < |gs| - 1 && State(b[gs[j]]) == RESERVED ensures gs[j] == hs[k] {
      if j != k { CarvedBackward(b, m, hs, k, bytes, j); }
    }
  }

  lemma OutsideTidy(m: Image, hs: seq<nat>, w: nat, v: nat, h: nat)
    requires Bounds(hs, |m|) && w < |m| && !Header(hs, w) && ReservedOnly(m, hs, h)
    ensures ReservedOnly(m[w := v], hs, h)
  {
    forall i | 0 <= i < |hs| - 1 ensures m[w := v][hs[i]] == m[hs[i]] { OutsideHeader(hs, i, w); }
  }

  lemma FilledTidy(s: Pm, at: nat, x: seq<nat>, w: nat, v: nat, r: Pm)
    requires Held(s, at, x) && w in NodeSet(at, x) && w < |s.mem| && TidyBut(s, at - 8)
    requires r.mem == s.mem[w := v] && Chain(r.mem) == Chain(s.mem)
    ensures TidyBut(r, at - 8)
  {
    hide Chain;
    HeldHidden(s, at, x, w);
    OutsideTidy(s.mem, Chain(s.mem), w, v, at - 8);
  }

  lemma PokedTidy(s: Pm, w: nat, v: nat, r: Pm)
    requires Quiet(s, Chain(s.mem)) && w in Sight(s).words && w < |s.mem| && Tidy(s)
    requires r.mem == s.mem[w := v] && Chain(r.mem) == Chain(s.mem)
    ensures Tidy(r)
  {
    hide Chain;
    QuietReads(s, Chain(s.mem));
    VisibleIsTarget(s.mem, Chain(s.mem), w);
    TargetIsNoHeader(Chain(s.mem), |s.mem|, w);
    OutsideTidy(s.mem, Chain(s.mem), w, v, 0);
  }

  /** Registering and activating: the clump under way is in use in the end. */
  lemma ActivatedTidy(s: Pm, a: Image, at: nat, x: seq<nat>, slot: nat, r: Pm)
    requires Held(s, at, x) && slot > 0 && Chain(r.mem) == Chain(s.mem) && |r.mem| == |s.mem| && TidyBut(s, at - 8)
    requires Registered(a, s.mem, at - 8, 8 * slot, 8 * at)
    requires Bounds(Chain(s.mem), |a|) && Index(Chain(s.mem), at - 8) < |Chain(s.mem)| - 1
    requires Committed(r.mem, a, Chain(s.mem), Index(Chain(s.mem), at - 8))
    ensures Tidy(r)
  {
    hide Chain;
    hide Quiet;
    HeldWhere(s, at, x);
    var m, hs := s.mem, Chain(s.mem);
    var k := Index(hs, at - 8);
    SizeWord(Bytes(m[hs[k]]), ACTIVE);
    forall i | 0 <= i < |hs| - 1 ensures State(r.mem[hs[i]]) != RESERVED {
      if i != k {
        RecoveryFacts.HeadersApart(hs, |m|, i, k);
        assert SameHeader(r.mem, a, hs[i]);
      }
    }
  }

  // ---------------------------------------------------------------------------------------
  // After the call
  // ---------------------------------------------------------------------------------------

  lemma FreedTidy(s: Pm, h: nat, slot: nat, r: Pm)
    requires Leaving(s, h, slot)
    requires Freed(s.mem, Chain(s.mem), Index(Chain(s.mem), h), r.mem, Chain(r.mem))
    ensures Tidy(r)
  {
    hide PersistentMemory.Exec;
    hide Chain;
    hide ClumpOk;
    hide Clump;
    hide ViewOf;
    hide ViewAfter;
    hide Coalesced;
    hide FreeCore;
    hide FreedImage;
    hide CoalescedFrom;
    hide NamesSeen;
    LeavingReady(s, h, slot);
    var m, hs, b, gs := s.mem, Chain(s.mem), r.mem, Chain(r.mem);
    var k := Index(hs, h);
    var a := FreeCoreAtomic(s, hs, k);
    forall i | 0 <= i < |gs| - 1 ensures State(b[gs[i]]) != RESERVED {
      if State(b[gs[i]]) == RESERVED {
        assert InChain(hs, gs[i], gs[i + 1]) && SameHeader(a.mem, b, gs[i]);
        var j: nat :| Link(hs, j, gs[i], gs[i + 1]);
        FreedOther(m, a.mem, hs, k, j);
      }
    }
  }

  lemma FreedOther(m: Image, a: Image, hs: seq<nat>, k: nat, j: nat)
    requires Bounds(hs, |m|) && k < |hs| - 1 && Committed(a, m, hs, k) && State(m[hs[k]]) == ACTIVE
    requires j < |hs| - 1 && State(a[hs[j]]) == RESERVED
    ensures j != k && SameHeader(a, m, hs[j])
  {
    SizeWord(Bytes(m[hs[k]]), FREE);
  }

  lemma LeavingReplay(m: Image, h: nat, slot: nat)
    requires OnlyClears(m, h, slot) && m[h + 2] != 0 && slot > 0
    ensures forall w: nat :: w < |m| ==> ReplayAt(m, h, w) == if w == slot then 0 else m[w]
  {
    assert Entry(m, h, slot, 0) && Entry(m, h, slot, 1) && Entry(m, h, slot, 2);
    assert 8 * slot / 8 == slot;
  }

  lemma FreedAs(m: Image, hs: seq<nat>, k: nat, b: Image, gs: seq<nat>)
    requires Bounds(hs, |m|) && k < |hs| - 1 && Freed(m, hs, k, b, gs) && State(m[hs[k]]) == ACTIVE
    ensures ViewAfter(ViewOf(b, gs), m, hs, k)
  {
  }

  lemma FreedView(s: Pm, h: nat, slot: nat, r: Pm)
    requires Leaving(s, h, slot) && Quiet(r, Chain(r.mem)) && |r.mem| == |s.mem|
    requires Freed(s.mem, Chain(s.mem), Index(Chain(s.mem), h), r.mem, Chain(r.mem))
    ensures Shaped(Sight(s), |s.mem|) && Shaped(Sight(r), |s.mem|) && Sight(r).live == Sight(s).live - {h}
    ensures forall w :: w in Sight(s).words && w in Sight(r).words ==>
              Sight(r).words[w] == if w == slot then 0 else Sight(s).words[w]
  {
    hide PersistentMemory.Exec;
    hide Chain;
    hide ClumpOk;
    hide Clump;
    hide Visible;
    hide ReplayAt;
    hide Freed;
    hide ViewOf;
    hide NamesSeen;
    LiveClump(s, h);
    LeavingReplay(s.mem, h, slot);
    FreedAs(s.mem, Chain(s.mem), Index(Chain(s.mem), h), r.mem, Chain(r.mem));
    QuietReads(s, Chain(s.mem));
    QuietReads(r, Chain(r.mem));
  }

  // ---------------------------------------------------------------------------------------
  // What crashes may leave
  // ---------------------------------------------------------------------------------------

  /** The images that show the tree at `slot` with some of its subtrees gone, and their memory free
      again; recovery leaves the other clumps' headers as m has them. */
  ghost function Cuts(v: View, m: Image, slot: nat, t: Tree): iset<Image> {
    iset img: Image | CutShown(v, m, img, slot, t)
  }

  ghost predicate CutShown(v: View, m: Image, img: Image, slot: nat, t: Tree) {
    Recoverable(img, Chain(img)) && exists p :: CutIn(v, m, ViewOf(img, Chain(img)), After(img), slot, t, p)
  }

  lemma CutsLeft(v: View, m: Image, slot: nat, t: Tree)
    requires Freeable(v, |m|, slot, t) && t.Node? && Noted(m, slot, t)
    ensures Cuts(v, m, t.at, t.left) <= Cuts(v, m, slot, t)
  {
    hide PersistentMemory.Exec;
    hide Chain;
    hide Freeable;
    hide ClumpOk;
    hide CutIn;
    hide ViewOf;
    hide After;
    hide Noted;
    forall img | img in Cuts(v, m, t.at, t.left) ensures img in Cuts(v, m, slot, t) {
      var p :| CutIn(v, m, ViewOf(img, Chain(img)), After(img), t.at, t.left, p);
      CutInLeft(v, m, ViewOf(img, Chain(img)), After(img), slot, t, p);
    }
  }

  lemma CutsRight(v: View, m: Image, slot: nat, t: Tree)
    requires Freeable(v, |m|, slot, t) && t.Node? && t.left.Leaf? && Noted(m, slot, t)
    ensures Cuts(v, m, t.at + 1, t.right) <= Cuts(v, m, slot, t)
  {
    hide PersistentMemory.Exec;
    hide Chain;
    hide Freeable;
    hide ClumpOk;
    hide CutIn;
    hide ViewOf;
    hide After;
    hide Noted;
    forall img | img in Cuts(v, m, t.at + 1, t.right) ensures img in Cuts(v, m, slot, t) {
      var p :| CutIn(v, m, ViewOf(img, Chain(img)), After(img), t.at + 1, t.right, p);
      CutInRight(v, m, ViewOf(img, Chain(img)), After(img), slot, t, p);
    }
  }

  lemma CutsTrans(v: View, m: Image, u: View, a: Image, slot: nat, t: Tree, p: Tree)
    requires Shaped(v, |m|) && CutIn(v, m, u, a, slot, t, p)
    ensures Cuts(u, a, slot, p) <= Cuts(v, m, slot, t)
  {
    hide PersistentMemory.Exec;
    hide Chain;
    hide ClumpOk;
    hide CutIn;
    hide ViewOf;
    hide After;
    hide Shaped;
    forall img | img in Cuts(u, a, slot, p) ensures img in Cuts(v, m, slot, t) {
      var q :| CutIn(u, a, ViewOf(img, Chain(img)), After(img), slot, p, q);
      CutInTrans(v, m, u, a, ViewOf(img, Chain(img)), After(img), slot, t, p, q);
    }
  }

  /** The program turned s into r, and every crash in it leaves a good image. */
  ghost predicate DidWithin(s: Pm, prog: seq<Instr>, r: Pm, good: iset<Image>) {
    Sane(s) && r == Exec(s, prog) && Guarded(s, prog, good)
  }

  lemma WithinMore(s: Pm, p: seq<Instr>, a: Pm, q: seq<Instr>, r: Pm, one: iset<Image>, two: iset<Image>,
                   good: iset<Image>)
    requires DidWithin(s, p, a, one) && DidWithin(a, q, r, two) && one <= good && two <= good
    ensures DidWithin(s, p + q, r, good)
  {
    GuardedWiden(s, p, one, good);
    GuardedWiden(a, q, two, good);
    InSequence(s, p, a, q, r, good);
  }

  lemma GuardedWithin(s: Pm, prog: seq<Instr>, r: Pm, good: iset<Image>)
    requires Sane(s) && r == Exec(s, prog) && Guarded(s, prog, good)
    ensures DidWithin(s, prog, r, good)
  {
  }

  /** An image that shows what s shows, with the headers of the other clumps from s. */
  lemma OthersAfter(s: Pm, h: nat, img: Image)
    requires Quiet(s, Chain(s.mem)) && Recoverable(img, Chain(img))
    requires img in Keeping(s.mem, HeaderWords(Sight(s).live.Keys - {h}))
    requires Sight(s).live.Keys - {h} <= ViewOf(img, Chain(img)).live.Keys
    ensures |img| == |s.mem| && forall g :: g in Sight(s).live && g != h ==> SameHeader(After(img), s.mem, g)
  {
    hide PersistentMemory.Exec;
    hide Chain;
    hide ClumpOk;
    hide Clump;
    hide ViewOf;
    LiveActive(s);
    var others := Sight(s).live.Keys - {h};
    forall g | g in Sight(s).live && g != h ensures SameHeader(After(img), s.mem, g) {
      KeptHeader(img, s.mem, others, g);
      ActiveAfter(img, g);
    }
  }

  /** A bare node whose list only clears its pointer, as long as it is there. */
  lemma NodeAfter(img: Image, h: nat, slot: nat)
    requires Recoverable(img, Chain(img)) && h in ViewOf(img, Chain(img)).live
    requires h + 8 <= |img| && (State(img[h]) == ACTIVE ==> OnlyClears(img, h, slot))
    ensures OnlyClears(After(img), h, slot)
  {
    hide PersistentMemory.Exec;
    hide Chain;
    hide ClumpOk;
    hide Clump;
    hide ViewOf;
    hide Entry;
    ActiveAfter(img, h);
    if State(img[h]) == ACTIVE { ClearsKept(img, After(img), h, slot); } else { ClearsEmpty(After(img), h, slot); }
  }

  ghost predicate BareNode(t: Tree) { t.Node? && t.left.Leaf? && t.right.Leaf? && t.at >= 8 }

  /** While the node is there. */
  lemma StillThere(s: Pm, slot: nat, t: Tree, img: Image)
    requires Quiet(s, Chain(s.mem)) && Freeable(Sight(s), |s.mem|, slot, t) && BareNode(t) && t.at - 8 in Sight(s).live
    requires Recoverable(img, Chain(img)) && ViewOf(img, Chain(img)) == Sight(s)
    requires img in Keeping(s.mem, HeaderWords(Sight(s).live.Keys - {t.at - 8}))
    requires t.at <= |img| && (State(img[t.at - 8]) == ACTIVE ==> OnlyClears(img, t.at - 8, slot))
    ensures img in Cuts(Sight(s), s.mem, slot, t)
  {
    hide PersistentMemory.Exec;
    hide Chain;
    hide ClumpOk;
    hide Clump;
    hide ViewOf;
    hide Freeable;
    hide CutTo;
    hide OnlyClears;
    hide After;
    OthersAfter(s, t.at - 8, img);
    NodeAfter(img, t.at - 8, slot);
    NothingCut(Sight(s), |s.mem|, slot, t);
    BareHeads(t);
    BareNoted(After(img), slot, t);
    assert CutIn(Sight(s), s.mem, ViewOf(img, Chain(img)), After(img), slot, t, t);
  }

  lemma RegisteringCuts(s: Pm, slot: nat, t: Tree, r: Pm)
    requires Quiet(s, Chain(s.mem)) && Freeable(Sight(s), |s.mem|, slot, t) && BareNode(t) && t.at - 8 in Sight(s).live
    requires OnlyClears(s.mem, t.at - 8, slot) && FreeSlot(s.mem, t.at - 8) < 3
    requires Called(s, FIRST, Command.OnFree(t.at - 8, 8 * slot, 0), r) && Sight(r) == Sight(s)
    ensures Guarded(s, RegisterSteps(t.at - 8, FreeSlot(s.mem, t.at - 8), 8 * slot, 0), Cuts(Sight(s), s.mem, slot, t))
  {
    hide PersistentMemory.Exec;
    hide Chain;
    hide ClumpOk;
    hide Clump;
    hide ViewOf;
    hide Freeable;
    hide OnlyClears;
    hide FreeSlot;
    hide RegisterSteps;
    hide HeaderWords;
    hide Cuts;
    var h := t.at - 8;
    var hs, others := Chain(s.mem), Sight(s).live.Keys - {h};
    var prog := RegisterSteps(h, FreeSlot(s.mem, h), 8 * slot, 0);
    LiveActive(s);
    LiveClump(s, h);
    CallKeepsHeaders(s, hs, FIRST, Command.OnFree(h, 8 * slot, 0), others);
    OnFreeClears(s, hs, Index(hs, h), slot);
    var a, b, c := Showing({Sight(s), Sight(r)}), Keeping(s.mem, HeaderWords(others)), ClearsOnly(|s.mem|, h, slot);
    GuardedBoth(s, prog, a, b);
    GuardedBoth(s, prog, a * b, c);
    forall img | img in a * b * c ensures img in Cuts(Sight(s), s.mem, slot, t) { StillThere(s, slot, t, img); }
    GuardedWiden(s, prog, a * b * c, Cuts(Sight(s), s.mem, slot, t));
  }

  /** Once the node is gone. */
  lemma NodeGone(s: Pm, slot: nat, t: Tree, u: View, b: Image)
    requires Quiet(s, Chain(s.mem)) && Freeable(Sight(s), |s.mem|, slot, t) && BareNode(t)
    requires Shaped(u, |s.mem|) && u.live == Sight(s).live - {t.at - 8}
    requires forall w :: w in Sight(s).words && w in u.words ==> u.words[w] == if w == slot then 0
               else Sight(s).words[w]
    requires |b| == |s.mem| && forall g :: g in Sight(s).live && g != t.at - 8 ==> SameHeader(b, s.mem, g)
    ensures CutIn(Sight(s), s.mem, u, b, slot, t, Leaf)
  {
    hide Chain;
    hide Sight;
    CutNode(Sight(s), u, |s.mem|, slot, t);
  }

  lemma FreeingCuts(s: Pm, slot: nat, t: Tree, r: Pm)
    requires BareNode(t) && Leaving(s, t.at - 8, slot) && Freeable(Sight(s), |s.mem|, slot, t)
    requires Called(s, FIRST, Command.Free(t.at - 8), r)
    requires Shaped(Sight(r), |s.mem|) && Sight(r).live == Sight(s).live - {t.at - 8}
    requires forall w :: w in Sight(s).words && w in Sight(r).words ==>
               Sight(r).words[w] == if w == slot then 0 else Sight(s).words[w]
    ensures Guarded(s, FreeSteps(s.mem, Chain(s.mem), t.at - 8), Cuts(Sight(s), s.mem, slot, t))
    ensures CutIn(Sight(s), s.mem, Sight(r), r.mem, slot, t, Leaf)
  {
    hide PersistentMemory.Exec;
    hide Chain;
    hide ClumpOk;
    hide Clump;
    hide ViewOf;
    hide Freeable;
    hide OnlyClears;
    hide FreeSteps;
    hide HeaderWords;
    hide Shaped;
    hide NamesSeen;
    hide CutIn;
    var h := t.at - 8;
    var hs, others, good := Chain(s.mem), Sight(s).live.Keys - {h}, Cuts(Sight(s), s.mem, slot, t);
    var prog := FreeSteps(s.mem, hs, h);
    LiveActive(s);
    LeavingReady(s, h, slot);
    CallKeepsHeaders(s, hs, FIRST, Command.Free(h), others);
    FreeClears(s, hs, Index(hs, h), slot);
    var a, b, c := Showing({Sight(s), Sight(r)}), Keeping(s.mem, HeaderWords(others)), WhileActive(h, |s.mem|, slot);
    GuardedBoth(s, prog, a, b);
    GuardedBoth(s, prog, a * b, c);
    forall img | img in a * b * c ensures img in good {
      if ViewOf(img, Chain(img)) == Sight(s) {
        StillThere(s, slot, t, img);
      } else {
        OthersAfter(s, h, img);
        NodeGone(s, slot, t, Sight(r), After(img));
      }
    }
    GuardedWiden(s, prog, a * b * c, good);
    OthersKept(s, h, r.mem);
    NodeGone(s, slot, t, Sight(r), r.mem);
  }

  lemma OthersKept(s: Pm, h: nat, b: Image)
    requires Quiet(s, Chain(s.mem)) && b in Keeping(s.mem, HeaderWords(Sight(s).live.Keys - {h}))
    ensures |b| == |s.mem| && forall g :: g in Sight(s).live && g != h ==> SameHeader(b, s.mem, g)
  {
    hide Chain;
    hide Sight;
    LiveInside(s);
    forall g | g in Sight(s).live && g != h ensures SameHeader(b, s.mem, g) {
      KeptHeader(b, s.mem, Sight(s).live.Keys - {h}, g);
    }
  }

  /** The two calls that take a bare node away. */
  lemma NodeTaken(s: Pm, slot: nat, t: Tree, a: Pm, r: Pm, p: seq<Instr>, q: seq<Instr>)
    requires Quiet(s, Chain(s.mem)) && Quiet(a, Chain(a.mem)) && Quiet(r, Chain(r.mem))
    requires Freeable(Sight(s), |s.mem|, slot, t) && BareNode(t) && |a.mem| == |s.mem| && Sight(a) == Sight(s)
    requires forall g :: g in Sight(s).live && g != t.at - 8 ==> SameHeader(a.mem, s.mem, g)
    requires OnlyClears(a.mem, t.at - 8, slot)
    requires DidWithin(s, p, a, Cuts(Sight(s), s.mem, slot, t))
    requires DidWithin(a, q, r, Cuts(Sight(a), a.mem, slot, t))
    requires CutIn(Sight(a), a.mem, Sight(r), r.mem, slot, t, Leaf)
    ensures CutIn(Sight(s), s.mem, Sight(r), r.mem, slot, t, Leaf)
    ensures DidWithin(s, p + q, r, Cuts(Sight(s), s.mem, slot, t))
  {
    hide Chain;
    hide Quiet;
    hide Sight;
    hide Cuts;
    hide DidWithin;
    hide OnlyClears;
    NothingCut(Sight(s), |s.mem|, slot, t);
    FreeableShaped(Sight(s), |s.mem|, slot, t);
    hide Freeable;
    hide CutTo;
    BareHeads(t);
    BareNoted(a.mem, slot, t);
    assert CutIn(Sight(s), s.mem, Sight(a), a.mem, slot, t, t);
    CutInTrans(Sight(s), s.mem, Sight(a), a.mem, Sight(r), r.mem, slot, t, t, Leaf);
    CutsTrans(Sight(s), s.mem, Sight(a), a.mem, slot, t, t);
    WithinMore(s, p, a, q, r, Cuts(Sight(s), s.mem, slot, t), Cuts(Sight(a), a.mem, slot, t),
               Cuts(Sight(s), s.mem, slot, t));
  }

  lemma BareNoted(b: Image, slot: nat, t: Tree)
    requires BareNode(t) && OnlyClears(b, t.at - 8, slot)
    ensures Noted(b, slot, t)
  {
  }

  lemma BareHeads(t: Tree)
    requires BareNode(t)
    ensures Heads(t) == {t.at - 8}
  {
  }

  lemma NodeFacts(s: Pm, slot: nat, t: Tree)
    requires Quiet(s, Chain(s.mem)) && Removable(s, slot, t) && t.Node? && t.left.Leaf? && t.right.Leaf?
    ensures BareNode(t) && t.at - 8 in Sight(s).live && slot in Sight(s).words && Sight(s).words[slot] == 8 * t.at
    ensures OnlyClears(s.mem, t.at - 8, slot)
    ensures forall g :: g in Sight(s).live && g != t.at - 8 ==> NamesSeen(s.mem, g, Sight(s).live - {t.at - 8})
  {
    hide Quiet;
    hide Chain;
    hide Sight;
    BareHeads(t);
  }

  /** The first call: the store is registered. */
  lemma NodeLeaves(s: Pm, slot: nat, t: Tree, a: Pm, p: seq<Instr>)
    requires Quiet(s, Chain(s.mem)) && Quiet(a, Chain(a.mem)) && Tidy(s) && slot > 0
    requires Removable(s, slot, t) && BareNode(t) && t.at - 8 in Sight(s).live
    requires t.at <= |s.mem| && FreeSlot(s.mem, t.at - 8) < 3
    requires Called(s, FIRST, Command.OnFree(t.at - 8, 8 * slot, 0), a) && Sight(a) == Sight(s)
    requires Registered(a.mem, s.mem, t.at - 8, 8 * slot, 0) && Chain(a.mem) == Chain(s.mem)
    requires p == RegisterSteps(t.at - 8, FreeSlot(s.mem, t.at - 8), 8 * slot, 0)
    ensures Leaving(a, t.at - 8, slot) && |a.mem| == |s.mem|
    ensures forall g :: g in Sight(s).live && g != t.at - 8 ==> SameHeader(a.mem, s.mem, g)
    ensures DidWithin(s, p, a, Cuts(Sight(s), s.mem, slot, t))
  {
    hide PersistentMemory.Exec;
    hide Chain;
    hide ClumpOk;
    hide Clump;
    hide Sight;
    hide Freeable;
    hide FreeSlot;
    hide OnlyClears;
    hide Registered;
    hide RegisterSteps;
    hide NamesSeen;
    hide Cuts;
    hide DidWithin;
    hide Tidy;
    hide Leaving;
    NodeFacts(s, slot, t);
    RegisteredWord(a.mem, s.mem, t.at - 8, slot);
    RegisteredLeaving(s, t.at - 8, slot, a);
    RegisteringCuts(s, slot, t, a);
    GuardedWithin(s, p, a, Cuts(Sight(s), s.mem, slot, t));
  }

  /** The second call: the node is unlinked and free. */
  lemma NodeLeft(s: Pm, slot: nat, t: Tree, a: Pm, r: Pm, p: seq<Instr>, q: seq<Instr>)
    requires Quiet(s, Chain(s.mem)) && Quiet(a, Chain(a.mem)) && Quiet(r, Chain(r.mem))
    requires Removable(s, slot, t) && BareNode(t) && |a.mem| == |s.mem| && Sight(a) == Sight(s)
    requires Leaving(a, t.at - 8, slot)
    requires forall g :: g in Sight(s).live && g != t.at - 8 ==> SameHeader(a.mem, s.mem, g)
    requires DidWithin(s, p, a, Cuts(Sight(s), s.mem, slot, t))
    requires Called(a, FIRST, Command.Free(t.at - 8), r)
    requires Freed(a.mem, Chain(a.mem), Index(Chain(a.mem), t.at - 8), r.mem, Chain(r.mem))
    requires q == FreeSteps(a.mem, Chain(a.mem), t.at - 8)
    ensures TookDown(s, p + q, r, slot, t, Leaf)
  {
    hide PersistentMemory.Exec;
    hide Chain;
    hide ClumpOk;
    hide Clump;
    hide Sight;
    hide Freeable;
    hide OnlyClears;
    hide FreeSteps;
    hide NamesSeen;
    hide Cuts;
    hide CutIn;
    hide DidWithin;
    hide Tidy;
    hide Freed;
    FreedSize(a, FIRST, Command.Free(t.at - 8), r);
    FreedView(a, t.at - 8, slot, r);
    FreeingCuts(a, slot, t, r);
    GuardedWithin(a, q, r, Cuts(Sight(a), a.mem, slot, t));
    NodeTaken(s, slot, t, a, r, p, q);
  }

  lemma FreedSize(s: Pm, cursor: nat, cmd: Command, r: Pm)
    requires Called(s, cursor, cmd, r)
    ensures |r.mem| == |s.mem|
  {
  }

  lemma SightReads(s: Pm, w: nat)
    requires Quiet(s, Chain(s.mem)) && w in Sight(s).words
    ensures w < |s.mem| && s.mem[w] == Sight(s).words[w]
  {
    QuietReads(s, Chain(s.mem));
  }

  lemma NothingWithin(s: Pm, slot: nat, t: Tree)
    requires Quiet(s, Chain(s.mem)) && Freeable(Sight(s), |s.mem|, slot, t) && Noted(s.mem, slot, t)
    ensures CutIn(Sight(s), s.mem, Sight(s), s.mem, slot, t, t)
    ensures DidWithin(s, [], s, Cuts(Sight(s), s.mem, slot, t))
  {
    hide PersistentMemory.Exec;
    hide Chain;
    hide ClumpOk;
    hide Clump;
    FreeableShaped(Sight(s), |s.mem|, slot, t);
    hide Freeable;
    hide Noted;
    hide Cuts;
    LiveInside(s);
    CutInSelf(Sight(s), s.mem, slot, t);
    QuietSafe(s, Chain(s.mem));
    ExecNothing(s);
    LiveActive(s);
    var live := Sight(s).live.Keys;
    QuietRests(s, Chain(s.mem), live);
    RestSafe(s, HeaderWords(live));
    forall img | Survives(s.may, img) ensures img in Cuts(Sight(s), s.mem, slot, t) {
      assert img in Showing({Sight(s)}) && img in Keeping(s.mem, HeaderWords(live));
      NothingLeft(s, slot, t, img);
    }
  }

  lemma ExecNothing(s: Pm)
    ensures Exec(s, []) == s
  {
  }

  /** An image left while nothing is being done. */
  lemma NothingLeft(s: Pm, slot: nat, t: Tree, img: Image)
    requires Quiet(s, Chain(s.mem)) && CutIn(Sight(s), s.mem, Sight(s), s.mem, slot, t, t)
    requires Roomy(Sight(s).live, t)
    requires Recoverable(img, Chain(img)) && ViewOf(img, Chain(img)) == Sight(s)
    requires img in Keeping(s.mem, HeaderWords(Sight(s).live.Keys))
    ensures img in Cuts(Sight(s), s.mem, slot, t)
  {
    hide PersistentMemory.Exec;
    hide Chain;
    hide ClumpOk;
    hide Clump;
    hide ViewOf;
    hide CutTo;
    hide After;
    LiveActive(s);
    HeadsLive(Sight(s).live, t);
    forall g | g in Sight(s).live ensures SameHeader(After(img), s.mem, g) {
      KeptHeader(img, s.mem, Sight(s).live.Keys, g);
      ActiveAfter(img, g);
    }
    NotedKept(s.mem, After(img), slot, t);
    assert CutIn(Sight(s), s.mem, ViewOf(img, Chain(img)), After(img), slot, t, t);
  }

  lemma WithinWiden(s: Pm, prog: seq<Instr>, r: Pm, good: iset<Image>, more: iset<Image>)
    requires DidWithin(s, prog, r, good) && good <= more
    ensures DidWithin(s, prog, r, more)
  {
    GuardedWiden(s, prog, good, more);
  }

  /** The tree at `slot` can be taken down, node by node. */
  ghost predicate Removable(s: Pm, slot: nat, t: Tree)
    requires Quiet(s, Chain(s.mem))
  {
    Freeable(Sight(s), |s.mem|, slot, t) && Listed(s.mem, Sight(s).live, slot, t)
  }

  /** The program has made p of the tree t at `slot`; a crash in it leaves the
      tree with some of its subtrees gone. */
  ghost predicate TookDown(s: Pm, prog: seq<Instr>, r: Pm, slot: nat, t: Tree, p: Tree)
    requires Quiet(s, Chain(s.mem)) && Quiet(r, Chain(r.mem))
  {
    && CutIn(Sight(s), s.mem, Sight(r), r.mem, slot, t, p)
    && DidWithin(s, prog, r, Cuts(Sight(s), s.mem, slot, t))
  }

  lemma RemovableSides(s: Pm, slot: nat, t: Tree)
    requires Quiet(s, Chain(s.mem)) && Removable(s, slot, t) && t.Node?
    ensures Removable(s, t.at, t.left) && Removable(s, t.at + 1, t.right)
  {
    hide Quiet;
    hide Chain;
    hide Sight;
    hide Freeable;
    hide Listed;
    FreeableSides(Sight(s), |s.mem|, slot, t);
    ListedSides(s.mem, Sight(s), |s.mem|, slot, t);
  }

  lemma RemovableRead(s: Pm, slot: nat, t: Tree)
    requires Quiet(s, Chain(s.mem)) && Removable(s, slot, t)
    ensures slot < |s.mem| && s.mem[slot] == if t.Leaf? then 0 else 8 * t.at
    ensures t.Node? ==> t.at > 8
  {
    SlotRead(s, slot, t);
  }

  lemma NoneTaken(s: Pm, slot: nat, t: Tree)
    requires Quiet(s, Chain(s.mem)) && Removable(s, slot, t)
    ensures TookDown(s, [], s, slot, t, t)
  {
    hide Quiet;
    hide Chain;
    hide Sight;
    hide Freeable;
    hide DidWithin;
    hide CutIn;
    ListedNoted(s.mem, Sight(s).live, slot, t);
    NothingWithin(s, slot, t);
  }

  /** The left subtree has become p. */
  lemma LeftTaken(s: Pm, prog: seq<Instr>, a: Pm, slot: nat, t: Tree, p: Tree)
    requires Quiet(s, Chain(s.mem)) && Quiet(a, Chain(a.mem)) && Removable(s, slot, t) && t.Node?
    requires TookDown(s, prog, a, t.at, t.left, p)
    ensures TookDown(s, prog, a, slot, t, t.(left := p)) && Removable(a, slot, t.(left := p))
    ensures (NoneFull(a.mem, t.right) <==> NoneFull(s.mem, t.right)) && |a.mem| == |s.mem|
    ensures t.at >= 8 && t.at <= |s.mem| && FreeSlot(a.mem, t.at - 8) == FreeSlot(s.mem, t.at - 8)
  {
    hide Quiet;
    hide Chain;
    hide Sight;
    hide Cuts;
    hide DidWithin;
    hide CutIn;
    hide Freeable;
    hide Listed;
    hide NoneFull;
    hide FreeSlot;
    var v, u := Sight(s), Sight(a);
    ListedNoted(s.mem, v.live, slot, t);
    hide Noted;
    CutInLeft(v, s.mem, u, a.mem, slot, t, p);
    CutListed(v, s.mem, u, a.mem, slot, t, t.(left := p));
    CutsLeft(v, s.mem, slot, t);
    CutSize(v, s.mem, u, a.mem, slot, t, t.(left := p));
    WithinWiden(s, prog, a, Cuts(v, s.mem, t.at, t.left), Cuts(v, s.mem, slot, t));
  }

  lemma RightTaken(s: Pm, prog: seq<Instr>, a: Pm, slot: nat, t: Tree, p: Tree)
    requires Quiet(s, Chain(s.mem)) && Quiet(a, Chain(a.mem)) && Removable(s, slot, t) && t.Node? && t.left.Leaf?
    requires TookDown(s, prog, a, t.at + 1, t.right, p)
    ensures TookDown(s, prog, a, slot, t, t.(right := p)) && Removable(a, slot, t.(right := p))
    ensures t.at >= 8 && t.at <= |s.mem| == |a.mem| && FreeSlot(a.mem, t.at - 8) == FreeSlot(s.mem, t.at - 8)
  {
    hide Quiet;
    hide Chain;
    hide Sight;
    hide Cuts;
    hide DidWithin;
    hide CutIn;
    hide Freeable;
    hide Listed;
    hide FreeSlot;
    var v, u := Sight(s), Sight(a);
    ListedNoted(s.mem, v.live, slot, t);
    CutSize(v, s.mem, u, a.mem, t.at + 1, t.right, p);
    hide Noted;
    CutInRight(v, s.mem, u, a.mem, slot, t, p);
    CutListed(v, s.mem, u, a.mem, slot, t, t.(right := p));
    CutsRight(v, s.mem, slot, t);
    WithinWiden(s, prog, a, Cuts(v, s.mem, t.at + 1, t.right), Cuts(v, s.mem, slot, t));
  }

  lemma ListedNoted(m: Image, live: map<nat, nat>, slot: nat, t: Tree)
    requires Listed(m, live, slot, t)
    ensures Noted(m, slot, t)
  {
  }

  lemma CutSize(v: View, m: Image, u: View, b: Image, slot: nat, t: Tree, p: Tree)
    requires CutIn(v, m, u, b, slot, t, p)
    ensures |b| == |m| && Noted(b, slot, p)
  {
  }

  /** Two cuts in a row. */
  lemma TakenTwice(s: Pm, one: seq<Instr>, a: Pm, two: seq<Instr>, r: Pm, slot: nat, t: Tree, p: Tree, q: Tree)
    requires Quiet(s, Chain(s.mem)) && Quiet(a, Chain(a.mem)) && Quiet(r, Chain(r.mem)) && Removable(s, slot, t)
    requires TookDown(s, one, a, slot, t, p) && TookDown(a, two, r, slot, p, q)
    ensures TookDown(s, one + two, r, slot, t, q)
  {
    hide Quiet;
    hide Chain;
    hide Sight;
    hide Cuts;
    hide DidWithin;
    hide CutIn;
    hide Listed;
    var v, u, w := Sight(s), Sight(a), Sight(r);
    FreeableShaped(v, |s.mem|, slot, t);
    hide Freeable;
    CutInTrans(v, s.mem, u, a.mem, w, r.mem, slot, t, p, q);
    CutsTrans(v, s.mem, u, a.mem, slot, t, p);
    WithinMore(s, one, a, two, r, Cuts(v, s.mem, slot, t), Cuts(u, a.mem, slot, p), Cuts(v, s.mem, slot, t));
  }

  lemma FreeableShaped(v: View, n: nat, slot: nat, t: Tree)
    requires Freeable(v, n, slot, t)
    ensures Shaped(v, n) && Roomy(v.live, t)
  {
  }

  // ---------------------------------------------------------------------------------------
  // Pools that hold a tree and nothing else
  // ---------------------------------------------------------------------------------------

  /** The pool of a running program holds the tree t: its nodes are the allocated clumps, and all
      their lists can do is clear the pointers to them. */
  ghost predicate Marked(s: Pm, t: Tree) {
    Quiet(s, Chain(s.mem)) && Tidy(s) && Holds(Sight(s), t) && Noted(s.mem, STATIC_WORD, t)
  }

  /** The same for a pool file, as recovery will make it. */
  ghost predicate MarkedFile(img: Image, t: Tree) {
    Recoverable(img, Chain(img)) && Holds(ViewOf(img, Chain(img)), t) && Noted(After(img), STATIC_WORD, t)
  }

  /** A pool that holds a tree and nothing else can be taken down. */
  lemma MarkedRemovable(s: Pm, t: Tree)
    requires Marked(s, t)
    ensures Removable(s, STATIC_WORD, t) && Shaped(Sight(s), |s.mem|)
  {
    QuietReads(s, Chain(s.mem));
  }

  /** What is left when taking down a whole tree. */
  lemma CutMarked(v: View, m: Image, u: View, b: Image, t: Tree, p: Tree)
    requires Holds(v, t) && Shaped(v, |m|) && CutIn(v, m, u, b, STATIC_WORD, t, p)
    ensures Holds(u, p) && Noted(b, STATIC_WORD, p) && Prunes(p, t)
    ensures forall w :: w in Entries(p) ==> w in Entries(t) && Entries(t)[w] == Entries(p)[w]
  {
    CutHolds(v, u, |m|, t, p);
  }

  // ---------------------------------------------------------------------------------------
  // Insertions
  // ---------------------------------------------------------------------------------------

  /** An insertion makes one new list, an empty one. */
  lemma {:induction false} GrownNoted(m: Image, b: Image, slot: nat, t: Tree, x: seq<nat>, at: nat)
    requires Noted(m, slot, t) && forall g :: g in Heads(t) ==> SameHeader(b, m, g)
    requires !Finds(t, x) ==> at >= 8 && at <= |b| && EmptyList(b, at - 8)
    ensures Noted(b, slot, Grown(t, x, at))
    ensures NoneFull(b, Grown(t, x, at)) <==> NoneFull(m, t)
    decreases t
  {
    hide FreeSlot;
    hide SameHeader;
    hide OnlyClears;
    hide Compare;
    hide EmptyList;
    hide NodeSet;
    if t.Node? {
      var g := Grown(t, x, at);
      NotedNode(m, slot, t);
      FullNode(m, t);
      NotedNode(b, slot, g);
      FullNode(b, g);
      assert t.at - 8 in Heads(t) && Heads(t.left) <= Heads(t) && Heads(t.right) <= Heads(t);
      ClearsKept(m, b, t.at - 8, slot);
      GrownParts(t, x, at);
      hide Noted;
      hide NoneFull;
      hide Heads;
      hide Grown;
      hide Finds;
      if g.left == t.left { NotedKept(m, b, t.at, t.left); } else { GrownNoted(m, b, t.at, t.left, x, at); }
      if g.right == t.right { NotedKept(m, b, t.at + 1, t.right); } else { GrownNoted(m, b, t.at + 1, t.right, x, at); }
    } else {
      ClearsEmpty(b, at - 8, slot);
      EmptySlot(b, at - 8);
    }
  }

  /** The word goes to one side, or to neither. */
  lemma GrownParts(t: Tree, x: seq<nat>, at: nat)
    requires t.Node?
    ensures var g := Grown(t, x, at);
            && g.Node? && g.at == t.at
            && (g.left == t.left || (g.left == Grown(t.left, x, at) && (Finds(t.left, x) ==> Finds(t, x))))
            && (g.right == t.right || (g.right == Grown(t.right, x, at) && (Finds(t.right, x) ==> Finds(t, x))))
  {
    hide Compare;
  }

  lemma EmptySlot(b: Image, h: nat)
    requires h + 8 <= |b| && EmptyList(b, h)
    ensures FreeSlot(b, h) == 0
  {
  }

  /** Old headers as they were, new lists empty: the grown tree's lists are as they should be. */
  lemma GrownMarks(m: Image, v: View, b: Image, u: View, t: Tree, x: seq<nat>, at: nat)
    requires Holds(v, t) && Noted(m, STATIC_WORD, t) && GrewLive(v.live, u.live, t, x, at)
    requires forall h :: h in u.live ==>
               if h in v.live then SameHeader(b, m, h) else h + 8 <= |b| && EmptyList(b, h)
    ensures Noted(b, STATIC_WORD, Grown(t, x, at)) && (NoneFull(b, Grown(t, x, at)) <==> NoneFull(m, t))
  {
    hide Planted;
    GrownNoted(m, b, STATIC_WORD, t, x, at);
  }

  lemma SameMarks(m: Image, v: View, b: Image, t: Tree)
    requires Holds(v, t) && Noted(m, STATIC_WORD, t) && forall h :: h in v.live ==> SameHeader(b, m, h)
    ensures Noted(b, STATIC_WORD, t) && (NoneFull(b, t) <==> NoneFull(m, t))
  {
    NotedKept(m, b, STATIC_WORD, t);
  }

  lemma DidMarks(s: Pm, prog: seq<Instr>, r: Pm, t: Tree, x: seq<nat>, at: nat, ok: bool)
    requires Did(s, prog, r) && Marked(s, t) && Tidy(r)
    requires ok ==> Holds(Sight(r), Grown(t, x, at)) && GrewLive(Sight(s).live, Sight(r).live, t, x, at)
    requires !ok ==> Sight(r) == Sight(s)
    ensures Marked(r, if ok then Grown(t, x, at) else t)
    ensures NoneFull(s.mem, t) ==> NoneFull(r.mem, if ok then Grown(t, x, at) else t)
  {
    hide PersistentMemory.Exec;
    hide Chain;
    hide ClumpOk;
    hide Clump;
    hide Sight;
    hide Holds;
    hide Noted;
    hide NoneFull;
    hide Guarded;
    if ok {
      GrownMarks(s.mem, Sight(s), r.mem, Sight(r), t, x, at);
    } else {
      SameMarks(s.mem, Sight(s), r.mem, t);
    }
  }
}
