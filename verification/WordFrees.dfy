/** Taking the tree down: what the stores and persists of the call do to a pool that shows a tree,
    and which of its clumps are clumps afterwards. */
module WordFrees {
  import opened PersistentMemory
  import opened PoolImage
  import opened RecoveryFacts
  import opened CrashSafety
  import opened Finishing
  import opened Activation
  import opened Coalescing
  import opened Registering
  import opened Calls
  import opened Runs
  import opened StaleCursor
  import opened Trails
  import opened Allocator
  import opened Leftovers
  import opened WordTrees
  import opened WordTreeSteps
  import opened Pruning
  import opened TakingDown
  import opened WordPrograms

  // ---------------------------------------------------------------------------------------
  // One node
  // ---------------------------------------------------------------------------------------

  /** Registering the store that clears the pointer. */
  lemma Unlinking(s: Pm, slot: nat, t: Tree) returns (a: Pm)
    requires Quiet(s, Chain(s.mem)) && Tidy(s) && Removable(s, slot, t) && BareNode(t)
    requires t.at <= |s.mem| && FreeSlot(s.mem, t.at - 8) < 3
    ensures var p := RegisterSteps(t.at - 8, FreeSlot(s.mem, t.at - 8), 8 * slot, 0);
            && a == Exec(s, p) && Quiet(a, Chain(a.mem)) && Sight(a) == Sight(s)
            && DidWithin(s, p, a, Cuts(Sight(s), s.mem, slot, t))
    ensures Chain(a.mem) == Chain(s.mem) && Leaving(a, t.at - 8, slot) && |a.mem| == |s.mem|
    ensures forall g :: g in Sight(s).live && g != t.at - 8 ==> SameHeader(a.mem, s.mem, g)
    ensures slot < |a.mem| && a.mem[slot] == 8 * t.at && TrailsKept(s.mem, a.mem)
  {
    hide PersistentMemory.Exec;
    hide Chain;
    hide Quiet;
    hide Registered;
    hide RegisterSteps;
    hide Atomically;
    hide FreeSlot;
    hide Tidy;
    hide Removable;
    hide Leaving;
    hide DidWithin;
    hide OnlyClears;
    hide NamesSeen;
    hide Cuts;
    hide Registers;
    var hs, h := Chain(s.mem), t.at - 8;
    NodeFacts(s, slot, t);
    NodeRegisters(s, h, slot);
    RegisterReady(s, hs, h, ACTIVE, 8 * slot);
    RegisterDone(s, hs, h, 8 * slot, 0);
    var p := RegisterSteps(h, FreeSlot(s.mem, h), 8 * slot, 0);
    a := Exec(s, p);
    assert Called(s, FIRST, Command.OnFree(h, 8 * slot, 0), a);
    NodeLeaves(s, slot, t, a, p);
    SightReads(a, slot);
    RegisteredTrails(s, h, slot, a.mem);
  }

  lemma RegisteredTrails(s: Pm, h: nat, slot: nat, b: Image)
    requires Quiet(s, Chain(s.mem)) && h in Sight(s).live && Chain(b) == Chain(s.mem)
    requires Registered(b, s.mem, h, 8 * slot, 0) && slot > 0 && OnlyClears(s.mem, h, slot)
    ensures TrailsKept(s.mem, b)
  {
    hide PersistentMemory.Exec;
    hide Chain;
    hide ClumpOk;
    hide Clump;
    hide Sight;
    hide Registered;
    hide OnlyClears;
    hide TrailsKept;
    LiveClump(s, h);
    RegisteredWord(b, s.mem, h, slot);
    HeaderTrails(s.mem, b, Index(Chain(s.mem), h));
  }

  /** The free itself. */
  lemma FreeRuns(a: Pm, h: nat) returns (r: Pm)
    requires Quiet(a, Chain(a.mem)) && CanFree(a.mem, Chain(a.mem), Index(Chain(a.mem), h))
    ensures r == Exec(a, FreeProgram(a.mem, h)) && Quiet(r, Chain(r.mem)) && h + 8 <= |a.mem|
    ensures FreeProgram(a.mem, h) == FreeSteps(a.mem, Chain(a.mem), h)
    ensures Called(a, FIRST, Command.Free(h), r)
    ensures Freed(a.mem, Chain(a.mem), Index(Chain(a.mem), h), r.mem, Chain(r.mem))
    ensures Bounds(Chain(r.mem), |r.mem|) && Coalesced(r.mem, Chain(r.mem), |Chain(r.mem)|)
    ensures TrailsKept(a.mem, r.mem)
    ensures forall c :: IsClump(r.mem, c) <==> IsClump(a.mem, c) && !MergedAway(Freeing(a.mem, h), c)
  {
    hide PersistentMemory.Exec;
    hide Chain;
    hide ClumpOk;
    hide Clump;
    hide Called;
    hide FreeCore;
    hide FreedImage;
    hide CoalesceFrom;
    hide CoalescedFrom;
    hide ViewOf;
    hide ViewAfter;
    hide TrailsKept;
    var m, hs := a.mem, Chain(a.mem);
    var k := Index(hs, h);
    FreeReady(a, hs, h, k);
    var b := Exec(a, FreeCore(m, h));
    r := Exec(b, CoalesceFrom(FreedImage(m, h), hs, 0));
    ExecConcat(a, FreeCore(m, h), CoalesceFrom(FreedImage(m, h), hs, 0));
    FreeDone(a, hs, h, k, b, r);
    FreeTrails(a, k, r.mem);
    forall c ensures IsClump(r.mem, c) <==> IsClump(m, c) && !MergedAway(Freeing(m, h), c) {
      ClumpsLeft(a, hs, k, c, r.mem, Chain(r.mem));
    }
  }

  /** The free merges the clump c into a free neighbour below it. */
  ghost predicate MergedAway(f: Freeing, c: nat) {
    var hs := Chain(f.mem);
    Bounds(hs, |f.mem|) && MergesDown(f.mem, hs, Index(hs, f.h), Index(hs, c))
  }

  /** A free makes no new headers, and leaves those it does not merge downwards. */
  lemma ClumpsLeft(s: Pm, hs: seq<nat>, k: nat, c: nat, b: Image, gs: seq<nat>)
    requires Quiet(s, hs) && CanFree(s.mem, hs, k) && Freed(s.mem, hs, k, b, gs)
    ensures Index(gs, c) < |gs| - 1 <==> Index(hs, c) < |hs| - 1 && !MergesDown(s.mem, hs, k, Index(hs, c))
  {
    FreedCursor(s, hs, k, c, b, gs);
    if c !in hs { PassDrops(FreedImage(s.mem, hs[k]), hs, 0, c); }
    LastIndex(hs, |s.mem|, c);
    LastIndex(gs, |b|, c);
  }

  /** A header is that of a clump unless it is the terminator. */
  lemma LastIndex(hs: seq<nat>, words: nat, c: nat)
    requires Bounds(hs, words)
    ensures Index(hs, c) < |hs| - 1 <==> c in hs && c != LastHeader(words)
  {
    if c in hs && c == LastHeader(words) { IndexUnique(hs, words, |hs| - 1); }
  }

  /** What carrying out d has done: r is what it made of s, and the clumps of r are those of s that
      none of its frees merged away. */
  ghost predicate Carried(s: Pm, d: Doing, r: Pm) {
    && r == Exec(s, d.prog) && r.mem == Memory(s.mem, d.prog)
    && Quiet(r, Chain(r.mem)) && Tidy(r)
    && TrailsKept(s.mem, r.mem)
    && forall c :: IsClump(r.mem, c) <==> IsClump(s.mem, c) && Survived(d.frees, c)
  }

  ghost predicate Survived(frees: seq<Freeing>, c: nat) {
    forall i :: 0 <= i < |frees| ==> !MergedAway(frees[i], c)
  }

  /** Carrying out d makes p of the tree t at `slot`. */
  ghost predicate FreedTo(s: Pm, d: Doing, r: Pm, slot: nat, t: Tree, p: Tree) {
    Quiet(s, Chain(s.mem)) && Carried(s, d, r) && TookDown(s, d.prog, r, slot, t, p)
  }

  lemma NodeFreed(s: Pm, slot: nat, t: Tree) returns (r: Pm)
    requires Quiet(s, Chain(s.mem)) && Tidy(s) && Removable(s, slot, t)
    requires t.Node? && t.left.Leaf? && t.right.Leaf?
    ensures var d := NodeFree(s.mem, slot);
            && FreedTo(s, d, r, slot, t, if d.ok then Leaf else t) && r == Exec(s, d.prog)
            && t.at >= 8 && t.at <= |s.mem| && (d.ok <==> FreeSlot(s.mem, t.at - 8) < 3)
            && (d.ok ==> Bounds(Chain(r.mem), |r.mem|) && Coalesced(r.mem, Chain(r.mem), |Chain(r.mem)|))
  {
    hide PersistentMemory.Exec;
    hide Chain;
    hide Quiet;
    hide Freed;
    hide FreeSteps;
    hide RegisterSteps;
    hide FreeSlot;
    hide Tidy;
    hide Removable;
    hide Leaving;
    hide DidWithin;
    hide TookDown;
    hide IsClump;
    hide Called;
    hide Coalesced;
    hide FreeProgram;
    hide MergedAway;
    hide Survived;
    hide Memory;
    NodeFacts(s, slot, t);
    SightReads(s, slot);
    NodeInside(s, t.at - 8);
    if FreeSlot(s.mem, t.at - 8) == 3 {
      NoneTaken(s, slot, t);
      NothingCarried(s, false);
      return s;
    }
    r := BareFreed(s, slot, t);
  }

  /** The program of the two calls. */
  lemma UnlinkRuns(s: Pm, slot: nat, t: Tree, a: Pm)
    requires Quiet(s, Chain(s.mem)) && BareNode(t) && t.at <= |s.mem| && FreeSlot(s.mem, t.at - 8) < 3
    requires slot < |s.mem| == |a.mem| && s.mem[slot] == 8 * t.at && a.mem[slot] == 8 * t.at
    requires a == Exec(s, RegisterSteps(t.at - 8, FreeSlot(s.mem, t.at - 8), 8 * slot, 0))
    ensures var p, q := RegisterSteps(t.at - 8, FreeSlot(s.mem, t.at - 8), 8 * slot, 0), FreeProgram(a.mem, t.at - 8);
            && NodeFree(s.mem, slot) == Doing(p + q, true, [Freeing(a.mem, t.at - 8)])
            && Exec(s, p + q) == Exec(a, q)
  {
    hide PersistentMemory.Exec;
    hide Chain;
    hide Quiet;
    hide RegisterSteps;
    hide FreeProgram;
    hide Memory;
    var p, q := RegisterSteps(t.at - 8, FreeSlot(s.mem, t.at - 8), 8 * slot, 0), FreeProgram(a.mem, t.at - 8);
    QuietMemory(s, p);
    ExecConcat(s, p, q);
  }

  lemma BareFreed(s: Pm, slot: nat, t: Tree) returns (r: Pm)
    requires Quiet(s, Chain(s.mem)) && Tidy(s) && Removable(s, slot, t) && BareNode(t)
    requires t.at <= |s.mem| && FreeSlot(s.mem, t.at - 8) < 3
    requires slot < |s.mem| && s.mem[slot] == 8 * t.at
    ensures FreedTo(s, NodeFree(s.mem, slot), r, slot, t, Leaf) && NodeFree(s.mem, slot).ok
    ensures Bounds(Chain(r.mem), |r.mem|) && Coalesced(r.mem, Chain(r.mem), |Chain(r.mem)|)
  {
    hide PersistentMemory.Exec;
    hide Chain;
    hide Quiet;
    hide Freed;
    hide FreeSteps;
    hide RegisterSteps;
    hide FreeSlot;
    hide Tidy;
    hide Removable;
    hide Leaving;
    hide DidWithin;
    hide TookDown;
    hide IsClump;
    hide Called;
    hide Coalesced;
    hide Bounds;
    hide FreeProgram;
    hide MergedAway;
    hide Survived;
    hide Memory;
    hide OnTrail;
    var h := t.at - 8;
    var p := RegisterSteps(h, FreeSlot(s.mem, h), 8 * slot, 0);
    var a := Unlinking(s, slot, t);
    LeavingReady(a, h, slot);
    r := FreeRuns(a, h);
    var q := FreeProgram(a.mem, h);
    UnlinkRuns(s, slot, t, a);
    QuietMemory(s, p + q);
    FreedTidy(a, h, slot, r);
    NodeLeft(s, slot, t, a, r, p, q);
    SameClumps(s.mem, a.mem);
    OneFree(Freeing(a.mem, h));
  }

  lemma OneFree(f: Freeing)
    ensures forall c :: Survived([f], c) <==> !MergedAway(f, c)
  {
    hide MergedAway;
    forall c ensures Survived([f], c) <==> !MergedAway(f, c) { assert [f][0] == f; }
  }

  lemma NodeInside(s: Pm, h: nat)
    requires Quiet(s, Chain(s.mem)) && h in Sight(s).live
    ensures h + 8 <= |s.mem|
  {
    LiveInside(s);
  }

  lemma NothingCarried(s: Pm, ok: bool)
    requires Quiet(s, Chain(s.mem)) && Tidy(s)
    ensures Carried(s, Doing([], ok, []), s)
  {
  }

  // ---------------------------------------------------------------------------------------
  // The whole tree
  // ---------------------------------------------------------------------------------------

  lemma BothCarried(s: Pm, one: Doing, a: Pm, two: Doing, r: Pm)
    requires Quiet(s, Chain(s.mem)) && Carried(s, one, a) && one.ok && Carried(a, two, r)
    ensures Carried(s, Both(one, two), r)
  {
    hide Quiet;
    hide Chain;
    hide Tidy;
    hide PersistentMemory.Exec;
    hide IsClump;
    hide MergedAway;
    hide OnTrail;
    ExecConcat(s, one.prog, two.prog);
    QuietMemory(s, one.prog + two.prog);
    forall c ensures Survived(one.frees + two.frees, c) <==> Survived(one.frees, c) && Survived(two.frees, c) {
      SurvivedBoth(one.frees, two.frees, c);
    }
  }

  lemma SurvivedBoth(f: seq<Freeing>, g: seq<Freeing>, c: nat)
    ensures Survived(f + g, c) <==> Survived(f, c) && Survived(g, c)
  {
    hide MergedAway;
    if Survived(f + g, c) {
      forall i | 0 <= i < |f| ensures !MergedAway(f[i], c) { assert f[i] == (f + g)[i]; }
      forall i | 0 <= i < |g| ensures !MergedAway(g[i], c) { assert g[i] == (f + g)[|f| + i]; }
    }
  }

  lemma FreedTwice(s: Pm, one: Doing, a: Pm, two: Doing, r: Pm, slot: nat, t: Tree, p: Tree, q: Tree)
    requires FreedTo(s, one, a, slot, t, p) && one.ok && FreedTo(a, two, r, slot, p, q) && Removable(s, slot, t)
    ensures FreedTo(s, Both(one, two), r, slot, t, q)
  {
    hide Quiet;
    hide Chain;
    hide TookDown;
    hide Removable;
    hide PersistentMemory.Exec;
    hide Memory;
    TakenTwice(s, one.prog, a, two.prog, r, slot, t, p, q);
    BothCarried(s, one, a, two, r);
  }

  lemma NothingFreed(s: Pm, slot: nat, t: Tree, ok: bool)
    requires Quiet(s, Chain(s.mem)) && Tidy(s) && Removable(s, slot, t)
    ensures FreedTo(s, Doing([], ok, []), s, slot, t, t)
  {
    hide Quiet;
    hide Chain;
    hide TookDown;
    hide Tidy;
    hide Removable;
    NoneTaken(s, slot, t);
    NothingCarried(s, ok);
  }

  /** The left subtree has become p. */
  lemma LeftFreed(s: Pm, d: Doing, a: Pm, slot: nat, t: Tree, p: Tree)
    requires t.Node? && FreedTo(s, d, a, t.at, t.left, p) && Removable(s, slot, t)
    ensures FreedTo(s, d, a, slot, t, t.(left := p))
    ensures Quiet(a, Chain(a.mem)) && Tidy(a) && Removable(a, slot, t.(left := p)) && a.mem == Memory(s.mem, d.prog)
    ensures slot < |a.mem| && a.mem[slot] == 8 * t.at && t.at > 8
    ensures (NoneFull(a.mem, t.right) <==> NoneFull(s.mem, t.right)) && |a.mem| == |s.mem| && t.at <= |s.mem|
    ensures FreeSlot(a.mem, t.at - 8) == FreeSlot(s.mem, t.at - 8)
  {
    hide Quiet;
    hide Chain;
    hide TookDown;
    hide Removable;
    hide FreeSlot;
    hide NoneFull;
    hide Tidy;
    hide Memory;
    hide PersistentMemory.Exec;
    LeftTaken(s, d.prog, a, slot, t, p);
    RemovableRead(a, slot, t.(left := p));
  }

  lemma RightFreed(s: Pm, d: Doing, a: Pm, slot: nat, t: Tree, p: Tree)
    requires t.Node? && t.left.Leaf? && FreedTo(s, d, a, t.at + 1, t.right, p) && Removable(s, slot, t)
    ensures FreedTo(s, d, a, slot, t, t.(right := p))
    ensures Quiet(a, Chain(a.mem)) && Tidy(a) && Removable(a, slot, t.(right := p)) && a.mem == Memory(s.mem, d.prog)
    ensures |a.mem| == |s.mem| && 8 <= t.at <= |s.mem| && FreeSlot(a.mem, t.at - 8) == FreeSlot(s.mem, t.at - 8)
  {
    hide Quiet;
    hide Chain;
    hide TookDown;
    hide Removable;
    hide FreeSlot;
    hide Tidy;
    hide Memory;
    hide PersistentMemory.Exec;
    RightTaken(s, d.prog, a, slot, t, p);
  }

  /** The free in terms of the calls of the allocator. */
  lemma FreeProgramIs(a: Pm, h: nat, r: Pm)
    requires Called(a, FIRST, Command.Free(h), r)
    ensures h + 8 <= |a.mem| && FreeProgram(a.mem, h) == FreeSteps(a.mem, Chain(a.mem), h)
    ensures r == Exec(a, FreeProgram(a.mem, h))
  {
    hide PersistentMemory.Exec;
    hide Chain;
    hide ClumpOk;
    hide Clump;
    hide ViewOf;
    hide Guarded;
    hide CanCommit;
    hide Unnamed;
    hide FreeSteps;
  }

  lemma FullFree(m: Image, slot: nat, at: nat)
    requires slot < |m| && m[slot] == 8 * at && 8 <= at <= |m| && FreeSlot(m, at - 8) == 3
    ensures NodeFree(m, slot) == Doing([], false, [])
  {
  }

  lemma TreeFreeIs(m: Image, slot: nat, depth: nat, at: nat, a: Image, b: Image)
    requires depth > 0 && slot < |m| && m[slot] == 8 * at && at > 0
    requires a == Memory(m, TreeFree(m, at, depth - 1).prog) && a[slot] == 8 * at
    requires b == Memory(a, TreeFree(a, at + 1, depth - 1).prog)
    ensures var left, right, node := TreeFree(m, at, depth - 1), TreeFree(a, at + 1, depth - 1), NodeFree(b, slot);
            && TreeFree(m, slot, depth) == Both(Both(left, right), node)
            && (!left.ok ==> TreeFree(m, slot, depth) == left)
            && (left.ok && !right.ok ==> TreeFree(m, slot, depth) == Both(left, right))
            && (left.ok ==> Both(left, right).prog == left.prog + right.prog && Both(left, right).ok == right.ok)
            && (left.ok && right.ok ==> TreeFree(m, slot, depth).prog == left.prog + right.prog + node.prog
                                        && TreeFree(m, slot, depth).ok == node.ok)
  {
    hide Memory;
    hide NodeFree;
  }

  lemma EmptyFull(m: Image)
    ensures NoneFull(m, Leaf)
  {
  }

  lemma EmptyFree(m: Image, slot: nat, depth: nat)
    requires depth > 0 && slot < |m| && m[slot] == 0
    ensures TreeFree(m, slot, depth) == Doing([], true, [])
  {
  }

  /** Left, right, node; it ends at a node whose list is full, and p is what is left. */
  lemma {:induction false} TreeFreed(s: Pm, slot: nat, t: Tree, depth: nat) returns (r: Pm, p: Tree)
    requires Quiet(s, Chain(s.mem)) && Tidy(s) && Removable(s, slot, t) && depth > Nodes(t)
    ensures var d := TreeFree(s.mem, slot, depth);
            && FreedTo(s, d, r, slot, t, p)
            && (d.ok <==> NoneFull(s.mem, t)) && (d.ok ==> p == Leaf)
            && (d.ok && t.Node? ==> Bounds(Chain(r.mem), |r.mem|) && Coalesced(r.mem, Chain(r.mem), |Chain(r.mem)|))
    decreases t
  {
    hide PersistentMemory.Exec;
    hide Chain;
    hide Quiet;
    hide Sight;
    hide Tidy;
    hide FreedTo;
    hide Removable;
    hide FreeSlot;
    hide Memory;
    hide NodeFree;
    hide Coalesced;
    hide Bounds;
    hide TookDown;
    hide Carried;
    hide NoneFull;
    RemovableRead(s, slot, t);
    if t.Leaf? {
      EmptyFull(s.mem);
      NothingFreed(s, slot, t, true);
      return s, Leaf;
    }
    FullNode(s.mem, t);
    RemovableSides(s, slot, t);
    var left := TreeFree(s.mem, t.at, depth - 1);
    r, p := TreeFreed(s, t.at, t.left, depth - 1);
    var a, t' := r, t.(left := p);
    LeftFreed(s, left, a, slot, t, p);
    if !left.ok { return a, t'; }
    RemovableSides(a, slot, t');
    var right := TreeFree(a.mem, t.at + 1, depth - 1);
    r, p := TreeFreed(a, t.at + 1, t'.right, depth - 1);
    var b, t'' := r, t'.(right := p);
    RightFreed(a, right, b, slot, t', p);
    FreedTwice(s, left, a, right, b, slot, t, t', t'');
    if !right.ok { return b, t''; }
    r := NodeFreed(b, slot, t'');
    var node := NodeFree(b.mem, slot);
    p := if node.ok then Leaf else t'';
    FreedTwice(s, Both(left, right), b, node, r, slot, t, t'', p);
  }

  /** The whole call, on a pool that holds the tree t and nothing else. */
  lemma AllFreed(s: Pm, t: Tree) returns (r: Pm, p: Tree)
    requires Marked(s, t)
    ensures var d := FreeAll(s.mem);
            && Carried(s, d, r) && DidWithin(s, d.prog, r, Cuts(Sight(s), s.mem, STATIC_WORD, t))
            && (d.ok <==> NoneFull(s.mem, t)) && (d.ok ==> p == Leaf)
            && (d.ok && t.Node? ==> |r.mem| > FIRST + 8 && Chain(r.mem) == [FIRST, LastHeader(|r.mem|)]
                                    && State(r.mem[FIRST]) == FREE
                                    && forall c :: IsClump(r.mem, c) <==> c == FIRST)
    ensures Marked(r, p) && Prunes(p, t)
    ensures forall w :: w in Entries(p) ==> w in Entries(t) && Entries(t)[w] == Entries(p)[w]
  {
    hide PersistentMemory.Exec;
    hide Chain;
    hide Quiet;
    hide Sight;
    hide Tidy;
    hide CutIn;
    hide DidWithin;
    hide Cuts;
    hide Removable;
    hide NoneFull;
    hide Memory;
    hide IsClump;
    hide Survived;
    hide Coalesced;
    hide Holds;
    hide Noted;
    TreeSmall(s, t);
    MarkedRemovable(s, t);
    r, p := TreeFreed(s, STATIC_WORD, t, |s.mem| + 1);
    CutMarked(Sight(s), s.mem, Sight(r), r.mem, t, p);
    if FreeAll(s.mem).ok && t.Node? { EmptyChain(r); }
  }

  lemma ActiveLives(m: Image, hs: seq<nat>, i: nat)
    requires Bounds(hs, |m|) && i < |hs| - 1
    ensures State(m[hs[i]]) == ACTIVE ==> hs[i] in Living(m, hs)
  {
  }

  /** Nothing is in use and no two neighbours are free: one clump is left, the first. */
  lemma EmptyChain(r: Pm)
    requires Marked(r, Leaf) && Bounds(Chain(r.mem), |r.mem|) && Coalesced(r.mem, Chain(r.mem), |Chain(r.mem)|)
    ensures |r.mem| > FIRST + 8 && Chain(r.mem) == [FIRST, LastHeader(|r.mem|)] && State(r.mem[FIRST]) == FREE
    ensures forall c :: IsClump(r.mem, c) <==> c == FIRST
  {
    hide PersistentMemory.Exec;
    hide Chain;
    hide ClumpOk;
    var m, hs := r.mem, Chain(r.mem);
    QuietReads(r, hs);
    assert Heads(Leaf) == {};
    forall i | 0 <= i < |hs| - 1 ensures State(m[hs[i]]) == FREE {
      assert Clump(m, hs, i) && !Transit(m[hs[i]]);
      ActiveLives(m, hs, i);
    }
    forall c ensures IsClump(m, c) <==> c == FIRST { LastIndex(hs, |m|, c); }
  }
}
