/** The word-count tree in a pool: what each call of the allocator does to the node under way. */
module WordTreeSteps {
  import opened PersistentMemory
  import opened PoolImage
  import opened RecoveryFacts
  import opened CrashSafety
  import opened Activation
  import opened Rechaining
  import opened Reserving
  import opened Registering
  import opened Runs
  import opened Allocator
  import opened Leftovers
  import opened ByteWords
  import opened WordTrees

  /** The memory as a map. */
  ghost function Whole(m: Image): map<nat, nat> { map w: nat | w < |m| :: m[w] }

  /** A program reads what a restarted one would see, wherever that sees anything. */
  lemma QuietReads(s: Pm, hs: seq<nat>)
    requires Quiet(s, hs) && Chain(s.mem) == hs
    ensures Sight(s).live == Living(s.mem, hs)
    ensures forall w: nat :: w in Sight(s).words <==> w < |s.mem| && Visible(Sight(s).live, w)
    ensures forall w: nat :: w in Sight(s).words ==> Sight(s).words[w] == s.mem[w]
  {
    ViewWords(s.mem, hs, 0);
  }

  lemma MemoryReads(s: Pm, ws: set<nat>)
    requires Quiet(s, Chain(s.mem)) && ws <= Sight(s).words.Keys
    ensures Same(Sight(s).words, Whole(s.mem), ws)
  {
    QuietReads(s, Chain(s.mem));
  }

  lemma WholePlanted(s: Pm, slot: nat, t: Tree)
    requires Quiet(s, Chain(s.mem)) && Planted(Sight(s).words, slot, t)
    ensures Planted(Whole(s.mem), slot, t)
  {
    PlantedVisible(Sight(s).words, slot, t);
    MemoryReads(s, Footprint(t) + {slot});
    PlantedFrame(Sight(s).words, Whole(s.mem), slot, t);
  }

  lemma TreeSmall(s: Pm, t: Tree)
    requires Quiet(s, Chain(s.mem)) && Holds(Sight(s), t)
    ensures Nodes(t) <= |s.mem| && Planted(Sight(s).words, STATIC_WORD, t) && Apart(t) && STATIC_WORD !in Footprint(t)
    ensures Ordered(t)
  {
    hide Chain;
    PlantedVisible(Sight(s).words, STATIC_WORD, t);
    QuietReads(s, Chain(s.mem));
    NodesFit(t, |s.mem|);
  }

  // ---------------------------------------------------------------------------------------
  // Programs in a row
  // ---------------------------------------------------------------------------------------

  /** The program turned s into r, atomically, and with the lists of the live clumps as they were. */
  ghost predicate Did(s: Pm, prog: seq<Instr>, r: Pm) {
    Atomically(s, prog, r) && Guarded(s, prog, Heirs(s)) && Keeps(s, r)
  }

  /** Invisible work, then one visible step. */
  lemma ThenAtomic(s: Pm, p: seq<Instr>, a: Pm, q: seq<Instr>, r: Pm)
    requires Atomically(s, p, a) && Atomically(a, q, r) && Sight(a) == Sight(s)
    ensures Atomically(s, p + q, r)
  {
    hide Chain;
    hide Recoverable;
    assert {Sight(s), Sight(a)} == {Sight(s)};
    GuardedWiden(s, p, Showing({Sight(s), Sight(a)}), Showing({Sight(s), Sight(r)}));
    InSequence(s, p, a, q, r, Showing({Sight(s), Sight(r)}));
  }

  lemma ThenInherits(s: Pm, p: seq<Instr>, a: Pm, q: seq<Instr>, r: Pm)
    requires Atomically(s, p, a) && Atomically(a, q, r) && Sight(a) == Sight(s)
    requires Guarded(s, p, Heirs(s)) && Keeps(s, a) && Guarded(a, q, Heirs(a)) && Keeps(a, r)
    ensures Guarded(s, p + q, Heirs(s)) && Keeps(s, r)
  {
    hide Chain;
    hide Recoverable;
    hide Sane;
    hide Pinned;
    hide Guarded;
    hide ReservedReaches;
    hide NoTransit;
    hide PersistentMemory.Exec;
    hide ViewOf;
    hide Keeps;
    hide Heirs;
    KeepsTrans(s, a, r);
    GuardedWiden(a, q, Heirs(a), Heirs(s));
    InSequence(s, p, a, q, r, Heirs(s));
  }

  lemma DidMore(s: Pm, p: seq<Instr>, a: Pm, q: seq<Instr>, r: Pm)
    requires Did(s, p, a) && Did(a, q, r) && Sight(a) == Sight(s)
    ensures Did(s, p + q, r)
  {
    hide Chain;
    hide Quiet;
    hide Guarded;
    hide Keeps;
    hide Heirs;
    ThenAtomic(s, p, a, q, r);
    ThenInherits(s, p, a, q, r);
  }

  /** A call that shows nothing new, and registers nothing for a clump in use. */
  lemma DidCall(s: Pm, cursor: nat, cmd: Command, r: Pm)
    requires Called(s, cursor, cmd, r)
    requires !cmd.OnFree? && !cmd.Free? && Sight(r).live == Sight(s).live
    ensures Did(s, CallSteps(s.mem, Chain(s.mem), cursor, cmd), r)
  {
    hide Keeps;
    hide Heirs;
    HiddenCall(s, cursor, cmd, r);
  }

  lemma DidActivate(s: Pm, h: nat, r: Pm)
    requires Called(s, FIRST, Command.Activate(h), r)
    requires ViewAfter(Sight(r), s.mem, Chain(s.mem), Index(Chain(s.mem), h))
    ensures Did(s, ActivateSteps(s.mem, h), r)
  {
    hide Keeps;
    hide Heirs;
    ActivateCall(s, h, r);
  }

  // ---------------------------------------------------------------------------------------
  // The node under way
  // ---------------------------------------------------------------------------------------

  /** The clump of the node `at` is reserved, holds the text x, and its list is empty. */
  ghost predicate Held(s: Pm, at: nat, x: seq<nat>) {
    var hs := Chain(s.mem);
    && Quiet(s, hs) && at > 8 && ClumpAt(s.mem, hs, at - 8, RESERVED)
    && at + NodeWords(x) <= hs[Index(hs, at - 8) + 1]
    && at <= |s.mem| && s.mem[at - 6] == s.mem[at - 4] == s.mem[at - 2] == 0
  }

  function NodeSize(x: seq<nat>): nat { 24 + |x| + 1 }

  lemma ReservedHeld(s: Pm, cursor: nat, x: seq<nat>, ptr: nat, r: Pm)
    requires Called(s, cursor, Command.Reserve(NodeSize(x)), r)
    requires ReserveResult(s.mem, Chain(s.mem), cursor, NodeSize(x), ptr, r.mem, Chain(r.mem)) && ptr != 0
    ensures ptr % 8 == 0 && Held(r, ptr / 8, x)
  {
    hide CallSteps;
    hide PersistentMemory.Exec;
    hide Chain;
    hide Atomically;
    hide Quiet;
    hide Carved;
    hide ReservedChain;
    CalledQuiet(s, cursor, Command.Reserve(NodeSize(x)), r);
    var hs := Chain(s.mem);
    ClumpBytesEnough(NodeSize(x));
    var k := FirstFit(s.mem, hs, Index(hs, cursor), ClumpBytes(NodeSize(x)));
    CarvedHeld(s, hs, k, x, r, Chain(r.mem));
  }

  lemma CarvedHeld(s: Pm, hs: seq<nat>, k: nat, x: seq<nat>, r: Pm, gs: seq<nat>)
    requires Quiet(s, hs) && Quiet(r, gs) && gs == Chain(r.mem) && NodeSize(x) + 127 < TWO_64
    requires Fitting(s.mem, hs, k, ClumpBytes(NodeSize(x)))
    requires Carved(r.mem, s.mem, hs, k, ClumpBytes(NodeSize(x)))
    requires gs == ReservedChain(s.mem, hs, k, ClumpBytes(NodeSize(x)))
    ensures Held(r, hs[k] + 8, x)
  {
    hide PersistentMemory.Exec;
    hide Chain;
    hide Carved;
    hide ReservedChain;
    hide Fits;
    hide ClumpBytes;
    hide Carries;
    ReservedRoom(s.mem, hs, k, NodeSize(x), r.mem);
    CarvedList(r.mem, s.mem, hs, k, ClumpBytes(NodeSize(x)));
    IndexUnique(gs, |r.mem|, k);
    assert gs[k] + 8 <= gs[k + 1];
  }

  lemma CalledQuiet(s: Pm, cursor: nat, cmd: Command, r: Pm)
    requires Called(s, cursor, cmd, r)
    ensures Quiet(s, Chain(s.mem)) && Quiet(r, Chain(r.mem)) && |r.mem| == |s.mem|
    ensures Tiled(s.mem, Chain(s.mem)) && NoTransit(s.mem, Chain(s.mem)) && Bounds(Chain(r.mem), |r.mem|)
  {
  }

  lemma CarvedList(b: Image, m: Image, hs: seq<nat>, k: nat, bytes: nat)
    requires Bounds(hs, |m|) && k < |hs| - 1 && Carved(b, m, hs, k, bytes)
    ensures hs[k] + 8 <= |b| && b[hs[k] + 2] == b[hs[k] + 4] == b[hs[k] + 6] == 0
  {
  }

  lemma HeldWhere(s: Pm, at: nat, x: seq<nat>)
    requires Held(s, at, x)
    ensures var hs := Chain(s.mem); var k := Index(hs, at - 8);
            && Bounds(hs, |s.mem|) && k < |hs| - 1 && hs[k] == at - 8 && State(s.mem[at - 8]) == RESERVED
            && hs[k + 1] == at - 8 + Span(s.mem[at - 8])
            && at + NodeWords(x) <= hs[k + 1] && hs[k + 1] + 8 <= |s.mem| && at % 8 == 0
  {
    hide PersistentMemory.Exec;
    var hs := Chain(s.mem);
    assert Clump(s.mem, hs, Index(hs, at - 8));
  }

  lemma HeldRoom(s: Pm, at: nat, x: seq<nat>)
    requires Held(s, at, x)
    ensures at + NodeWords(x) <= |s.mem|
  {
    HeldWhere(s, at, x);
  }

  /** Words of the node are nobody's business yet. */
  lemma HeldHidden(s: Pm, at: nat, x: seq<nat>, w: nat)
    requires Held(s, at, x) && w in NodeSet(at, x)
    ensures w < |s.mem| && Legal(s.mem, Chain(s.mem), FIRST, Command.Fill(w, 0)) && w !in Sight(s).words
    ensures at - 8 !in Sight(s).live
    ensures forall i :: 0 <= i < |Chain(s.mem)| ==> !(Chain(s.mem)[i] <= w < Chain(s.mem)[i] + 8)
  {
    var hs := Chain(s.mem);
    var k := Index(hs, at - 8);
    HeldWhere(s, at, x);
    assert Inside(hs, k, w);
    InsideReserved(s.mem, hs, k, w);
    QuietReads(s, hs);
    assert !Header(hs, w);
  }

  /** A store into the node. */
  lemma HeldFilled(s: Pm, at: nat, x: seq<nat>, w: nat, r: Pm)
    requires Held(s, at, x) && w in NodeSet(at, x) && w < |s.mem|
    requires Quiet(r, Chain(r.mem)) && Chain(r.mem) == Chain(s.mem) && r.mem == s.mem[w := r.mem[w]]
    ensures Held(r, at, x)
  {
    hide Chain;
    hide Quiet;
    var hs := Chain(s.mem);
    HeldWhere(s, at, x);
    HeldHidden(s, at, x, w);
    var h := hs[Index(hs, at - 8)];
    assert !(h <= w < h + 8);
  }

  lemma HeldCursor(s: Pm, at: nat, x: seq<nat>)
    requires Held(s, at, x)
    ensures at > 8 && Index(Chain(s.mem), at - 8) < |Chain(s.mem)| - 1
  {
  }

  // ---------------------------------------------------------------------------------------
  // The search
  // ---------------------------------------------------------------------------------------

  lemma SlotRead(s: Pm, slot: nat, t: Tree)
    requires Quiet(s, Chain(s.mem)) && Planted(Sight(s).words, slot, t)
    ensures slot < |s.mem| && Planted(Whole(s.mem), slot, t)
    ensures s.mem[slot] == if t.Leaf? then 0 else 8 * t.at
    ensures t.Node? ==> t.at > 8
  {
    WholePlanted(s, slot, t);
  }

  lemma ApartParts(t: Tree)
    requires Apart(t) && t.Node?
    ensures Apart(t.left) && Apart(t.right) && t.at !in Footprint(t.left) && t.at + 1 !in Footprint(t.right)
  {
    NodeParts(t.at, t.text);
  }

  lemma BumpReady(s: Pm, slot: nat, t: Tree)
    requires Quiet(s, Chain(s.mem)) && Planted(Sight(s).words, slot, t) && t.Node?
    ensures t.at + 2 < |s.mem| && t.at + 2 in Sight(s).words && Sight(s).words[t.at + 2] == s.mem[t.at + 2]
    ensures Low(s.mem[t.at + 2]) == t.count
    ensures Visible(Living(s.mem, Chain(s.mem)), t.at + 2)
  {
    NodeParts(t.at, t.text);
    assert InNode(t.at, t.text, t.at + 2);
    QuietReads(s, Chain(s.mem));
  }

  // ---------------------------------------------------------------------------------------
  // Writing the node
  // ---------------------------------------------------------------------------------------

  /** Null pointers, a count of one, and the first n characters of the text. */
  ghost predicate Written(m: Image, at: nat, x: seq<nat>, n: nat) {
    && at + NodeWords(x) <= |m| && n <= |x| + 1
    && m[at] == 0 && m[at + 1] == 0 && Low(m[at + 2]) == 1
    && forall i :: 0 <= i < n ==> CharAt(Whole(m), at, i, Char(x, i))
  }

  /** Character i of a C string. */
  function Char(x: seq<nat>, i: nat): nat { if i < |x| then x[i] else 0 }

  lemma CharStored(m: Image, at: nat, x: seq<nat>, n: nat, b: nat)
    requires Written(m, at, x, n) && n <= |x| && b < 256
    requires b == Char(x, n)
    ensures CharWord(at, n) in NodeSet(at, x) && CharWord(at, n) < |m|
    ensures Written(m[CharWord(at, n) := SetDigit(m[CharWord(at, n)], (n + 4) % 8, b)], at, x, n + 1)
  {
    NodeParts(at, x);
    var w, k := CharWord(at, n), (n + 4) % 8;
    var m' := m[w := SetDigit(m[w], k, b)];
    DigitSet(m[w], k, b, k);
    if w == at + 2 { SetDigitHigh(m[w], k, b); }
    forall i, c: nat | 0 <= i < n && CharAt(Whole(m), at, i, c) ensures CharAt(Whole(m'), at, i, c) {
      if CharWord(at, i) == w { DigitSet(m[w], k, b, (i + 4) % 8); }
    }
  }

  lemma WrittenWhole(m: Image, at: nat, x: seq<nat>)
    requires Written(m, at, x, |x| + 1) && Text(x) && at > 8
    ensures NodeAt(Whole(m), at, 1, x)
  {
    NodeParts(at, x);
    forall i | 0 <= i < |x| ensures CharAt(Whole(m), at, i, x[i]) {
      assert CharAt(Whole(m), at, i, Char(x, i));
    }
    assert CharAt(Whole(m), at, |x|, Char(x, |x|));
  }

  // ---------------------------------------------------------------------------------------
  // Hanging it in
  // ---------------------------------------------------------------------------------------

  /** The clump of the node is reserved and promises to store the node's address in `slot`. */
  ghost predicate Pledged(s: Pm, at: nat, x: seq<nat>, slot: nat) {
    var hs := Chain(s.mem);
    && Quiet(s, hs) && at > 8 && ClumpAt(s.mem, hs, at - 8, RESERVED)
    && at + NodeWords(x) <= hs[Index(hs, at - 8) + 1]
    && at <= |s.mem| && s.mem[at - 6] == 8 * slot && s.mem[at - 5] == 8 * at && s.mem[at - 4] == 0 && slot > 0
  }

  /** Anything visible may be named. */
  lemma VisibleReach(s: Pm, slot: nat, owner: nat)
    requires Quiet(s, Chain(s.mem)) && slot in Sight(s).words
    ensures ReachOffset(s.mem, Chain(s.mem), owner, 8 * slot)
    ensures slot > 0
  {
    var m, hs := s.mem, Chain(s.mem);
    QuietReads(s, hs);
    VisibleIsTarget(m, hs, slot);
    if !Static(slot) {
      var h :| h in Living(m, hs) && h + 8 <= slot < h + Living(m, hs)[h];
      var i :| 0 <= i < |hs| && hs[i] == h;
      assert i < |hs| - 1 && Clump(m, hs, i);
      assert Inside(hs, i, slot) && Allows(owner, State(m[hs[i]]));
    }
  }

  lemma HeldRegisters(s: Pm, at: nat, x: seq<nat>, slot: nat)
    requires Held(s, at, x) && slot in Sight(s).words
    ensures 8 * at >= 64 && 8 * at / 8 - 8 == at - 8
    ensures Registers(s.mem, Chain(s.mem), at - 8, RESERVED, 8 * slot) && FreeSlot(s.mem, at - 8) < 3
  {
    hide PersistentMemory.Exec;
    HeldWhere(s, at, x);
    VisibleReach(s, slot, RESERVED);
  }

  lemma HeldPledged(s: Pm, at: nat, x: seq<nat>, slot: nat, r: Pm)
    requires Held(s, at, x) && slot > 0
    requires Registered(r.mem, s.mem, at - 8, 8 * slot, 8 * at)
    requires Quiet(r, Chain(r.mem)) && Chain(r.mem) == Chain(s.mem)
    ensures Pledged(r, at, x, slot)
  {
    hide Chain;
    hide Quiet;
    HeldWhere(s, at, x);
  }

  /** Registering touches the header only. */
  lemma PledgeKeepsNode(s: Pm, at: nat, x: seq<nat>, slot: nat, r: Pm)
    requires Held(s, at, x) && slot in Sight(s).words && Written(s.mem, at, x, |x| + 1) && Text(x)
    requires Registered(r.mem, s.mem, at - 8, 8 * slot, 8 * at)
    requires Quiet(r, Chain(r.mem)) && Chain(r.mem) == Chain(s.mem)
    ensures Pledged(r, at, x, slot) && NodeAt(Whole(r.mem), at, 1, x)
    ensures at + 1 < |r.mem| && r.mem[at] == r.mem[at + 1] == 0
  {
    hide Chain;
    hide Quiet;
    VisibleReach(s, slot, RESERVED);
    HeldPledged(s, at, x, slot, r);
    WrittenWhole(s.mem, at, x);
    NodeParts(at, x);
    NodeFrame(Whole(s.mem), Whole(r.mem), at, 1, x);
  }

  lemma PledgedReady(s: Pm, at: nat, x: seq<nat>, slot: nat)
    requires Pledged(s, at, x, slot)
    ensures Bounds(Chain(s.mem), |s.mem|) && Index(Chain(s.mem), at - 8) < |Chain(s.mem)| - 1
    ensures 8 * at / 8 - 8 == at - 8 && Legal(s.mem, Chain(s.mem), FIRST, Command.Activate(at - 8))
  {
    hide PersistentMemory.Exec;
    var hs := Chain(s.mem);
    var k := Index(hs, at - 8);
    CommitBounds(s.mem, hs, k);
  }

  /** The view v with the clump at - 8 added and the pointer stored. */
  ghost predicate Hung(v: View, u: View, m: Image, at: nat, span: nat, slot: nat) {
    && at >= 8 && at - 8 !in v.live && u.live == v.live[at - 8 := span]
    && Shaped(v, |m|) && Shaped(u, |m|)
    && (forall w: nat :: w in v.words ==> w < |m| && v.words[w] == m[w])
    && (forall w: nat :: w in u.words ==> w < |m| && u.words[w] == if w == slot then 8 * at else m[w])
  }

  lemma HungMaps(v: View, u: View, m: Image, at: nat, span: nat, slot: nat, x: seq<nat>)
    requires Hung(v, u, m, at, span, slot) && slot in v.words
    requires at + NodeWords(x) <= at - 8 + span && at + NodeWords(x) <= |m| && NodeSet(at, x) !! v.words.Keys
    ensures v.words.Keys <= u.words.Keys
    ensures Same(v.words, u.words, v.words.Keys - {slot}) && u.words[slot] == 8 * at
    ensures Same(Whole(m), u.words, NodeSet(at, x)) && GrewLive(v.live, u.live, Leaf, x, at)
  {
    forall w: nat | w in v.words ensures w in u.words {
      if !Static(w) {
        var h :| h in v.live && h + 8 <= w < h + v.live[h];
        assert h in u.live;
      }
    }
    forall w: nat | w in NodeSet(at, x) ensures w in u.words {
      assert at - 8 in u.live && at - 8 + 8 <= w < at - 8 + u.live[at - 8];
    }
  }

  lemma PledgedHung(s: Pm, at: nat, x: seq<nat>, slot: nat, r: Pm)
    requires Pledged(s, at, x, slot) && slot in Sight(s).words
    requires Quiet(r, Chain(r.mem)) && Chain(r.mem) == Chain(s.mem) && |r.mem| == |s.mem|
    requires ViewAfter(Sight(r), s.mem, Chain(s.mem), Index(Chain(s.mem), at - 8))
    ensures Hung(Sight(s), Sight(r), s.mem, at, Span(s.mem[at - 8]), slot)
    ensures at + NodeWords(x) <= at - 8 + Span(s.mem[at - 8]) && at + NodeWords(x) <= |s.mem|
    ensures NodeSet(at, x) !! Sight(s).words.Keys
  {
    hide Static;
    hide Index;
    hide State;
    hide PersistentMemory.Exec;
    hide Recoverable;
    hide Chain;
    hide ReplayAt;
    hide Visible;
    hide Span;
    QuietReads(s, Chain(s.mem));
    PledgedWords(s, at, x, slot);
    NodeParts(at, x);
    assert at + NodeWords(x) - 1 in NodeSet(at, x);
  }

  /** The moment the node becomes part of the tree. */
  lemma HungGrows(s: Pm, at: nat, x: seq<nat>, slot: nat, r: Pm)
    requires Pledged(s, at, x, slot) && slot in Sight(s).words && NodeAt(Whole(s.mem), at, 1, x)
    requires at + 1 < |s.mem| && s.mem[at] == s.mem[at + 1] == 0
    requires Planted(Sight(s).words, slot, Leaf)
    requires Quiet(r, Chain(r.mem)) && Chain(r.mem) == Chain(s.mem) && |r.mem| == |s.mem|
    requires ViewAfter(Sight(r), s.mem, Chain(s.mem), Index(Chain(s.mem), at - 8))
    ensures GrewWords(Sight(s).words, Sight(r).words, slot, Leaf, x, at)
    ensures GrewLive(Sight(s).live, Sight(r).live, Leaf, x, at)
  {
    hide PersistentMemory.Exec;
    hide Recoverable;
    hide Chain;
    hide Quiet;
    hide NodeAt;
    hide ViewAfter;
    hide Sight;
    PledgedHung(s, at, x, slot, r);
    var v, u := Sight(s), Sight(r);
    HungMaps(v, u, s.mem, at, Span(s.mem[at - 8]), slot, x);
    NodeParts(at, x);
    NodeFrame(Whole(s.mem), u.words, at, 1, x);
    GrewHere(v.words, u.words, slot, x, at);
  }

  /** Where the pledged clump lies. */
  lemma PledgedPlace(s: Pm, at: nat, x: seq<nat>, slot: nat)
    requires Pledged(s, at, x, slot)
    ensures var hs := Chain(s.mem); var k := Index(hs, at - 8);
            && Bounds(hs, |s.mem|) && Tiled(s.mem, hs) && k < |hs| - 1 && hs[k] == at - 8
                && State(s.mem[hs[k]]) == RESERVED
            && at + NodeWords(x) <= hs[k + 1] && hs[k + 1] == at - 8 + Span(s.mem[at - 8]) && NoTransit(s.mem, hs)
  {
    hide PersistentMemory.Exec;
    hide Chain;
    hide State;
    hide Span;
    var hs := Chain(s.mem);
    assert Clump(s.mem, hs, Index(hs, at - 8));
  }

  /** What the pledged list stores. */
  lemma PledgedReplay(m: Image, h: nat, at: nat, slot: nat)
    requires h + 8 <= |m| && m[h + 2] == 8 * slot && m[h + 3] == 8 * at && m[h + 4] == 0 && slot > 0
    ensures forall w: nat :: w < |m| ==> ReplayAt(m, h, w) == if w == slot then 8 * at else m[w]
  {
    assert ListLen(m, h) == 1;
    assert m[h + 2] / 8 == slot;
  }

  /** No word of a RESERVED clump can be seen. */
  lemma ReservedDark(s: Pm, hs: seq<nat>, k: nat)
    requires Quiet(s, hs) && Chain(s.mem) == hs && k < |hs| - 1 && State(s.mem[hs[k]]) == RESERVED
    ensures hs[k] !in Sight(s).live
    ensures forall w: nat :: Inside(hs, k, w) ==> w < |s.mem| && w !in Sight(s).words
  {
    hide PersistentMemory.Exec;
    hide Chain;
    hide State;
    hide Span;
    hide Sight;
    QuietReads(s, hs);
    ReservedLiveless(s.mem, hs, k);
    forall w: nat | Inside(hs, k, w) ensures w < |s.mem| && w !in Sight(s).words {
      InsideReserved(s.mem, hs, k, w);
      assert w < hs[k + 1] < |s.mem|;
    }
  }

  lemma ReservedLiveless(m: Image, hs: seq<nat>, k: nat)
    requires Bounds(hs, |m|) && k < |hs| - 1 && State(m[hs[k]]) == RESERVED
    ensures hs[k] !in Living(m, hs)
  {
  }

  lemma PledgedWords(s: Pm, at: nat, x: seq<nat>, slot: nat)
    requires Pledged(s, at, x, slot) && slot in Sight(s).words
    ensures var hs := Chain(s.mem); var k := Index(hs, at - 8);
            && Bounds(hs, |s.mem|) && k < |hs| - 1 && hs[k] == at - 8 && State(s.mem[hs[k]]) == RESERVED
            && at + NodeWords(x) <= at - 8 + Span(s.mem[at - 8])
            && at - 8 !in Sight(s).live
            && (forall w: nat :: w in NodeSet(at, x) ==> w < |s.mem| && w !in Sight(s).words)
            && (forall w: nat :: w < |s.mem| ==> ReplayAt(s.mem, hs[k], w) == if w == slot then 8 * at else s.mem[w])
  {
    hide PersistentMemory.Exec;
    hide Chain;
    hide State;
    hide Span;
    hide ReplayAt;
    hide Sight;
    PledgedPlace(s, at, x, slot);
    PledgedReplay(s.mem, at - 8, at, slot);
    ReservedDark(s, Chain(s.mem), Index(Chain(s.mem), at - 8));
  }
}
