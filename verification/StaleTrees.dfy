/** Inserting a word when the search for memory starts at the header of a clump that tree_free has
    merged away: exactly when that loses the tree, and a run that does. */
module StaleTrees {
  import opened PersistentMemory
  import opened PoolImage
  import opened RecoveryFacts
  import opened CrashSafety
  import opened Finishing
  import opened Activation
  import opened Reserving
  import opened Registering
  import opened Calls
  import Runs
  import opened StaleCursor
  import opened Trails
  import opened Allocator
  import opened ByteWords
  import opened WordTrees
  import opened WordTreeSteps
  import opened TakingDown
  import opened WordPrograms
  import opened WordInserts
  import opened WordFrees
  import opened WordRuns
  import opened SmallRuns

  // ---------------------------------------------------------------------------------------
  // Where the search ends
  // ---------------------------------------------------------------------------------------

  /** At a clump of the chain, or at a header left inside a free clump. */
  lemma {:induction false} FitOnTrail(m: Image, hs: seq<nat>, h: nat, bytes: nat) returns (clump: bool, j: nat)
    requires Tiled(m, hs) && Trail(m, hs, h) && Fit(m, h, bytes) != 0
    ensures var c := Fit(m, h, bytes);
            if clump then j < |hs| - 1 && hs[j] == c else Stale(m, hs, j, c)
    decreases |m| - h
  {
    if h in hs {
      var i := Runs.Index(hs, h);
      FitIs(m, hs, i, bytes);
      clump, j := true, FirstFit(m, hs, i, bytes);
    } else {
      j :| Stale(m, hs, j, h);
      if Fits(m[h], bytes) {
        clump := false;
      } else {
        clump, j := FitOnTrail(m, hs, h + Span(m[h]), bytes);
      }
    }
  }

  // ---------------------------------------------------------------------------------------
  // Stores inside the free clump
  // ---------------------------------------------------------------------------------------

  ghost predicate StoresBetween(prog: seq<Instr>, lo: nat, hi: nat) {
    forall i :: 0 <= i < |prog| && prog[i].Store? ==> lo <= prog[i].w < hi
  }

  /** Between calls on a pool that nobody has noticed a change of: s is what it was. */
  ghost predicate Unnoticed(s: Pm, r: Pm, hs: seq<nat>, k: nat) {
    && Quiet(s, hs) && Quiet(r, hs) && |r.mem| == |s.mem|
    && ViewOf(r.mem, hs) == ViewOf(s.mem, hs) && k < |hs| - 1 && State(r.mem[hs[k]]) == FREE
  }

  lemma UnnoticedMore(s: Pm, a: Pm, prog: seq<Instr>, hs: seq<nat>, k: nat, lo: nat, hi: nat) returns (r: Pm)
    requires Unnoticed(s, a, hs, k) && StoresBetween(prog, lo, hi) && hs[k] + 8 <= lo && hi <= hs[k + 1]
    ensures r == Exec(a, prog) && Unnoticed(s, r, hs, k)
    ensures forall w :: 0 <= w < |s.mem| && !(lo <= w < hi) ==> r.mem[w] == a.mem[w]
  {
    hide ViewOf;
    assert StoresInside(prog, hs, k);
    InsideProgram(a, prog, hs, k);
    r := Exec(a, prog);
    forall w | 0 <= w < |s.mem| && !(lo <= w < hi) ensures r.mem[w] == a.mem[w] { ExecUntouched(a, prog, w); }
  }

  lemma {:induction false} TextBetween(m: Image, at: nat, x: seq<nat>, i: nat)
    ensures StoresBetween(TextSteps(m, at, x, i), at, at + NodeWords(x))
    decreases |x| + 1 - i
  {
    var w := CharWord(at, i);
    if i <= |x| && w < |m| { TextBetween(m[w := SetDigit(m[w], (i + 4) % 8, Char(x, i))], at, x, i + 1); }
  }

  lemma NodeBetween(m: Image, at: nat, x: seq<nat>)
    ensures StoresBetween(NodeSteps(m, at, x), at, at + NodeWords(x))
  {
    hide TextSteps;
    if at + 2 < |m| { TextBetween(Memory(m, FieldSteps(m, at)), at, x, 0); }
  }

  /** The clump of the new node, in a place that is no clump. */
  ghost predicate Under(s: Pm, r: Pm, hs: seq<nat>, k: nat, c: nat, v: nat) {
    && Unnoticed(s, r, hs, k) && c + 8 <= |r.mem| && r.mem[c] == v
    && r.mem[c + 2] == r.mem[c + 4] == r.mem[c + 6] == 0
  }

  lemma StaleReserved(s: Pm, hs: seq<nat>, k: nat, c: nat, bytes: nat) returns (a: Pm)
    requires Quiet(s, hs) && Leftover(s.mem, hs, k, c, bytes)
    ensures a == Exec(s, ReserveSteps(s.mem, c, bytes)) && Under(s, a, hs, k, c, ReservedSize(s.mem[c], bytes))
  {
    hide PersistentMemory.Exec;
    hide ViewOf;
    hide ClumpOk;
    LeftoverStores(s.mem, hs, k, c, bytes);
    InsideProgram(s, ReserveSteps(s.mem, c, bytes), hs, k);
    StaleHeader(s, hs, k, c, bytes);
    a := Exec(s, ReserveSteps(s.mem, c, bytes));
  }

  lemma StaleHeader(s: Pm, hs: seq<nat>, k: nat, c: nat, bytes: nat)
    requires Sane(s) && Bounds(hs, |s.mem|) && Leftover(s.mem, hs, k, c, bytes)
    ensures c + 8 <= |s.mem|
    ensures var b := Exec(s, ReserveSteps(s.mem, c, bytes)).mem;
            b[c] == ReservedSize(s.mem[c], bytes) && b[c + 2] == b[c + 4] == b[c + 6] == 0
  {
    hide PersistentMemory.Exec;
    hide Leftover;
    hide Bounds;
    hide Splits;
    hide Bytes;
    hide State;
    hide ReservedSize;
    LeftoverParts(s.mem, hs, k, c, bytes);
    var v := ReservedSize(s.mem[c], bytes);
    var a := Exec(s, Prepare(s.mem, c, bytes));
    if Splits(s.mem[c], bytes) {
      a := CarveThenWipe(s, c, c + bytes / 8, Bytes(s.mem[c]) - bytes, hs[k + 1]);
    } else {
      WipeEffect(s, c);
    }
    SetSizeEffect(a, c, v);
    ExecConcat(s, Prepare(s.mem, c, bytes), SetSize(c, v));
  }

  lemma LeftoverParts(m: Image, hs: seq<nat>, k: nat, c: nat, bytes: nat)
    requires Bounds(hs, |m|) && Leftover(m, hs, k, c, bytes)
    ensures k + 1 < |hs| && c % 8 == 0 && c + 8 <= hs[k + 1] <= |m| && Bytes(m[c]) >= bytes
    ensures Splits(m[c], bytes) ==>
              (c + bytes / 8) % 8 == 0 && c + 8 <= c + bytes / 8 && c + bytes / 8 + 8 <= hs[k + 1]
  {
  }

  // ---------------------------------------------------------------------------------------
  // The whole insertion
  // ---------------------------------------------------------------------------------------

  /** The node fits into the clump that the search has found. */
  lemma NodeRoom(m: Image, hs: seq<nat>, k: nat, c: nat, x: seq<nat>)
    requires Bounds(hs, |m|) && NodeSize(x) + 127 < TWO_64 && Leftover(m, hs, k, c, ClumpBytes(NodeSize(x)))
    ensures c + 8 + NodeWords(x) <= hs[k + 1] <= |m|
  {
  }

  lemma StaleFilled(s: Pm, a: Pm, hs: seq<nat>, k: nat, c: nat, v: nat, x: seq<nat>) returns (b: Pm)
    requires Under(s, a, hs, k, c, v) && hs[k] + 8 <= c && c + 8 + NodeWords(x) <= hs[k + 1]
    ensures b == Exec(a, NodeSteps(a.mem, c + 8, x)) && Under(s, b, hs, k, c, v)
  {
    hide PersistentMemory.Exec;
    hide Unnoticed;
    hide NodeSteps;
    hide Quiet;
    UnnoticedSize(s, a, hs, k);
    NodeBetween(a.mem, c + 8, x);
    b := UnnoticedMore(s, a, NodeSteps(a.mem, c + 8, x), hs, k, c + 8, c + 8 + NodeWords(x));
    UnnoticedSize(s, b, hs, k);
  }

  lemma UnnoticedSize(s: Pm, r: Pm, hs: seq<nat>, k: nat)
    requires Unnoticed(s, r, hs, k)
    ensures |r.mem| == |s.mem| && k < |hs| - 1 && Sane(r)
  {
  }

  /** The store of the node's address is registered. */
  ghost predicate Promised(s: Pm, r: Pm, hs: seq<nat>, k: nat, c: nat, v: nat, slot: nat) {
    && Unnoticed(s, r, hs, k) && c + 8 <= |r.mem| && r.mem[c] == v
    && r.mem[c + 2] == 8 * slot && r.mem[c + 3] == 8 * (c + 8) && r.mem[c + 4] == 0
  }

  lemma StaleRegistered(s: Pm, b: Pm, hs: seq<nat>, k: nat, c: nat, v: nat, slot: nat) returns (d: Pm)
    requires Under(s, b, hs, k, c, v) && hs[k] + 8 <= c && c + 8 <= hs[k + 1]
    ensures FreeSlot(b.mem, c) == 0 && d == Exec(b, RegisterSteps(c, 0, 8 * slot, 8 * (c + 8)))
    ensures Promised(s, d, hs, k, c, v, slot)
  {
    hide Unnoticed;
    UnnoticedSize(s, b, hs, k);
    var p := RegisterSteps(c, 0, 8 * slot, 8 * (c + 8));
    hide Quiet;
    d := UnnoticedMore(s, b, p, hs, k, c + 2, c + 4);
    ExecFour(b, Store(c + 3, 8 * (c + 8)), HeaderFlush(c), Store(c + 2, 8 * slot), HeaderFlush(c));
  }

  /** The pointer is stored: the one change that shows. */
  lemma StalePoked(s: Pm, d: Pm, hs: seq<nat>, k: nat, slot: nat, v: nat) returns (r: Pm)
    requires Unnoticed(s, d, hs, k) && slot < |s.mem| && Visible(Living(s.mem, hs), slot)
    ensures r == Exec(d, Assign(8 * slot, v)) && Quiet(r, hs) && |r.mem| == |s.mem|
    ensures State(r.mem[hs[k]]) == FREE
    ensures ViewOf(r.mem, hs) == ViewOf(s.mem, hs).(words := ViewOf(s.mem, hs).words[slot := v])
    ensures forall w :: 0 <= w < |s.mem| && w != slot ==> r.mem[w] == d.mem[w]
  {
    hide PersistentMemory.Exec;
    hide ViewOf;
    hide ClumpOk;
    hide Clump;
    SameLiving(s, d, hs);
    assert 8 * slot / 8 == slot;
    r := PokeAtomic(d, hs, slot, v, 8);
    VisibleIsTarget(d.mem, hs, slot);
    TargetIsNoHeader(hs, |d.mem|, slot);
    OutsideHeader(hs, k, slot);
  }

  lemma SameLiving(s: Pm, d: Pm, hs: seq<nat>)
    requires Quiet(s, hs) && Quiet(d, hs) && ViewOf(d.mem, hs) == ViewOf(s.mem, hs)
    ensures Living(d.mem, hs) == Living(s.mem, hs)
  {
    ViewWords(s.mem, hs, 0);
    ViewWords(d.mem, hs, 0);
  }

  /** The stores before and after that one. */
  function CommitHead(v: nat, c: nat): seq<Instr>
    requires v >= 64
  {
    [Persist(8 * (c + 8), v - 64)] + SetSize(c, CommitSize(v))
  }

  function CommitTail(v: nat, c: nat): seq<Instr> { ClearList(c) + SetSize(c, SettledSize(CommitSize(v))) }

  lemma PromisedSteps(m: Image, c: nat, v: nat, slot: nat)
    requires c + 8 <= |m| && m[c] == v >= 64 && slot > 0
    requires m[c + 2] == 8 * slot && m[c + 3] == 8 * (c + 8) && m[c + 4] == 0
    ensures ActivateSteps(m, c) == CommitHead(v, c) + Assign(8 * slot, 8 * (c + 8)) + CommitTail(v, c)
  {
    var a := m[c := CommitSize(v)];
    assert ReplayList(a, c) == Assign(8 * slot, 8 * (c + 8));
  }

  lemma StaleActivated(s: Pm, d: Pm, hs: seq<nat>, k: nat, c: nat, v: nat, slot: nat) returns (r: Pm)
    requires Promised(s, d, hs, k, c, v, slot) && v >= 64 && slot > 0
    requires hs[k] + 8 <= c && c + 8 <= hs[k + 1] && slot < |s.mem| && Visible(Living(s.mem, hs), slot)
    ensures r == Exec(d, ActivateSteps(d.mem, c)) && Quiet(r, hs)
    ensures ViewOf(r.mem, hs) == ViewOf(s.mem, hs).(words := ViewOf(s.mem, hs).words[slot := 8 * (c + 8)])
  {
    hide PersistentMemory.Exec;
    hide ViewOf;
    hide Recoverable;
    hide ActivateSteps;
    hide Living;
    hide Visible;
    hide Settled;
    hide State;
    hide Bytes;
    var p, z := CommitHead(v, c), CommitTail(v, c);
    var q := Assign(8 * slot, 8 * (c + 8));
    PromisedSteps(d.mem, c, v, slot);
    var e := UnnoticedMore(s, d, p, hs, k, c, c + 8);
    var f := StalePoked(s, e, hs, k, slot, 8 * (c + 8));
    assert StoresInside(z, hs, k);
    InsideProgram(f, z, hs, k);
    r := Exec(f, z);
    ExecConcat(d, p, q);
    ExecConcat(d, p + q, z);
  }

  /** The insertion takes memory at a header left inside the free clump k: the pointer is stored, and
      neither the chain nor the allocated clumps change. */
  lemma StaleInserted(s: Pm, hs: seq<nat>, k: nat, cursor: nat, slot: nat, x: seq<nat>) returns (r: Pm)
    requires Quiet(s, hs) && hs == Chain(s.mem) && NodeSize(x) + 127 < TWO_64 && NodeFit(s.mem, cursor, x) != 0
    requires Leftover(s.mem, hs, k, NodeFit(s.mem, cursor, x), ClumpBytes(NodeSize(x)))
    requires slot in Sight(s).words && slot > 0
    ensures r == Exec(s, HereSteps(s.mem, cursor, slot, x)) && Quiet(r, Chain(r.mem)) && Chain(r.mem) == Chain(s.mem)
    ensures Sight(r) == Sight(s).(words := Sight(s).words[slot := 8 * (NodeFit(s.mem, cursor, x) + 8)])
  {
    hide PersistentMemory.Exec;
    hide Chain;
    hide ViewOf;
    hide Unnoticed;
    hide NodeSteps;
    hide NodeSize;
    hide ClumpBytes;
    hide Living;
    hide Visible;
    hide Recoverable;
    hide ReserveSteps;
    hide ActivateSteps;
    hide RegisterSteps;
    hide ReservedSize;
    hide Fit;
    var m, c, bytes := s.mem, NodeFit(s.mem, cursor, x), ClumpBytes(NodeSize(x));
    var v := ReservedSize(m[c], bytes);
    SeenSlot(s, slot);
    QuietTiled(s, hs);
    NodeRoom(m, hs, k, c, x);
    LeftoverSize(m, hs, k, c, bytes);
    var a := StaleReserved(s, hs, k, c, bytes);
    var b := StaleFilled(s, a, hs, k, c, v, x);
    var d := StaleRegistered(s, b, hs, k, c, v, slot);
    r := StaleActivated(s, d, hs, k, c, v, slot);
    QuietTiled(r, hs);
    ChainUnique(r.mem, hs);
    UnderSane(s, a, hs, k, c, v);
    UnderSane(s, b, hs, k, c, v);
    PromisedSize(s, d, hs, k, c, v, slot);
    HereRuns(s, cursor, slot, x, a, b);
    HangingSteps(b, c, slot, d);
    ExecConcat(b, RegisterSteps(c, 0, 8 * slot, 8 * (c + 8)), ActivateSteps(d.mem, c));
  }

  lemma UnderSane(s: Pm, r: Pm, hs: seq<nat>, k: nat, c: nat, v: nat)
    requires Under(s, r, hs, k, c, v)
    ensures Sane(s) && Sane(r) && c + 8 <= |r.mem| && r.mem[c] == v
  {
  }

  lemma PromisedSize(s: Pm, r: Pm, hs: seq<nat>, k: nat, c: nat, v: nat, slot: nat)
    requires Promised(s, r, hs, k, c, v, slot)
    ensures c + 8 <= |r.mem| && r.mem[c] == v
  {
  }

  lemma SeenSlot(s: Pm, slot: nat)
    requires Quiet(s, Chain(s.mem)) && slot in Sight(s).words
    ensures slot < |s.mem| && Visible(Living(s.mem, Chain(s.mem)), slot)
  {
    QuietReads(s, Chain(s.mem));
  }

  lemma LeftoverSize(m: Image, hs: seq<nat>, k: nat, c: nat, bytes: nat)
    requires Bounds(hs, |m|) && Leftover(m, hs, k, c, bytes)
    ensures ReservedSize(m[c], bytes) >= 64 && hs[k] + 8 <= c && c + 8 <= hs[k + 1]
  {
  }

  lemma HangingSteps(b: Pm, c: nat, slot: nat, d: Pm)
    requires Sane(b) && c + 8 <= |b.mem| && FreeSlot(b.mem, c) == 0 && b.mem[c] >= 64
    requires d == Exec(b, RegisterSteps(c, 0, 8 * slot, 8 * (c + 8))) && d.mem[c] >= 64
    ensures HangSteps(b.mem, c + 8, slot) == RegisterSteps(c, 0, 8 * slot, 8 * (c + 8)) + ActivateSteps(d.mem, c)
  {
    hide PersistentMemory.Exec;
    hide ActivateSteps;
    hide RegisterSteps;
    hide Memory;
    hide FreeSlot;
    MemoryOf(b, RegisterSteps(c, 0, 8 * slot, 8 * (c + 8)));
  }

  // ---------------------------------------------------------------------------------------
  // No tree is left
  // ---------------------------------------------------------------------------------------

  /** The descent that ends at an empty pointer comes by it. */
  lemma {:induction false} DescendSlot(s: Pm, root: nat, x: seq<nat>, t: Tree, depth: nat)
    requires Quiet(s, Chain(s.mem)) && Text(x) && Planted(Sight(s).words, root, t) && depth > Nodes(t)
    requires Descend(s.mem, root, x, depth).Empty?
    ensures var slot := Descend(s.mem, root, x, depth).slot;
            && slot in Sight(s).words && Sight(s).words[slot] == 0
            && if t.Leaf? then slot == root else slot in Footprint(t)
    decreases t
  {
    hide Chain;
    hide Quiet;
    hide CompareFrom;
    hide Planted;
    hide NodeSet;
    SlotRead(s, root, t);
    if t.Leaf? {
      LeafReads(s, root);
    } else {
      PlantedParts(s, root, t);
      NodeParts(t.at, t.text);
      var left := CompareFrom(s.mem, t.at, x, 0) < 0;
      DescendSlot(s, if left then t.at else t.at + 1, x, if left then t.left else t.right, depth - 1);
    }
  }

  lemma LeafReads(s: Pm, root: nat)
    requires Quiet(s, Chain(s.mem)) && Planted(Sight(s).words, root, Leaf)
    ensures root in Sight(s).words && Sight(s).words[root] == 0
  {
  }

  /** A tree found through the new pointer has a node at `at`. */
  lemma {:induction false} Grafted(s: Pm, root: nat, x: seq<nat>, t: Tree, depth: nat, n: map<nat, nat>,
                                   at: nat, u: Tree)
    requires Quiet(s, Chain(s.mem)) && Text(x) && Planted(Sight(s).words, root, t) && depth > Nodes(t)
    requires Apart(t) && root !in Footprint(t) && at >= 8
    requires Descend(s.mem, root, x, depth).Empty?
    requires n == Sight(s).words[Descend(s.mem, root, x, depth).slot := 8 * at] && Planted(n, root, u)
    ensures at - 8 in Heads(u)
    decreases t
  {
    hide Chain;
    hide Quiet;
    hide Sight;
    hide CompareFrom;
    hide NodeAt;
    hide NodeSet;
    hide Footprint;
    SlotRead(s, root, t);
    DescendSlot(s, root, x, t, depth);
    if t.Node? {
      ApartParts(t);
      var left := CompareFrom(s.mem, t.at, x, 0) < 0;
      Grafted(s, if left then t.at else t.at + 1, x, if left then t.left else t.right, depth - 1, n, at,
              if left then u.left else u.right);
    }
  }

  /** Memory taken at a header that is no clump: whatever hangs there is no tree of the pool. */
  lemma StaleLoses(s: Pm, cursor: nat, x: seq<nat>, t: Tree, k: nat) returns (r: Pm)
    requires Marked(s, t) && Proper(x) && Descend(s.mem, STATIC_WORD, x, |s.mem| + 1).Empty?
    requires NodeFit(s.mem, cursor, x) != 0
    requires Leftover(s.mem, Chain(s.mem), k, NodeFit(s.mem, cursor, x), ClumpBytes(NodeSize(x)))
    ensures r == Exec(s, InsertSteps(s.mem, cursor, x)) && forall u :: !Marked(r, u)
  {
    hide PersistentMemory.Exec;
    hide Chain;
    hide Quiet;
    hide Descend;
    hide NodeFit;
    hide HereSteps;
    hide Planted;
    hide Apart;
    hide Roomy;
    hide Ordered;
    hide Leftover;
    hide NodeSize;
    hide ClumpBytes;
    hide Footprint;
    hide Heads;
    hide Noted;
    hide TidyBut;
    hide Bounds;
    var c, slot := NodeFit(s.mem, cursor, x), Descend(s.mem, STATIC_WORD, x, |s.mem| + 1).slot;
    TreeSmall(s, t);
    DescendSlot(s, STATIC_WORD, x, t, |s.mem| + 1);
    SlotPositive(s, slot);
    r := StaleInserted(s, Chain(s.mem), k, cursor, slot, x);
    LeftoverDead(s, k, c, ClumpBytes(NodeSize(x)));
    forall u ensures !Marked(r, u) {
      if Marked(r, u) { Grafted(s, STATIC_WORD, x, t, |s.mem| + 1, Sight(r).words, c + 8, u); }
    }
  }

  lemma SlotPositive(s: Pm, slot: nat)
    requires Quiet(s, Chain(s.mem)) && slot in Sight(s).words
    ensures slot > 0
  {
    VisibleReach(s, slot, ACTIVE);
  }

  lemma LeftoverDead(s: Pm, k: nat, c: nat, bytes: nat)
    requires Quiet(s, Chain(s.mem)) && Leftover(s.mem, Chain(s.mem), k, c, bytes)
    ensures c !in Sight(s).live && c !in Chain(s.mem)
  {
    hide Chain;
    QuietReads(s, Chain(s.mem));
    PayloadNoHeader(Chain(s.mem), |s.mem|, k, c);
  }

  /** The pool holds some tree and nothing else. */
  ghost predicate HasTree(x: Client) { exists u :: Holding(x, u) }

  /** Wherever the search for memory starts: after the insertion the pool holds a tree and nothing
      else exactly if a count has been bumped, no room been found, or a clump of the chain taken. */
  lemma InsertExact(s: Pm, cursor: nat, x: seq<nat>, t: Tree)
    requires Marked(s, t) && Proper(x) && OnTrail(s.mem, cursor)
    ensures HasTree(Up(Exec(s, InsertSteps(s.mem, cursor, x)), InsertCursor(s.mem, cursor, x))) <==>
              Grounded(s.mem, cursor, x)
  {
    hide PersistentMemory.Exec;
    hide Marked;
    hide InsertSteps;
    hide InsertCursor;
    hide Grounded;
    hide Changes;
    hide Points;
    var y := Up(Exec(s, InsertSteps(s.mem, cursor, x)), InsertCursor(s.mem, cursor, x));
    if Grounded(s.mem, cursor, x) {
      var u := InsertReturns(s, cursor, x, t, y);
    } else {
      UngroundedLoses(s, cursor, x, t);
    }
  }

  lemma UngroundedLoses(s: Pm, cursor: nat, x: seq<nat>, t: Tree)
    requires Marked(s, t) && Proper(x) && OnTrail(s.mem, cursor) && !Grounded(s.mem, cursor, x)
    ensures forall u :: !Marked(Exec(s, InsertSteps(s.mem, cursor, x)), u)
  {
    hide PersistentMemory.Exec;
    hide Chain;
    hide Quiet;
    hide Holds;
    hide Noted;
    hide TidyBut;
    hide Descend;
    hide InsertSteps;
    hide OnTrail;
    var k := UngroundedLeftover(s, cursor, x);
    var r := StaleLoses(s, cursor, x, t, k);
  }

  /** In a run, after insertions that took no such memory: the next one keeps a tree exactly if it
      takes none either. */
  lemma RunExact(xs: seq<Client>, acts: seq<Act>, n: nat)
    requires Run(xs, acts) && n < |acts| && forall i :: 0 <= i < n ==> Firm(xs[i], acts[i])
    requires acts[n].Insert? && xs[n + 1].Up?
    ensures HasTree(xs[n + 1]) <==> Firm(xs[n], acts[n])
  {
    hide Marked;
    hide InsertSteps;
    hide OnTrail;
    hide Proper;
    hide InsertCursor;
    hide Grounded;
    hide HasTree;
    RunPrefix(xs, acts, n);
    var ts := RunHolds(xs[..n + 1], acts[..n]);
    assert Holding(xs[..n + 1][n], ts[n]) && Leads(xs[..n + 1][n]) && Next(xs[n], acts[n], xs[n + 1]);
    InsertExact(xs[n].pm, xs[n].cursor, acts[n].word, ts[n]);
  }

  lemma UngroundedLeftover(s: Pm, cursor: nat, x: seq<nat>) returns (k: nat)
    requires Quiet(s, Chain(s.mem)) && Proper(x) && OnTrail(s.mem, cursor) && !TakesClump(s.mem, cursor, x)
    ensures Leftover(s.mem, Chain(s.mem), k, NodeFit(s.mem, cursor, x), ClumpBytes(NodeSize(x)))
  {
    hide PersistentMemory.Exec;
    hide Chain;
    hide Trail;
    hide ClumpOk;
    var m, hs, bytes := s.mem, Chain(s.mem), ClumpBytes(NodeSize(x));
    ClumpBytesEnough(NodeSize(x));
    var clump;
    clump, k := FitOnTrail(m, hs, cursor, bytes);
    Runs.IndexUnique(hs, |m|, k);
    StaleLeftover(m, hs, k, NodeFit(m, cursor, x), bytes);
  }

  // ---------------------------------------------------------------------------------------
  // After tree_free
  // ---------------------------------------------------------------------------------------

  /** A whole tree has been freed: inserting a word then keeps a tree exactly if the cursor is the
      first clump or there is no room from it on.  There is room for any word that would have fitted
      into the clump of the cursor. */
  lemma InsertAfterFree(s: Pm, cursor: nat, t: Tree, x: seq<nat>) returns (r: Pm)
    requires Marked(s, t) && t.Node? && NoneFull(s.mem, t) && OnTrail(s.mem, cursor) && Proper(x)
    ensures r == Exec(s, FreeAll(s.mem).prog) && Marked(r, Leaf) && FreeAll(s.mem).ok
    ensures HasTree(Up(Exec(r, InsertSteps(r.mem, cursor, x)), InsertCursor(r.mem, cursor, x))) <==>
              cursor == FIRST || NodeFit(r.mem, cursor, x) == 0
    ensures cursor < |s.mem| && ClumpBytes(NodeSize(x)) <= Bytes(s.mem[cursor]) ==> NodeFit(r.mem, cursor, x) != 0
  {
    hide PersistentMemory.Exec;
    hide Chain;
    hide Quiet;
    hide Marked;
    hide OnTrail;
    hide Descend;
    hide InsertSteps;
    hide InsertCursor;
    hide HasTree;
    hide FreeAll;
    hide NoneFull;
    hide Survived;
    hide IsClump;
    hide DidWithin;
    hide Cuts;
    hide Fit;
    hide ClumpBytes;
    hide NodeSize;
    var p;
    r, p := AllFreed(s, t);
    EmptyPlace(r, x);
    InsertExact(r, cursor, x, Leaf);
    MarkedQuiet(r, Leaf);
    AfterTrail(r.mem, cursor);
    ClumpBytesEnough(NodeSize(x));
    if cursor < |s.mem| && ClumpBytes(NodeSize(x)) <= Bytes(s.mem[cursor]) {
      RoomLeft(s.mem, r, cursor, ClumpBytes(NodeSize(x)));
    }
    FitFrom(r.mem, cursor, ClumpBytes(NodeSize(x)));
    if cursor == FIRST { ClumpTakesClump(r, cursor, x); }
  }

  /** In the empty tree every word is new. */
  lemma EmptyPlace(s: Pm, x: seq<nat>)
    requires Marked(s, Leaf) && Text(x)
    ensures Descend(s.mem, STATIC_WORD, x, |s.mem| + 1).Empty?
  {
    TreeSmall(s, Leaf);
    DescendFinds(s, STATIC_WORD, x, Leaf, |s.mem| + 1);
  }

  lemma AfterTrail(m: Image, cursor: nat)
    requires OnTrail(m, cursor)
    ensures cursor >= FIRST
  {
    hide Chain;
  }

  lemma FitFrom(m: Image, h: nat, bytes: nat)
    ensures Fit(m, h, bytes) != 0 ==> Fit(m, h, bytes) >= h
  {
  }

  lemma RoomLeft(m: Image, r: Pm, cursor: nat, bytes: nat)
    requires TrailsKept(m, r.mem) && OnTrail(m, cursor) && cursor < |m| && 64 <= bytes <= Bytes(m[cursor])
    requires Quiet(r, Chain(r.mem)) && Chain(r.mem) == [FIRST, LastHeader(|r.mem|)] && |r.mem| > FIRST + 8
    requires State(r.mem[FIRST]) == FREE
    ensures Fit(r.mem, cursor, bytes) == cursor != 0
  {
    hide Chain;
    hide PersistentMemory.Exec;
    hide ClumpOk;
    assert OnTrail(r.mem, cursor) && Span(r.mem[cursor]) >= Span(m[cursor]);
  }

  // ---------------------------------------------------------------------------------------
  // A run that loses its tree
  // ---------------------------------------------------------------------------------------

  /** One process opens a new pool, inserts two words, frees the tree and inserts a third: the header
      of the second word's clump now lies inside a free clump, and the third word is stored there.
      What the root points to is no clump. */
  lemma StaleRun(size: nat, x: seq<nat>, y: seq<nat>, z: seq<nat>) returns (xs: seq<Client>)
    requires size >= 8 * MIN_WORDS && |x| == |y| == |z| == 1 && x != y
    requires 0 < x[0] < 256 && 0 < y[0] < 256 && 0 < z[0] < 256
    ensures Run(xs, [Open, Insert(x), Insert(y), TakeDown, Insert(z)]) && forall i :: 1 <= i <= 5 ==> xs[i].Up?
    ensures (forall i :: 0 <= i <= 4 ==> HasTree(xs[i])) && !HasTree(xs[5])
  {
    hide Next;
    hide Marked;
    hide Firm;
    hide IsClump;
    hide NoneFull;
    hide InsertSteps;
    hide OnTrail;
    hide ClumpBytes;
    hide NodeSize;
    hide NodeFit;
    hide Proper;
    hide FreeAll;
    hide InsertCursor;
    CompareEqual(y, x);
    LetterSize(z);
    var a := FreshPool(size);
    var b, t := FirstWord(a, x);
    var c, u := SecondWord(b, t, y);
    ClumpOnTrailMarked(c, u, FIRST + 16);
    var d := InsertAfterFree(c, FIRST + 16, u, z);
    var e := Up(Exec(d, InsertSteps(d.mem, FIRST + 16, z)), InsertCursor(d.mem, FIRST + 16, z));
    NextSteps(c, FIRST + 16, z, d, e);
    NewPoolMarked(size);
    assert Holding(Down(NewPool(size)), Leaf) && Holding(Up(a, FIRST), Leaf) && Holding(Up(b, FIRST), t);
    assert Holding(Up(c, FIRST + 16), u) && Holding(Up(d, FIRST + 16), Leaf);
    xs := [Down(NewPool(size)), Up(a, FIRST), Up(b, FIRST), Up(c, FIRST + 16), Up(d, FIRST + 16), e];
  }

  lemma ClumpOnTrailMarked(s: Pm, t: Tree, c: nat)
    requires Marked(s, t) && IsClump(s.mem, c)
    ensures OnTrail(s.mem, c)
  {
    ClumpOnTrail(s, c);
  }

  lemma NextSteps(c: Pm, cursor: nat, z: seq<nat>, d: Pm, e: Client)
    requires d == Exec(c, FreeAll(c.mem).prog) && Proper(z)
    requires e == Up(Exec(d, InsertSteps(d.mem, cursor, z)), InsertCursor(d.mem, cursor, z))
    ensures Next(Up(c, cursor), TakeDown, Up(d, cursor)) && Next(Up(d, cursor), Insert(z), e)
  {
  }
}
