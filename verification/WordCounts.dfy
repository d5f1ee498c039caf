/** A persistent tree of word counts on top of the allocator. */
module WordCounts {
  import opened PersistentMemory
  import opened PoolImage
  import RecoveryFacts
  import opened Activation
  import opened Reserving
  import opened Registering
  import opened Calls
  import opened Runs
  import opened Allocator
  import opened Leftovers
  import opened ByteWords
  import opened WordTrees
  import opened WordTreeSteps
  import opened Pruning
  import opened TakingDown
  import opened WordPrograms
  import opened WordInserts
  import opened WordFrees
  import opened WordRuns

  class WordTree {
    const pool: Pool

    /** Opens the pool of a tree; a new pool file holds the empty one. */
    constructor Init(file: Image, ghost t: Tree)
      requires |file| % 8 == 0 && MarkedFile(file, t)
      ensures fresh(pool) && Valid() && CursorOk() && Marked(pool.pm.now, t)
      ensures NoneFull(pool.pm.now.mem, t) <==> NoneFull(After(file), t)
    {
      hide PersistentMemory.Exec;
      hide Chain;
      hide Recoverable;
      hide Quiet;
      hide Marked;
      hide Noted;
      hide Holds;
      hide NoneFull;
      pool := new Pool.Open(file);
      new;
      OpenedWith(file, t, pool.pm.trace, pool.pm.now);
    }

    ghost predicate CursorOk()
      reads pool, pool.pm, pool.pm.mem
    {
      IsClump(pool.pm.now.mem, pool.Cursor())
    }

    /** Compares a word with the text of the node at p, byte by byte. */
    method CompareText(x: seq<nat>, p: nat, ghost count: nat, ghost text: seq<nat>) returns (d: int)
      requires pool.pm.Valid() && Text(x) && NodeAt(Whole(pool.pm.now.mem), p, count, text)
      ensures d == Compare(x, text)
      ensures (d == 0 <==> x == text) && (d < 0 <==> Precedes(x, text)) && (d > 0 <==> Precedes(text, x))
    {
      hide Precedes;
      CompareEqual(x, text);
      ComparePrecedes(x, text);
      ComparePrecedes(text, x);
      ghost var m := Whole(pool.pm.now.mem);
      var i := 0;
      while true
        invariant 0 <= i <= |x| && i <= |text| && x[..i] == text[..i]
        decreases |x| - i
      {
        CompareDrop(x, text, i);
        assert CharAt(m, p, i, Char(text, i));
        var c := Digit(pool.pm.mem[CharWord(p, i)], (i + 4) % 8);
        if i == |x| {
          return if c == 0 then 0 else -1;
        } else if x[i] < c {
          return -1;
        } else if x[i] > c {
          return 1;
        }
        assert i < |text|;
        i := i + 1;
      }
    }

    /** A plain store into the node under way. */
    method FillNode(at: nat, x: seq<nat>, w: nat, v: nat)
      requires pool.Valid() && Held(pool.pm.now, at, x) && w in NodeSet(at, x)
      modifies pool.pm, pool.pm.mem, pool.pm.disk
      ensures pool.Valid() && pool.Headers() == old(pool.Headers()) && Held(pool.pm.now, at, x)
      ensures w < |old(pool.pm.now.mem)| && pool.pm.now.mem == old(pool.pm.now.mem)[w := v]
      ensures pool.pm.now == Exec(old(pool.pm.now), [Store(w, v)])
      ensures pool.pm.trace == old(pool.pm.trace) + [Store(w, v)]
    {
      hide PersistentMemory.Exec;
      hide Chain;
      hide Quiet;
      hide Held;
      hide Filled;
      ghost var s := pool.pm.now;
      HeldHidden(s, at, x, w);
      ghost var r := FilledOne(s, at, x, w, v);
      FillLegal(s, Chain(s.mem), w, v);
      pool.Fill(w, v);
      CalledRuns(s, FIRST, Command.Fill(w, v), pool.pm.now);
    }

    /** Fills the node under way: null pointers, a count of one, then strcpy. */
    method WriteNode(at: nat, x: seq<nat>)
      requires pool.Valid() && Held(pool.pm.now, at, x) && Text(x)
      modifies pool.pm, pool.pm.mem, pool.pm.disk
      ensures pool.Valid() && pool.Headers() == old(pool.Headers())
      ensures pool.pm.now == Exec(old(pool.pm.now), NodeSteps(old(pool.pm.now.mem), at, x))
      ensures pool.pm.trace == old(pool.pm.trace) + NodeSteps(old(pool.pm.now.mem), at, x)
    {
      hide PersistentMemory.Exec;
      hide Chain;
      hide Quiet;
      hide Held;
      hide FieldSteps;
      hide Memory;
      ghost var s, t0 := pool.pm.now, pool.pm.trace;
      WriteFields(at, x);
      QuietMemory(s, FieldSteps(s.mem, at));
      HeldRoom(s, at, x);
      ExecConcat(s, FieldSteps(s.mem, at), TextSteps(pool.pm.now.mem, at, x, 0));
      CopyText(at, x);
    }

    method CopyText(at: nat, x: seq<nat>)
      requires pool.Valid() && Held(pool.pm.now, at, x) && Text(x)
      modifies pool.pm, pool.pm.mem, pool.pm.disk
      ensures pool.Valid() && pool.Headers() == old(pool.Headers())
      ensures pool.pm.now == Exec(old(pool.pm.now), TextSteps(old(pool.pm.now.mem), at, x, 0))
      ensures pool.pm.trace == old(pool.pm.trace) + TextSteps(old(pool.pm.now.mem), at, x, 0)
    {
      hide PersistentMemory.Exec;
      hide Chain;
      hide Quiet;
      hide Held;
      hide TextSteps;
      hide NodeSet;
      ghost var s, rest := pool.pm.now, TextSteps(pool.pm.now.mem, at, x, 0);
      ghost var done: seq<Instr> := [];
      ExecNothing(s);
      NodeParts(at, x);
      var i := 0;
      while i <= |x|
        invariant 0 <= i <= |x| + 1
        invariant pool.Valid() && pool.Headers() == Chain(s.mem) && Held(pool.pm.now, at, x)
        invariant pool.pm.now == Exec(s, done) && pool.pm.trace == old(pool.pm.trace) + done
        invariant done + TextSteps(pool.pm.now.mem, at, x, i) == rest
      {
        ghost var m := pool.pm.now.mem;
        var c := if i < |x| then x[i] else 0;
        HeldWord(pool.pm.now, at, x, i);
        var w := CharWord(at, i);
        var v := SetDigit(pool.pm.mem[w], (i + 4) % 8, c);
        FillNode(at, x, w, v);
        NextChar(m, at, x, i, done);
        ExecConcat(s, done, [Store(w, v)]);
        done := done + [Store(w, v)];
        i := i + 1;
      }
      TextOver(pool.pm.now.mem, at, x, done);
    }

    method WriteFields(at: nat, x: seq<nat>)
      requires pool.Valid() && Held(pool.pm.now, at, x)
      modifies pool.pm, pool.pm.mem, pool.pm.disk
      ensures pool.Valid() && pool.Headers() == old(pool.Headers()) && Held(pool.pm.now, at, x)
      ensures at + 2 < |old(pool.pm.now.mem)|
      ensures pool.pm.now == Exec(old(pool.pm.now), FieldSteps(old(pool.pm.now.mem), at))
      ensures pool.pm.trace == old(pool.pm.trace) + FieldSteps(old(pool.pm.now.mem), at)
    {
      hide PersistentMemory.Exec;
      hide Chain;
      hide Quiet;
      hide Held;
      hide NodeSet;
      ghost var s := pool.pm.now;
      NodeParts(at, x);
      HeldRoom(s, at, x);
      FillNode(at, x, at + 1, 0);
      FillNode(at, x, at, 0);
      FillNode(at, x, at + 2, SetLow(pool.pm.mem[at + 2], 1));
      HeldSane(s, at, x);
      FieldsRun(s, at);
    }

    /** Hangs the finished node into `slot`. */
    method Hang(at: nat, x: seq<nat>, slot: nat)
      requires pool.Valid() && Held(pool.pm.now, at, x) && Written(pool.pm.now.mem, at, x, |x| + 1) && Text(x)
      requires Planted(Sight(pool.pm.now).words, slot, Leaf)
      modifies pool.pm, pool.pm.mem, pool.pm.disk
      ensures pool.Valid() && pool.Headers() == old(pool.Headers())
      ensures pool.pm.now == Exec(old(pool.pm.now), HangSteps(old(pool.pm.now.mem), at, slot))
      ensures pool.pm.trace == old(pool.pm.trace) + HangSteps(old(pool.pm.now.mem), at, slot)
    {
      hide PersistentMemory.Exec;
      hide Chain;
      hide Quiet;
      hide Held;
      hide Pledged;
      hide Called;
      hide Registered;
      hide Committed;
      hide ViewAfter;
      hide ActivateSteps;
      hide RegisterSteps;
      hide NodeAt;
      hide Legal;
      hide Index;
      hide Bounds;
      hide FreeSlot;
      hide Memory;
      hide Did;
      hide Written;
      ghost var s := pool.pm.now;
      ghost var h := at - 8;
      HeldRegisters(s, at, x, slot);
      ghost var a := Pledging(s, at, x, slot);
      var registered := pool.OnActive(8 * at, 8 * slot, 8 * at);
      CalledRuns(s, FIRST, Command.OnActive(h, 8 * slot, 8 * at), pool.pm.now);
      assert pool.pm.now == a;
      PledgeKeepsNode(s, at, x, slot, a);
      PledgedReady(a, at, x, slot);
      CommitSizes(s, a, Chain(s.mem), at - 8, 8 * slot, 8 * at);
      pool.Activate(8 * at);
      CalledRuns(a, FIRST, Command.Activate(h), pool.pm.now);
      ExecConcat(s, RegisterSteps(at - 8, FreeSlot(s.mem, at - 8), 8 * slot, 8 * at), ActivateSteps(a.mem, at - 8));
    }

    /** Not enough room for a node of this word, from the cursor on. */
    ghost predicate NoRoom(x: seq<nat>)
      requires Valid() && NodeSize(x) + 127 < TWO_64 && CursorOk()
      reads pool, pool.pm, pool.pm.mem, pool.pm.disk
    {
      var m, hs := pool.pm.now.mem, pool.Headers();
      forall i :: Index(hs, pool.Cursor()) <= i < |hs| - 1 ==> !Fits(m[hs[i]], ClumpBytes(NodeSize(x)))
    }

    lemma NothingFits(x: seq<nat>)
      requires Valid() && NodeSize(x) + 127 < TWO_64 && CursorOk() && NodeFit(pool.pm.now.mem, pool.Cursor(), x) == 0
      ensures NoRoom(x)
    {
      NoClumpFits(pool.pm.now, pool.Cursor(), x);
    }

    ghost predicate Valid()
      reads pool, pool.pm, pool.pm.mem, pool.pm.disk
    {
      pool.Valid()
    }

    /** A new node behind the empty pointer in `slot`. */
    method InsertHere(slot: nat, x: seq<nat>) returns (ok: bool)
      requires Valid() && CursorOk() && Text(x) && NodeSize(x) + 127 < TWO_64
      requires Planted(Sight(pool.pm.now).words, slot, Leaf)
      modifies pool.pm, pool.pm.mem, pool.pm.disk, pool`gclp
      ensures Valid()
      ensures Issued(old(pool.pm.now), old(pool.pm.trace), HereSteps(old(pool.pm.now.mem), old(pool.Cursor()), slot, x))
      ensures ok <==> NodeFit(old(pool.pm.now.mem), old(pool.Cursor()), x) != 0
      ensures pool.Cursor() == PlaceCursor(old(pool.pm.now.mem), old(pool.Cursor()), x, Empty(slot))
    {
      hide Reserves;
      hide Bounds;
      hide Sight;
      hide PersistentMemory.Exec;
      hide Chain;
      hide Quiet;
      hide Held;
      hide Called;
      hide Did;
      hide NodeSize;
      hide NodeSteps;
      hide HangSteps;
      hide ReserveProgram;
      hide CallSteps;
      hide Filled;
      hide Written;
      hide Memory;
      hide HereSteps;
      hide NodeFit;
      hide ReserveResult;
      hide Planted;
      hide TidyBut;
      ghost var s, cursor, size := pool.pm.now, pool.Cursor(), NodeSize(x);
      ghost var a := ReserveRuns(s, cursor, x);
      a := ReservedNode(s, cursor, x);
      var ptr := pool.Reserve(NodeSize(x));
      CalledRuns(s, cursor, Command.Reserve(size), pool.pm.now);
      ReservedWhere(s, cursor, x, ptr, pool.pm.now.mem, pool.Headers());
      assert pool.pm.now == a;
      if ptr == 0 {
        ExecNothing(s);
        return false;
      }
      ghost var c := NodeFit(s.mem, cursor, x);
      ghost var b := NodeFilled(a, c + 8, x);
      FilledHeld(a, NodeSteps(a.mem, c + 8, x), b, c + 8, x);
      WriteNode(ptr / 8, x);
      Hang(ptr / 8, x, slot);
      QuietSane(s);
      QuietSane(a);
      HereRuns(s, cursor, slot, x, a, b);
      ok := true;
    }

    /** The stores and persists since `trace` are those of `prog`. */
    ghost predicate Issued(s: Pm, trace: seq<Instr>, prog: seq<Instr>)
      reads pool.pm
    {
      pool.pm.trace == trace + prog && pool.pm.now == Exec(s, prog)
    }

    /** One more of the word at the node p. */
    method Bump(p: nat, ghost slot: nat, ghost t: Tree)
      requires Valid() && t.Node? && t.at == p && Planted(Sight(pool.pm.now).words, slot, t)
      modifies pool.pm, pool.pm.mem, pool.pm.disk
      ensures Valid() && Issued(old(pool.pm.now), old(pool.pm.trace), BumpSteps(old(pool.pm.now.mem), p))
    {
      hide PersistentMemory.Exec;
      hide Chain;
      hide Quiet;
      hide Called;
      hide RecoveryFacts.Living;
      hide Visible;
      hide Bounds;
      hide Planted;
      ghost var s := pool.pm.now;
      BumpReady(s, slot, t);
      var count := (Low(pool.pm.mem[p + 2]) + 1) % TWO_32;
      var v := SetLow(pool.pm.mem[p + 2], count);
      PokeLegal(s, p + 2, v);
      pool.Poke(p + 2, v, 4);
      CalledRuns(s, FIRST, Command.Poke(p + 2, v, 4), pool.pm.now);
    }

    /** Inserts a word below the pointer in `slot`, or bumps its count. */
    method InsertSubtree(slot: nat, x: seq<nat>, ghost t: Tree, ghost depth: nat) returns (ok: bool)
      requires Valid() && CursorOk() && Text(x) && NodeSize(x) + 127 < TWO_64
      requires Planted(Sight(pool.pm.now).words, slot, t) && Apart(t) && slot !in Footprint(t) && depth > Nodes(t)
      modifies pool.pm, pool.pm.mem, pool.pm.disk, pool`gclp
      ensures Valid() && CursorOk()
      ensures var m, cursor := old(pool.pm.now.mem), old(pool.Cursor());
              var place := Descend(m, slot, x, depth);
              && Issued(old(pool.pm.now), old(pool.pm.trace), PlaceSteps(m, cursor, x, place))
              && (ok <==> PlaceOk(m, cursor, x, place)) && pool.Cursor() == PlaceCursor(m, cursor, x, place)
              && Grew(old(pool.pm.now), PlaceSteps(m, cursor, x, place), pool.pm.now, slot, t, x,
                      PlaceNode(m, cursor, x), ok)
      ensures !ok ==> !Finds(t, x) && old(NoRoom(x))
      decreases t
    {
      hide Sight;
      hide PersistentMemory.Exec;
      hide Chain;
      hide Quiet;
      hide NodeAt;
      hide NodeFit;
      hide NodeSize;
      hide HereSteps;
      hide BumpSteps;
      hide CompareFrom;
      hide Planted;
      hide Grew;
      hide IsClump;
      hide Footprint;
      hide NoRoom;
      ghost var s, cursor := pool.pm.now, pool.Cursor();
      ghost var r := SubtreeInserted(s, cursor, slot, x, t, depth);
      if NodeFit(s.mem, cursor, x) == 0 { NothingFits(x); }
      SlotRead(s, slot, t);
      var p := pool.pm.mem[slot];
      if p == 0 {
        ok := InsertHere(slot, x);
        return;
      }
      PlantedParts(s, slot, t);
      ApartParts(t);
      ComparesText(s.mem, t.at, t.count, t.text, x, 0);
      var d := CompareText(x, p / 8, t.count, t.text);
      if d == 0 {
        Bump(p / 8, slot, t);
        ok := true;
      } else if d < 0 {
        ok := InsertSubtree(p / 8, x, t.left, depth - 1);
      } else {
        ok := InsertSubtree(p / 8 + 1, x, t.right, depth - 1);
      }
    }

    /** Inserts a word or bumps its count: all or nothing, and no memory is lost. */
    method Insert(x: seq<nat>, ghost t: Tree) returns (ok: bool, ghost at: nat)
      requires Valid() && CursorOk() && Text(x) && NodeSize(x) + 127 < TWO_64
      requires Holds(Sight(pool.pm.now), t)
      modifies pool.pm, pool.pm.mem, pool.pm.disk, pool`gclp
      ensures Valid() && CursorOk()
      ensures var m, cursor := old(pool.pm.now.mem), old(pool.Cursor());
              && Issued(old(pool.pm.now), old(pool.pm.trace), InsertSteps(m, cursor, x))
              && (ok <==> InsertOk(m, cursor, x)) && pool.Cursor() == InsertCursor(m, cursor, x)
              && Inserted(old(pool.pm.now), InsertSteps(m, cursor, x), pool.pm.now, t, x, at, ok)
      ensures ok ==> var es, fs := Entries(t), Entries(Grown(t, x, at));
                     && fs.Keys == es.Keys + {x} && fs[x] == (if x in es then (es[x] + 1) % 0x1_0000_0000 else 1)
                     && (forall w :: w in es && w != x ==> fs[w] == es[w]) && fs == Bumped(es, x)
      ensures ok && x !in Entries(t) ==> at >= 8 && HoldsNode(old(pool.pm.now.mem), pool.pm.now.mem, at - 8, |x|)
      ensures old(Marked(pool.pm.now, t)) ==> Marked(pool.pm.now, if ok then Grown(t, x, at) else t)
      ensures old(Marked(pool.pm.now, t) && NoneFull(pool.pm.now.mem, t)) ==>
                NoneFull(pool.pm.now.mem, if ok then Grown(t, x, at) else t)
      ensures !ok ==> x !in Entries(t) && Sight(pool.pm.now) == old(Sight(pool.pm.now)) && old(NoRoom(x))
    {
      hide Entries;
      hide Bumped;
      hide IsClump;
      hide HoldsNode;
      hide PersistentMemory.Exec;
      hide Chain;
      hide Quiet;
      hide Sight;
      hide PlaceSteps;
      hide Descend;
      hide NodeFit;
      hide Grown;
      hide Holds;
      hide Noted;
      hide NoneFull;
      hide Tidy;
      ghost var s, cursor := pool.pm.now, pool.Cursor();
      TreeSmall(s, t);
      ClumpTakesClump(s, cursor, x);
      ghost var r := WordInserted(s, cursor, x, t);
      FindsEntries(t, x);
      at := PlaceNode(s.mem, cursor, x);
      ok := InsertSubtree(STATIC_WORD, x, t, |s.mem| + 1);
      assert pool.pm.now == r;
      GrownCounts(t, x, at);
      if Marked(s, t) { InsertedMarked(s, InsertSteps(s.mem, cursor, x), r, t, x, at, ok); }
    }

    /** Frees the node behind `slot`, once its subtrees are gone; refused when its list is full. */
    method FreeNode(slot: nat, ghost t: Tree) returns (ok: bool)
      requires Valid() && Tidy(pool.pm.now) && Removable(pool.pm.now, slot, t)
      requires t.Node? && t.left.Leaf? && t.right.Leaf?
      modifies pool.pm, pool.pm.mem, pool.pm.disk
      ensures Valid()
      ensures var d := NodeFree(old(pool.pm.now.mem), slot);
              && Issued(old(pool.pm.now), old(pool.pm.trace), d.prog) && (ok <==> d.ok)
              && FreedTo(old(pool.pm.now), d, pool.pm.now, slot, t, if ok then Leaf else t)
      ensures t.at >= 8 && t.at <= |old(pool.pm.now.mem)| && (ok <==> FreeSlot(old(pool.pm.now.mem), t.at - 8) < 3)
    {
      hide PersistentMemory.Exec;
      hide Chain;
      hide Quiet;
      hide Called;
      hide Registered;
      hide Freed;
      hide Tidy;
      hide Leaving;
      hide FreedTo;
      hide FreeSteps;
      hide RegisterSteps;
      hide Removable;
      hide OnlyClears;
      hide FreeSlot;
      hide Registers;
      hide Memory;
      hide FreeProgram;
      hide DidWithin;
      hide NodeFree;
      hide TookDown;
      hide Carried;
      hide CanCommit;
      hide Legal;
      hide Index;
      hide Bounds;
      hide Sight;
      ghost var s := pool.pm.now;
      NodeFacts(s, slot, t);
      SightReads(s, slot);
      ghost var h := t.at - 8;
      NodeRegisters(s, h, slot);
      ghost var r := NodeFreed(s, slot, t);
      ok := pool.OnFree(pool.pm.mem[slot], 8 * slot, 0);
      if !ok {
        FullFree(s.mem, slot, t.at);
        ExecNothing(s);
        return;
      }
      ghost var a := Unlinking(s, slot, t);
      CalledRuns(s, FIRST, Command.OnFree(h, 8 * slot, 0), pool.pm.now);
      assert pool.pm.now == a;
      LeavingReady(a, h, slot);
      pool.Free(pool.pm.mem[slot]);
      FreeProgramIs(a, h, pool.pm.now);
      UnlinkRuns(s, slot, t, a);
    }

    /** Frees the subtree behind `slot`: left, right, then the node.  It stops at a node whose list is
        full; p is what is left. */
    method FreeSubtree(slot: nat, ghost t: Tree, ghost depth: nat) returns (ok: bool, ghost p: Tree)
      requires Valid() && Tidy(pool.pm.now) && Removable(pool.pm.now, slot, t) && depth > Nodes(t)
      modifies pool.pm, pool.pm.mem, pool.pm.disk
      ensures Valid()
      ensures var d := TreeFree(old(pool.pm.now.mem), slot, depth);
              && Issued(old(pool.pm.now), old(pool.pm.trace), d.prog) && (ok <==> d.ok)
              && FreedTo(old(pool.pm.now), d, pool.pm.now, slot, t, p)
      ensures (ok <==> NoneFull(old(pool.pm.now.mem), t)) && (ok ==> p == Leaf)
      decreases t
    {
      hide Bounds;
      hide PersistentMemory.Exec;
      hide Chain;
      hide Quiet;
      hide Sight;
      hide Tidy;
      hide FreedTo;
      hide Removable;
      hide FreeSlot;
      hide Memory;
      hide NodeFree;
      hide NoneFull;
      hide Carried;
      hide TookDown;
      hide TreeFree;
      ghost var s := pool.pm.now;
      RemovableRead(s, slot, t);
      if t.Leaf? { EmptyFree(s.mem, slot, depth); }
      if pool.pm.mem[slot] == 0 {
        EmptyFull(s.mem);
        NothingFreed(s, slot, t, true);
        ExecNothing(s);
        return true, Leaf;
      }
      FullNode(s.mem, t);
      RemovableSides(s, slot, t);
      ghost var left := TreeFree(s.mem, t.at, depth - 1);
      ok, p := FreeSubtree(pool.pm.mem[slot] / 8, t.left, depth - 1);
      ghost var a, t' := pool.pm.now, t.(left := p);
      LeftFreed(s, left, a, slot, t, p);
      ghost var right := TreeFree(a.mem, t.at + 1, depth - 1);
      TreeFreeIs(s.mem, slot, depth, t.at, a.mem, Memory(a.mem, right.prog));
      if !ok { return false, t'; }
      RemovableSides(a, slot, t');
      ok, p := FreeSubtree(pool.pm.mem[slot] / 8 + 1, t'.right, depth - 1);
      ghost var b, t'' := pool.pm.now, t'.(right := p);
      RightFreed(a, right, b, slot, t', p);
      FreedTwice(s, left, a, right, b, slot, t, t', t'');
      ExecConcat(s, left.prog, right.prog);
      if !ok { return false, t''; }
      ok := FreeNode(slot, t'');
      p := if ok then Leaf else t'';
      FreedTwice(s, Both(left, right), b, NodeFree(b.mem, slot), pool.pm.now, slot, t, t'', p);
      ExecConcat(s, left.prog + right.prog, NodeFree(b.mem, slot).prog);
    }

    /** Frees the whole tree, or stops at a node whose list is full.  The cursor is a clump afterwards
        exactly if it was one and no free on the way merged it away. */
    method Free(ghost t: Tree) returns (ok: bool, ghost p: Tree)
      requires Valid() && Marked(pool.pm.now, t)
      modifies pool.pm, pool.pm.mem, pool.pm.disk
      ensures Valid() && Marked(pool.pm.now, p) && Prunes(p, t)
      ensures (ok <==> NoneFull(old(pool.pm.now.mem), t)) && (ok ==> p == Leaf && Sight(pool.pm.now).live == map[])
      ensures forall w :: w in Entries(p) ==> w in Entries(t) && Entries(t)[w] == Entries(p)[w]
      ensures var d := FreeAll(old(pool.pm.now.mem));
              && Issued(old(pool.pm.now), old(pool.pm.trace), d.prog) && (ok <==> d.ok)
              && DidWithin(old(pool.pm.now), d.prog, pool.pm.now,
                           Cuts(old(Sight(pool.pm.now)), old(pool.pm.now.mem), STATIC_WORD, t))
              && (CursorOk() <==> old(CursorOk()) && Survived(d.frees, pool.Cursor()))
      ensures ok && t.Node? ==> (CursorOk() <==> pool.Cursor() == FIRST)
    {
      hide Sight;
      hide PersistentMemory.Exec;
      hide Chain;
      hide Quiet;
      hide DidWithin;
      hide Cuts;
      hide Tidy;
      hide Removable;
      hide NoneFull;
      hide Survived;
      hide TreeFree;
      hide CutIn;
      ghost var s := pool.pm.now;
      MarkedRemovable(s, t);
      TreeSmall(s, t);
      ghost var r;
      r, p := AllFreed(s, t);
      ghost var q;
      ok, q := FreeSubtree(STATIC_WORD, t, |s.mem| + 1);
      assert pool.pm.now == r;
    }

    /** The words and their counts, in order. */
    method Walk(ghost t: Tree) returns (out: seq<(seq<nat>, nat)>)
      requires Valid() && Holds(Sight(pool.pm.now), t)
      ensures out == InOrder(t) && |out| == Nodes(t)
      ensures forall w, c: nat :: (w, c) in out <==> w in Entries(t) && Entries(t)[w] == c
      ensures forall i, j :: 0 <= i < j < |out| ==> Precedes(out[i].0, out[j].0)
    {
      hide Precedes;
      InOrderLists(t);
      WholePlanted(pool.pm.now, STATIC_WORD, t);
      out := WalkSubtree(pool.pm.mem[STATIC_WORD], STATIC_WORD, t);
    }

    method WalkSubtree(root: nat, ghost slot: nat, ghost t: Tree) returns (out: seq<(seq<nat>, nat)>)
      requires pool.pm.Valid() && slot < pool.pm.mem.Length && root == pool.pm.mem[slot]
      requires Planted(Whole(pool.pm.now.mem), slot, t)
      ensures out == InOrder(t)
      decreases t
    {
      out := [];
      if root != 0 {
        NodeParts(t.at, t.text);
        var left := WalkSubtree(pool.pm.mem[root / 8], t.at, t.left);
        var text := ReadText(root / 8, t.count, t.text);
        var right := WalkSubtree(pool.pm.mem[root / 8 + 1], t.at + 1, t.right);
        out := left + [(text, Low(pool.pm.mem[root / 8 + 2]))] + right;
      }
    }

    method ReadText(p: nat, ghost count: nat, ghost text: seq<nat>) returns (s: seq<nat>)
      requires pool.pm.Valid() && NodeAt(Whole(pool.pm.now.mem), p, count, text)
      ensures s == text
    {
      s := [];
      while true
        invariant |s| <= |text| && s == text[..|s|]
        decreases |text| - |s|
      {
        assert CharAt(Whole(pool.pm.now.mem), p, |s|, Char(text, |s|));
        var c := Digit(pool.pm.mem[CharWord(p, |s|)], (|s| + 4) % 8);
        if c == 0 { return; }
        assert text[..|s| + 1] == text[..|s|] + [text[|s|]];
        s := s + [c];
      }
    }
  }
}
