/** The allocator itself, word by word and persist by persist. */
module Allocator {
  import opened PersistentMemory
  import opened PoolImage
  import opened RecoveryFacts
  import opened CrashSafety
  import opened Finishing
  import opened Activation
  import opened Rechaining
  import opened Coalescing
  import opened Reserving
  import opened Registering
  import opened Recovering
  import opened Calls
  import opened Runs
  import StaleCursor

  class Pool {
    const pm: Pmem
    /** The clump reserved last, as a word index; 0 before the first reservation. */
    var gclp: nat

    ghost predicate Valid()
      reads this, pm, pm.mem, pm.disk
    {
      pm.Valid() && Quiet(pm.now, Chain(pm.now.mem))
    }

    ghost function Headers(): seq<nat>
      reads this, pm, pm.mem
    {
      Chain(pm.now.mem)
    }

    /** What a program restarted after a crash would see. */
    ghost function Durable(): View
      requires Valid()
      reads this, pm, pm.mem, pm.disk
    {
      ViewOf(pm.now.mem, Headers())
    }

    // ---------------------------------------------------------------------------------------
    // Opening
    // ---------------------------------------------------------------------------------------

    /** Maps a pool file and recovers it. */
    constructor Open(file: Image)
      requires |file| % 8 == 0 && Recoverable(file, Chain(file))
      ensures fresh(pm) && fresh(pm.mem) && fresh(pm.disk) && pm.Valid()
      ensures gclp == 0 && Restored(file, pm.trace, pm.now)
    {
      pm := new Pmem.Map(file);
      gclp := 0;
      new;
      Startup(file);
    }

    method Startup(ghost file: Image)
      requires pm.Valid() && pm.now == Boot(file) && pm.trace == [] && Recoverable(file, Chain(file))
      modifies pm, pm.mem, pm.disk
      ensures pm.Valid() && Restored(file, pm.trace, pm.now)
    {
      hide PersistentMemory.Exec;
      hide Step;
      hide RecoverFrom;
      hide CoalesceFrom;
      hide Recoverable;
      hide Tiled;
      hide NoTransit;
      hide Resolve;
      hide Chain;
      hide Restored;
      ghost var hs := Chain(file);
      RecoveredChain(file, hs);
      Recover(hs);
      ghost var a := pm.now;
      CoalesceFree(hs);
      OpenedWell(file, hs, a, pm.now);
      assert pm.trace == RecoverFrom(file, hs, 0) + CoalesceFrom(Resolve(file, hs), hs, 0);
    }

    /** One pass over the clumps: reserved ones are released, ones in transit are finished. */
    method Recover(ghost hs: seq<nat>)
      requires pm.Valid() && Recoverable(pm.now.mem, hs)
      modifies pm, pm.mem, pm.disk
      ensures pm.Valid() && pm.trace == old(pm.trace) + RecoverFrom(old(pm.now.mem), hs, 0)
      ensures pm.now == Exec(old(pm.now), RecoverFrom(old(pm.now.mem), hs, 0))
      ensures pm.now.mem == Resolve(old(pm.now.mem), hs)
    {
      hide Survives;
      hide PersistentMemory.Exec;
      hide Step;
      hide RecoverFrom;
      hide ResolveUpTo;
      hide ResolveClump;
      hide RecoverClump;
      hide Bounds;
      hide OwnListOk;
      hide Recoverable;
      hide Resolve;
      ghost var s, m := pm.now, pm.now.mem;
      ghost var done: seq<Instr> := [];
      var clp := FIRST;
      ghost var k := 0;
      RecoverStart(s, hs);
      while pm.mem[clp] != 0
        invariant pm.Valid() && pm.mem.Length == |m|
        invariant k < |hs| && clp == hs[k] && clp < |m| && Bounds(hs, |m|)
        invariant pm.trace == old(pm.trace) + done && pm.now == Exec(s, done)
        invariant pm.now.mem == ResolveUpTo(m, hs, k) && pm.mem[clp] == m[clp]
        invariant done + RecoverFrom(pm.now.mem, hs, k) == RecoverFrom(m, hs, 0)
        decreases |hs| - k
      {
        ghost var before := pm.now.mem;
        RecoverNext(m, hs, k);
        var sz := pm.mem[clp] - pm.mem[clp] % 64;
        var state := pm.mem[clp] % 64;
        SettleClump(clp, sz, state, hs, k);
        ExecConcat(s, done, RecoverClump(before, clp));
        done := done + RecoverClump(before, clp);
        k := k + 1;
        clp := clp + sz / 8;
      }
      RecoverEnd(m, hs, k);
      assert done + [] == done;
    }

    /** The switch of the recovery loop. */
    method SettleClump(clp: nat, sz: nat, state: nat, ghost hs: seq<nat>, ghost k: nat)
      requires pm.Valid() && Bounds(hs, pm.mem.Length) && k < |hs| - 1 && clp == hs[k]
      requires sz == Bytes(pm.mem[clp]) && state == State(pm.mem[clp]) && OwnListOk(pm.now.mem, hs, k)
      modifies pm, pm.mem, pm.disk
      ensures pm.Valid() && pm.trace == old(pm.trace) + RecoverClump(old(pm.now.mem), clp)
      ensures pm.now == Exec(old(pm.now), RecoverClump(old(pm.now.mem), clp))
      ensures pm.now.mem == ResolveClump(old(pm.now.mem), clp)
    {
      if state == RESERVED {
        PendingClump(pm.now.mem, clp);
        hide PersistentMemory.Exec;
        hide Step;
        hide ResolveClump;
        ClearOffsets(clp);
        StoreSize(clp, sz + FREE);
        ExecConcat(old(pm.now), ClearList(clp), SetSize(clp, sz + FREE));
      } else if state == ACTIVATING {
        FinishClump(clp, sz, ACTIVE, hs, k);
      } else if state == FREEING {
        FinishClump(clp, sz, FREE, hs, k);
      }
    }

    /** Merges runs of free neighbours, in one walk over the clumps. */
    method CoalesceFree(ghost hs: seq<nat>)
      requires pm.Valid() && Tiled(pm.now.mem, hs) && NoTransit(pm.now.mem, hs)
      modifies pm, pm.mem, pm.disk
      ensures pm.Valid() && pm.trace == old(pm.trace) + CoalesceFrom(old(pm.now.mem), hs, 0)
      ensures pm.now == Exec(old(pm.now), CoalesceFrom(old(pm.now.mem), hs, 0))
    {
      hide Survives;
      hide PersistentMemory.Exec;
      hide Step;
      hide Tiled;
      hide Bounds;
      hide NoTransit;
      hide CoalesceFrom;
      hide FreeRun;
      ghost var s, m := pm.now, pm.now.mem;
      ghost var gs, p, i, done: seq<Instr> := hs, 0, 0, [];
      var firstfree: nat, lastfree: nat, csize: nat := 0, 0, 0;
      var clp: nat := FIRST;
      WalkStart(s, hs);
      while pm.mem[clp] != 0
        invariant pm.Valid() && pm.mem.Length == |m|
        invariant Walking(pm.now.mem, gs, p, i, clp) && RunSeen(pm.now.mem, gs, p, i, firstfree, lastfree, csize)
        invariant pm.trace == old(pm.trace) + done && pm.now == Exec(s, done)
        invariant done + CoalesceFrom(pm.now.mem, gs, p) == CoalesceFrom(m, hs, 0)
        decreases |gs| - i
      {
        ghost var before := pm.now.mem;
        var sz := pm.mem[clp] - pm.mem[clp] % 64;
        var state := pm.mem[clp] % 64;
        WalkNext(before, gs, p, i, clp, firstfree, lastfree, csize);
        if state == FREE {
          if firstfree == 0 { firstfree := clp; } else { lastfree := clp; }
          csize := csize + sz;
          i := i + 1;
        } else if firstfree != 0 && lastfree != 0 {
          StoreSize(firstfree, csize + FREE);
          ExecConcat(s, done, SetSize(firstfree, csize));
          done := done + SetSize(firstfree, csize);
          gs := Joined(gs, p, i);
          p, i := p + 2, p + 2;
          firstfree, lastfree, csize := 0, 0, 0;
        } else {
          p, i := i + 1, i + 1;
          firstfree, lastfree, csize := 0, 0, 0;
        }
        clp := clp + sz / 8;
      }
      WalkEnd(pm.now.mem, gs, p, i, clp, firstfree, lastfree, csize);
      assert done + [] == done;
      if firstfree != 0 && lastfree != 0 {
        StoreSize(firstfree, csize + FREE);
        ExecConcat(s, done, SetSize(firstfree, csize));
      }
    }

    // ---------------------------------------------------------------------------------------
    // The calls
    // ---------------------------------------------------------------------------------------

    /** Where the next search starts. */
    function Cursor(): nat
      reads this
    {
      if gclp == 0 then FIRST else gclp
    }

    /** Reserves `size` bytes; 0 means that there is no room. */
    method Reserve(size: nat) returns (ptr: nat)
      requires Valid() && Legal(pm.now.mem, Headers(), Cursor(), Command.Reserve(size))
      modifies pm, pm.mem, pm.disk, this`gclp
      ensures Valid()
      ensures Called(old(pm.now), old(Cursor()), Command.Reserve(size), pm.now)
      ensures pm.trace ==
                old(pm.trace) + CallSteps(old(pm.now.mem), old(Headers()), old(Cursor()), Command.Reserve(size))
      ensures ReserveResult(old(pm.now.mem), old(Headers()), old(Cursor()), size, ptr, pm.now.mem, Headers())
      ensures Sight(pm.now) == old(Sight(pm.now))
      ensures ptr == 0 ==> gclp == old(gclp)
      ensures ptr != 0 ==> ptr == 8 * (gclp + 8)
      ensures var hs, from, bytes := old(Headers()), old(Index(Headers(), Cursor())), ClumpBytes(size);
              if ptr == 0 then
                forall i :: from <= i < |hs| - 1 ==>
                  State(old(pm.now.mem)[hs[i]]) != FREE || 8 * (hs[i + 1] - hs[i]) < bytes
              else Reserves(old(pm.now.mem), hs, from, bytes, gclp, pm.now.mem, Headers())
    {
      hide Index;
      hide Sight;
      hide Survives;
      hide Bounds;
      hide PersistentMemory.Exec;
      hide Step;
      hide Chain;
      hide Quiet;
      hide Legal;
      hide FirstFit;
      hide Called;
      hide ReserveResult;
      hide CallSteps;
      hide Tiled;
      hide ReserveSteps;
      hide Reserves;
      ghost var s, hs, m, cursor := pm.now, Headers(), pm.now.mem, Cursor();
      SearchStart(s, hs, cursor, size);
      var nsize := (size + 127) / 64 * 64;
      var clp: nat := if gclp == 0 then FIRST else gclp;
      ghost var i := Index(hs, cursor);
      while pm.mem[clp] != 0
        invariant pm.Valid() && pm.now == s && pm.trace == old(pm.trace) && gclp == old(gclp)
        invariant Searching(m, hs, i, clp, nsize, Index(hs, cursor))
        decreases |hs| - i
      {
        SearchNext(m, hs, i, clp, nsize, Index(hs, cursor));
        var sz := pm.mem[clp] - pm.mem[clp] % 64;
        var state := pm.mem[clp] % 64;
        if state == FREE && nsize <= sz {
          TakeClump(clp, sz, nsize, hs, i);
          gclp := clp;
          ptr := 8 * (clp + 8);
          ReserveFound(s, hs, cursor, size, i, pm.now);
          return;
        }
        clp := clp + sz / 8;
        i := i + 1;
      }
      ptr := 0;
      ReserveNone(s, hs, cursor, size, i, clp);
    }

    /** Splits the clump if at least two chunks are left over, wipes its list, and reserves it. */
    method TakeClump(clp: nat, sz: nat, nsize: nat, ghost hs: seq<nat>, ghost k: nat)
      requires pm.Valid() && Tiled(pm.now.mem, hs) && Fitting(pm.now.mem, hs, k, nsize)
      requires clp == hs[k] && sz == Bytes(pm.mem[clp])
      modifies pm, pm.mem, pm.disk
      ensures pm.Valid() && pm.trace == old(pm.trace) + ReserveSteps(old(pm.now.mem), clp, nsize)
      ensures pm.now == Exec(old(pm.now), ReserveSteps(old(pm.now.mem), clp, nsize))
    {
      hide Survives;
      hide PersistentMemory.Exec;
      hide Step;
      hide Tiled;
      hide Carve;
      hide Wipe;
      hide Fitting;
      ghost var s, m := pm.now, pm.now.mem;
      TakenWhere(m, hs, k, nsize);
      var leftover := sz - nsize;
      if leftover >= 128 {
        CarveAndWipe(clp + nsize / 8, leftover, clp);
      } else {
        WipeList(clp);
      }
      StoreSize(clp, (if leftover >= 128 then nsize else sz) + RESERVED);
      ExecConcat(s, Prepare(m, clp, nsize), SetSize(clp, ReservedSize(m[clp], nsize)));
    }

    method CarveAndWipe(n: nat, bytes: nat, h: nat)
      requires pm.Valid() && n + 8 <= pm.mem.Length && h + 8 <= pm.mem.Length
      modifies pm, pm.mem, pm.disk
      ensures pm.Valid() && pm.trace == old(pm.trace) + (Carve(n, bytes) + Wipe(h))
      ensures pm.now == Exec(old(pm.now), Carve(n, bytes) + Wipe(h))
    {
      hide PersistentMemory.Exec;
      hide Step;
      ghost var s := pm.now;
      CarveClump(n, bytes);
      WipeList(h);
      ExecConcat(s, Carve(n, bytes), Wipe(h));
    }

    method ZeroWords(n: nat, count: nat)
      requires pm.Valid() && n + count <= pm.mem.Length
      modifies pm, pm.mem, pm.disk
      ensures pm.Valid() && pm.trace == old(pm.trace) + Zero(n, count)
      ensures pm.now == Exec(old(pm.now), Zero(n, count))
    {
      hide Survives;
      ghost var s := pm.now;
      for i := 0 to count
        invariant pm.Valid() && pm.trace == old(pm.trace) + Zero(n, i) && pm.now == Exec(s, Zero(n, i))
      {
        pm.Write(n + i, 0);
        ExecOne(s, Zero(n, i), Store(n + i, 0));
      }
    }

    method CarveClump(n: nat, bytes: nat)
      requires pm.Valid() && n + 8 <= pm.mem.Length
      modifies pm, pm.mem, pm.disk
      ensures pm.Valid() && pm.trace == old(pm.trace) + Carve(n, bytes)
      ensures pm.now == Exec(old(pm.now), Carve(n, bytes))
    {
      hide Survives;
      ghost var s := pm.now;
      ZeroWords(n, 8);
      StoreSize(n, bytes);
      ExecConcat(s, Zero(n, 8), SetSize(n, bytes));
    }

    method WipeList(h: nat)
      requires pm.Valid() && h + 8 <= pm.mem.Length
      modifies pm, pm.mem, pm.disk
      ensures pm.Valid() && pm.trace == old(pm.trace) + Wipe(h)
      ensures pm.now == Exec(old(pm.now), Wipe(h))
    {
      hide Survives;
      ghost var s := pm.now;
      ZeroWords(h + 2, 6);
      pm.Flush(8 * h, 64);
      ExecOne(s, Zero(h + 2, 6), HeaderFlush(h));
    }

    /** Registers a store for the moment a reserved clump becomes active; refused when the
        list is full. */
    method OnActive(ptr: nat, parent: nat, nptr: nat) returns (ok: bool)
      requires Valid() && ptr % 8 == 0 && ptr >= 64
      requires Registers(pm.now.mem, Headers(), ptr / 8 - 8, RESERVED, parent)
      modifies pm, pm.mem, pm.disk
      ensures Valid() && Headers() == old(Headers()) && ptr / 8 <= |old(pm.now.mem)|
      ensures ok <==> FreeSlot(old(pm.now.mem), ptr / 8 - 8) < 3
      ensures ok ==> Called(old(pm.now), FIRST, Command.OnActive(ptr / 8 - 8, parent, nptr), pm.now)
      ensures ok ==> pm.trace == old(pm.trace) +
                     RegisterSteps(ptr / 8 - 8, FreeSlot(old(pm.now.mem), ptr / 8 - 8), parent, nptr)
      ensures ok ==> Registered(pm.now.mem, old(pm.now.mem), ptr / 8 - 8, parent, nptr)
      ensures !ok ==> pm.now == old(pm.now) && pm.trace == old(pm.trace)
      ensures Sight(pm.now) == old(Sight(pm.now))
    {
      hide Quiet;
      hide Registers;
      hide Survives;
      hide PersistentMemory.Exec;
      hide Step;
      hide Walk;
      hide Recoverable;
      hide RegisterSteps;
      hide FreeSlot;
      hide Registered;
      RegisterReady(pm.now, Headers(), ptr / 8 - 8, RESERVED, parent);
      if FreeSlot(pm.now.mem, ptr / 8 - 8) < 3 { RegisterDone(pm.now, Headers(), ptr / 8 - 8, parent, nptr); }
      ok := Register(ptr / 8 - 8, parent, nptr);
    }

    /** Registers a store for the moment an active clump is freed; refused when the
        list is full. */
    method OnFree(ptr: nat, parent: nat, nptr: nat) returns (ok: bool)
      requires Valid() && ptr % 8 == 0 && ptr >= 64
      requires Registers(pm.now.mem, Headers(), ptr / 8 - 8, ACTIVE, parent)
      modifies pm, pm.mem, pm.disk
      ensures Valid() && Headers() == old(Headers()) && ptr / 8 <= |old(pm.now.mem)|
      ensures ok <==> FreeSlot(old(pm.now.mem), ptr / 8 - 8) < 3
      ensures ok ==> Called(old(pm.now), FIRST, Command.OnFree(ptr / 8 - 8, parent, nptr), pm.now)
      ensures ok ==> pm.trace == old(pm.trace) +
                     RegisterSteps(ptr / 8 - 8, FreeSlot(old(pm.now.mem), ptr / 8 - 8), parent, nptr)
      ensures ok ==> Registered(pm.now.mem, old(pm.now.mem), ptr / 8 - 8, parent, nptr)
      ensures !ok ==> pm.now == old(pm.now) && pm.trace == old(pm.trace)
      ensures Sight(pm.now) == old(Sight(pm.now))
    {
      hide Quiet;
      hide Registers;
      hide Survives;
      hide PersistentMemory.Exec;
      hide Step;
      hide Walk;
      hide Recoverable;
      hide RegisterSteps;
      hide FreeSlot;
      hide Registered;
      RegisterReady(pm.now, Headers(), ptr / 8 - 8, ACTIVE, parent);
      if FreeSlot(pm.now.mem, ptr / 8 - 8) < 3 { RegisterDone(pm.now, Headers(), ptr / 8 - 8, parent, nptr); }
      ok := Register(ptr / 8 - 8, parent, nptr);
    }

    /** Takes the first entry with a zero offset, if there is one: the value first, then the offset. */
    method Register(clp: nat, parent: nat, nptr: nat) returns (ok: bool)
      requires pm.Valid() && clp + 8 <= pm.mem.Length
      modifies pm, pm.mem, pm.disk
      ensures pm.Valid() && (ok <==> FreeSlot(old(pm.now.mem), clp) < 3)
      ensures ok ==> pm.trace == old(pm.trace) + RegisterSteps(clp, FreeSlot(old(pm.now.mem), clp), parent, nptr)
      ensures ok ==> pm.now == Exec(old(pm.now), RegisterSteps(clp, FreeSlot(old(pm.now.mem), clp), parent, nptr))
      ensures !ok ==> pm.now == old(pm.now) && pm.trace == old(pm.trace)
    {
      hide Survives;
      hide FreeSlot;
      hide Sane;
      ghost var s := pm.now;
      hide PersistentMemory.Exec;
      hide Step;
      for i := 0 to 3
        invariant pm.Valid() && pm.now == s && pm.trace == old(pm.trace)
        invariant i <= FreeSlot(s.mem, clp)
      {
        if pm.mem[clp + 2 + 2 * i] == 0 {
          FirstFreeSlot(s.mem, clp, i);
          pm.Write(clp + 3 + 2 * i, nptr);
          pm.Flush(8 * clp, 64);
          pm.Write(clp + 2 + 2 * i, parent);
          pm.Flush(8 * clp, 64);
          ExecFour(s, Store(clp + 3 + 2 * i, nptr), HeaderFlush(clp), Store(clp + 2 + 2 * i, parent), HeaderFlush(clp));
          assert pm.trace == old(pm.trace) + RegisterSteps(clp, i, parent, nptr);
          return true;
        }
        SlotTaken(s.mem, clp, i);
      }
      return false;
    }

    /** Makes the memory at ptr durable, marks it in use and does the registered stores, all as one. */
    method Activate(ptr: nat)
      requires Valid() && ptr % 8 == 0 && ptr >= 64
      requires Legal(pm.now.mem, Headers(), FIRST, Command.Activate(ptr / 8 - 8))
      modifies pm, pm.mem, pm.disk
      ensures Valid() && Headers() == old(Headers())
      ensures Called(old(pm.now), FIRST, Command.Activate(ptr / 8 - 8), pm.now)
      ensures pm.trace == old(pm.trace) + ActivateSteps(old(pm.now.mem), ptr / 8 - 8)
      ensures var k := Index(old(Headers()), ptr / 8 - 8);
              && Committed(pm.now.mem, old(pm.now.mem), old(Headers()), k)
              && ViewAfter(Durable(), old(pm.now.mem), old(Headers()), k)
    {
      hide PersistentMemory.Exec;
      hide Step;
      hide Quiet;
      hide Walk;
      hide Called;
      hide Committed;
      hide ViewAfter;
      hide ActivateSteps;
      ghost var s, hs := pm.now, Headers();
      ghost var k := Index(hs, ptr / 8 - 8);
      ActivateReady(s, hs, ptr / 8 - 8, k);
      CommitWell(s, hs, ptr / 8 - 8, k);
      PersistAndCommit(ptr, hs, k);
    }

    /** The body of the activation: the payload, the deciding store, and the rest. */
    method PersistAndCommit(ptr: nat, ghost hs: seq<nat>, ghost k: nat)
      requires pm.Valid() && ptr % 8 == 0 && ptr >= 64 && ptr / 8 <= pm.mem.Length
      requires var clp, m := ptr / 8 - 8, pm.now.mem; var sz := Bytes(m[clp]); var a := m[clp := sz + ACTIVATING];
               && Bounds(hs, |m|) && k < |hs| - 1 && hs[k] == clp && m[clp] >= 64
               && ptr + m[clp] - 64 <= 8 * |m| && CommitSize(m[clp]) == sz + ACTIVATING
               && ListOk(a, hs, clp) && Transit(a[clp]) && Bytes(a[clp]) == sz && Settled(State(a[clp])) == ACTIVE
      modifies pm, pm.mem, pm.disk
      ensures pm.Valid() && pm.trace == old(pm.trace) + ActivateSteps(old(pm.now.mem), ptr / 8 - 8)
      ensures pm.now == Exec(old(pm.now), ActivateSteps(old(pm.now.mem), ptr / 8 - 8))
    {
      hide Survives;
      hide Transit;
      hide State;
      hide Settled;
      hide PersistentMemory.Exec;
      hide Step;
      hide Bounds;
      hide ListOk;
      hide Finish;
      hide SetSize;
      ghost var s := pm.now;
      var clp := ptr / 8 - 8;
      var sz := pm.mem[clp] - pm.mem[clp] % 64;
      pm.Flush(ptr, pm.mem[clp] - 64);
      assert pm.now.mem == s.mem by { StepFlush(s, ptr, s.mem[clp] - 64); }
      StoreSize(clp, sz + ACTIVATING);
      FinishClump(clp, sz, ACTIVE, hs, k);
      ExecThree(s, Persist(ptr, s.mem[clp] - 64), SetSize(clp, sz + ACTIVATING),
                Finish(s.mem[clp := sz + ACTIVATING], clp));
    }

    /** Frees a clump: an active one commits to it, does its registered stores and becomes free; a
        reserved one becomes free at once.  Then free neighbours are merged. */
    method Free(ptr: nat)
      requires Valid() && ptr % 8 == 0 && ptr >= 64
      requires Legal(pm.now.mem, Headers(), FIRST, Command.Free(ptr / 8 - 8))
      modifies pm, pm.mem, pm.disk
      ensures Valid()
      ensures Called(old(pm.now), FIRST, Command.Free(ptr / 8 - 8), pm.now)
      ensures pm.trace == old(pm.trace) + FreeSteps(old(pm.now.mem), old(Headers()), ptr / 8 - 8)
      ensures Freed(old(pm.now.mem), old(Headers()), Index(old(Headers()), ptr / 8 - 8), pm.now.mem, Headers())
      ensures old(Index(Headers(), Cursor()) < |Headers()| - 1) ==>
                (Cursor() in Headers() <==>
                 !StaleCursor.MergesDown(old(pm.now.mem), old(Headers()), old(Index(Headers(), ptr / 8 - 8)),
                                         old(Index(Headers(), Cursor()))))
    {
      hide Survives;
      hide Index;
      hide PersistentMemory.Exec;
      hide Step;
      hide Walk;
      hide Recoverable;
      hide Called;
      hide Freed;
      hide FreeCore;
      hide CoalesceFrom;
      hide FreedImage;
      ghost var s, hs := pm.now, Headers();
      ghost var k := Index(hs, ptr / 8 - 8);
      FreeReady(s, hs, ptr / 8 - 8, k);
      FreeClump(ptr / 8 - 8, hs, k);
      ghost var a := pm.now;
      CoalesceFree(hs);
      FreeDone(s, hs, ptr / 8 - 8, k, a, pm.now);
      FreedCursor(s, hs, k, Cursor(), pm.now.mem, Headers());
    }

    /** The body of the call up to the merging pass. */
    method FreeClump(clp: nat, ghost hs: seq<nat>, ghost k: nat)
      requires pm.Valid() && clp + 8 <= pm.mem.Length
      requires CanFreeHere(pm.now.mem, hs, k, clp)
      modifies pm, pm.mem, pm.disk
      ensures pm.Valid() && pm.trace == old(pm.trace) + FreeCore(old(pm.now.mem), clp)
      ensures pm.now == Exec(old(pm.now), FreeCore(old(pm.now.mem), clp))
    {
      hide Survives;
      hide PersistentMemory.Exec;
      hide Step;
      hide ListOk;
      hide Bounds;
      hide ReplayList;
      hide Replay;
      hide ClearList;
      hide Clear;
      hide SetSize;
      ghost var s := pm.now;
      var sz := pm.mem[clp] - pm.mem[clp] % 64;
      var state := pm.mem[clp] % 64;
      if state == ACTIVE {
        ghost var m := s.mem[clp := sz + FREEING];
        FreeingWord(s.mem, clp, sz, hs, k);
        StoreSize(clp, sz + FREEING);
        RunList(clp, hs, k);
        ClearOffsets(clp);
        StoreSize(clp, sz + FREE);
        ExecFive(s, SetSize(clp, sz + FREEING), ReplayList(m, clp), ClearList(clp), SetSize(clp, sz + FREE));
      } else {
        StoreSize(clp, sz + FREE);
      }
    }

    // ---------------------------------------------------------------------------------------
    // Stores of the client
    // ---------------------------------------------------------------------------------------

    /** A plain store into reserved memory. */
    method Fill(w: nat, v: nat)
      requires Valid() && Legal(pm.now.mem, Headers(), FIRST, Command.Fill(w, v)) && w < pm.mem.Length
      modifies pm, pm.mem, pm.disk
      ensures Valid() && Headers() == old(Headers())
      ensures Called(old(pm.now), FIRST, Command.Fill(w, v), pm.now)
      ensures pm.trace == old(pm.trace) + [Store(w, v)]
      ensures pm.now.mem == old(pm.now.mem)[w := v] && Sight(pm.now) == old(Sight(pm.now))
    {
      hide PersistentMemory.Exec;
      hide Walk;
      hide Recoverable;
      FillDone(pm.now, Headers(), w, v);
      pm.Write(w, v);
    }

    /** A store into visible memory and its persist. */
    method Poke(w: nat, v: nat, len: nat)
      requires Valid() && Legal(pm.now.mem, Headers(), FIRST, Command.Poke(w, v, len))
      requires 8 * w + len <= 8 * pm.mem.Length
      modifies pm, pm.mem, pm.disk
      ensures Valid() && Headers() == old(Headers())
      ensures Called(old(pm.now), FIRST, Command.Poke(w, v, len), pm.now)
      ensures pm.trace == old(pm.trace) + [Store(w, v), Persist(8 * w, len)]
      ensures pm.now.mem == old(pm.now.mem)[w := v]
      ensures Sight(pm.now) == old(Sight(pm.now)).(words := old(Sight(pm.now)).words[w := v])
    {
      hide PersistentMemory.Exec;
      hide Step;
      hide Walk;
      hide Recoverable;
      PokeDone(pm.now, Headers(), w, v, len);
      pm.Write(w, v);
      pm.Flush(8 * w, len);
    }

    // ---------------------------------------------------------------------------------------
    // Pieces shared by the calls
    // ---------------------------------------------------------------------------------------

    /** Stores a size word and makes the header durable. */
    method StoreSize(h: nat, v: nat)
      requires pm.Valid() && h + 8 <= pm.mem.Length
      modifies pm, pm.mem, pm.disk
      ensures pm.Valid() && pm.trace == old(pm.trace) + SetSize(h, v)
      ensures pm.now == Exec(old(pm.now), SetSize(h, v))
      ensures pm.now.mem == old(pm.now.mem)[h := v]
    {
      hide Survives;
      pm.Write(h, v);
      pm.Flush(8 * h, 64);
      ExecTwo(old(pm.now), Store(h, v), HeaderFlush(h));
    }

    /** Executes the "on" list, persisting each store; stops at the first zero offset. */
    method RunList(h: nat, ghost hs: seq<nat>, ghost k: nat)
      requires pm.Valid() && Bounds(hs, pm.mem.Length) && k < |hs| - 1 && h == hs[k] && h + 8 <= pm.mem.Length
      requires ListOk(pm.now.mem, hs, h)
      modifies pm, pm.mem, pm.disk
      ensures pm.Valid() && pm.trace == old(pm.trace) + ReplayList(old(pm.now.mem), h)
      ensures pm.now == Exec(old(pm.now), ReplayList(old(pm.now.mem), h))
      ensures pm.now.mem == Replay(old(pm.now.mem), h)
    {
      hide Survives;
      hide PersistentMemory.Exec;
      hide Step;
      hide ListTake;
      hide ReplayTake;
      hide ListOk;
      hide Bounds;
      hide ReplayList;
      hide Replay;
      hide ListLen;
      hide SameHeader;
      hide Assign;
      ghost var m := pm.now.mem;
      NothingTaken(pm.now, h);
      var i := 0;
      while i < 3 && pm.mem[h + 2 + 2 * i] != 0
        invariant 0 <= i <= 3 && i <= ListLen(m, h) && pm.Valid()
        invariant pm.trace == old(pm.trace) + ListTake(m, h, i)
        invariant pm.now == Exec(old(pm.now), ListTake(m, h, i))
        invariant pm.now.mem == ReplayTake(m, h, i) && SameHeader(pm.now.mem, m, h)
      {
        SameEntry(pm.now.mem, m, h, i);
        EntryStep(m, hs, k, i);
        RunEntry(pm.mem[h + 2 + 2 * i], pm.mem[h + 3 + 2 * i]);
        ExecConcat(old(pm.now), ListTake(m, h, i), Assign(m[h + 2 + 2 * i], m[h + 3 + 2 * i]));
        i := i + 1;
      }
      if i < 3 { SameEntry(pm.now.mem, m, h, i); }
      ListEnds(m, h, i);
      TakenAll(m, h);
      TakenImage(m, hs, k);
    }

    method RunEntry(off: nat, v: nat)
      requires pm.Valid() && off % 8 == 0 && off / 8 < pm.mem.Length
      modifies pm, pm.mem, pm.disk
      ensures pm.Valid() && pm.trace == old(pm.trace) + Assign(off, v)
      ensures pm.now == Exec(old(pm.now), Assign(off, v))
      ensures pm.now.mem == old(pm.now.mem)[off / 8 := v]
    {
      pm.Write(off / 8, v);
      pm.Flush(off, 8);
      ExecTwo(old(pm.now), Store(off / 8, v), Persist(off, 8));
    }

    /** Clears the offsets, last to first. */
    method ClearOffsets(h: nat)
      requires pm.Valid() && h + 8 <= pm.mem.Length
      modifies pm, pm.mem, pm.disk
      ensures pm.Valid() && pm.trace == old(pm.trace) + ClearList(h)
      ensures ClearList(h) == [Store(h + 6, 0), Store(h + 4, 0), Store(h + 2, 0), Persist(8 * h, 64)]
      ensures pm.now == Exec(old(pm.now), ClearList(h))
      ensures pm.now.mem == Clear(old(pm.now.mem), h)
    {
      hide Step;
      hide Survives;
      ghost var m := pm.now.mem;
      for i := 3 downto 0
        invariant pm.Valid()
        invariant pm.trace == old(pm.trace) + ClearList(h)[..3 - i]
        invariant pm.now == Exec(old(pm.now), ClearList(h)[..3 - i])
        invariant pm.now.mem == if i == 3 then m else if i == 2 then m[h + 6 := 0]
                                else if i == 1 then m[h + 6 := 0][h + 4 := 0] else Clear(m, h)
      {
        pm.Write(h + 2 + 2 * i, 0);
        assert ClearList(h)[..3 - i] == ClearList(h)[..2 - i] + [Store(h + 2 + 2 * i, 0)];
        ExecOne(old(pm.now), ClearList(h)[..2 - i], Store(h + 2 + 2 * i, 0));
      }
      pm.Flush(8 * h, 64);
      assert ClearList(h) == ClearList(h)[..3] + [HeaderFlush(h)];
      ExecOne(old(pm.now), ClearList(h)[..3], HeaderFlush(h));
    }

    /** From a clump in transit to its settled state. */
    method FinishClump(h: nat, sz: nat, state: nat, ghost hs: seq<nat>, ghost k: nat)
      requires pm.Valid() && Bounds(hs, pm.mem.Length) && k < |hs| - 1 && h == hs[k] && h + 8 <= pm.mem.Length
      requires ListOk(pm.now.mem, hs, h) && Transit(pm.mem[h])
      requires sz == Bytes(pm.mem[h]) && state == Settled(State(pm.mem[h]))
      modifies pm, pm.mem, pm.disk
      ensures pm.Valid() && pm.trace == old(pm.trace) + Finish(old(pm.now.mem), h)
      ensures pm.now == Exec(old(pm.now), Finish(old(pm.now.mem), h))
      ensures pm.now.mem == ResolveClump(old(pm.now.mem), h)
    {
      hide Survives;
      hide PersistentMemory.Exec;
      hide Step;
      hide Replay;
      hide ReplayList;
      hide ResolveClump;
      hide ListOk;
      hide Bounds;
      hide Clear;
      PendingClump(pm.now.mem, h);
      ghost var s := pm.now;
      ghost var p, q := ReplayList(pm.now.mem, h), SetSize(h, sz + state);
      RunList(h, hs, k);
      ClearOffsets(h);
      StoreSize(h, sz + state);
      ExecConcat(s, p, ClearList(h));
      ExecConcat(s, p + ClearList(h), q);
    }
  }

  // ---------------------------------------------------------------------------------------
  // Promises of the calls
  // ---------------------------------------------------------------------------------------

  ghost function Sight(s: Pm): View
    requires Quiet(s, Chain(s.mem))
  {
    ViewOf(s.mem, Chain(s.mem))
  }

  /** The program turned s into r, and a crash anywhere in it shows the view before or after. */
  ghost predicate Atomically(s: Pm, prog: seq<Instr>, r: Pm) {
    && Quiet(s, Chain(s.mem)) && Quiet(r, Chain(r.mem))
    && r == Exec(s, prog)
    && Guarded(s, prog, Showing({Sight(s), Sight(r)}))
  }

  /** A call, as one of the commands of a run. */
  ghost predicate Called(s: Pm, cursor: nat, cmd: Command, r: Pm) {
    && Quiet(s, Chain(s.mem)) && Legal(s.mem, Chain(s.mem), cursor, cmd)
    && Atomically(s, CallSteps(s.mem, Chain(s.mem), cursor, cmd), r)
  }

  lemma AtomicCall(s: Pm, hs: seq<nat>, prog: seq<Instr>, r: Pm)
    requires Runs.Atomic(s, hs, prog, r) && Chain(s.mem) == hs
    ensures Atomically(s, prog, r)
  {
    var gs :| Quiet(r, gs) && Guarded(s, prog, Showing({ViewOf(s.mem, hs), ViewOf(r.mem, gs)}));
    ChainUnique(r.mem, gs);
  }

  /** First fit: the first clump at or after the cursor that is free and large enough becomes a
      reserved clump with room for the request; nothing changes if there is none. */
  ghost predicate ReserveResult(m: Image, hs: seq<nat>, cursor: nat, size: nat, ptr: nat, b: Image, gs: seq<nat>)
    requires Bounds(hs, |m|) && Index(hs, cursor) < |hs|
  {
    var bytes := ClumpBytes(size);
    var k := FirstFit(m, hs, Index(hs, cursor), bytes);
    if k == |hs| - 1 then ptr == 0 && b == m && gs == hs
    else ptr == 8 * (hs[k] + 8) && Carved(b, m, hs, k, bytes) && gs == ReservedChain(m, hs, k, bytes)
  }

  /** What registering a store asks for: a clump in the right state, and a word it may name. */
  ghost predicate Registers(m: Image, hs: seq<nat>, h: nat, state: nat, off: nat)
    requires Bounds(hs, |m|)
  {
    ClumpAt(m, hs, h, state) && ReachOffset(m, hs, state, off)
  }

  ghost predicate Registered(b: Image, m: Image, h: nat, off: nat, v: nat) {
    && |b| == |m| && h + 8 <= |m|
    && var i := FreeSlot(m, h);
       i < 3 && b == m[h + 3 + 2 * i := v][h + 2 + 2 * i := off]
  }

  /** The search stands at clump i. */
  ghost predicate Searching(m: Image, hs: seq<nat>, i: nat, clp: nat, bytes: nat, from: nat) {
    && Bounds(hs, |m|) && Tiled(m, hs) && from <= i < |hs| && clp == hs[i] && clp < |m|
    && FirstFit(m, hs, from, bytes) == FirstFit(m, hs, i, bytes)
  }

  lemma SearchStart(s: Pm, hs: seq<nat>, cursor: nat, size: nat)
    requires Quiet(s, hs) && Legal(s.mem, hs, cursor, Command.Reserve(size))
    ensures Tiled(s.mem, hs) && Bounds(hs, |s.mem|)
    ensures (size + 127) / 64 * 64 == ClumpBytes(size)
    ensures Searching(s.mem, hs, Index(hs, cursor), cursor, ClumpBytes(size), Index(hs, cursor))
  {
  }

  lemma SearchNext(m: Image, hs: seq<nat>, i: nat, clp: nat, bytes: nat, from: nat)
    requires Searching(m, hs, i, clp, bytes, from) && m[clp] != 0
    ensures i < |hs| - 1 && hs[i + 1] == clp + Bytes(m[clp]) / 8
    ensures Fits(m[clp], bytes) ==> FirstFit(m, hs, from, bytes) == i
    ensures Fits(m[clp], bytes) && bytes % 64 == 0 && bytes >= 64 ==> Fitting(m, hs, i, bytes)
    ensures !Fits(m[clp], bytes) ==> Searching(m, hs, i + 1, hs[i + 1], bytes, from)
  {
    WalkClump(m, hs, i);
  }

  lemma ReserveFound(s: Pm, hs: seq<nat>, cursor: nat, size: nat, k: nat, r: Pm)
    requires Quiet(s, hs) && hs == Chain(s.mem) && Legal(s.mem, hs, cursor, Command.Reserve(size))
    requires k == FirstFit(s.mem, hs, Index(hs, cursor), ClumpBytes(size)) && k < |hs| - 1
    requires r == Exec(s, ReserveSteps(s.mem, hs[k], ClumpBytes(size)))
    ensures Quiet(r, Chain(r.mem)) && Called(s, cursor, Command.Reserve(size), r)
    ensures CallSteps(s.mem, hs, cursor, Command.Reserve(size)) == ReserveSteps(s.mem, hs[k], ClumpBytes(size))
    ensures ReserveResult(s.mem, hs, cursor, size, 8 * (hs[k] + 8), r.mem, Chain(r.mem))
    ensures Sight(r) == Sight(s)
    ensures Reserves(s.mem, hs, Index(hs, cursor), ClumpBytes(size), hs[k], r.mem, Chain(r.mem))
  {
    var bytes := ClumpBytes(size);
    ClumpBytesEnough(size);
    var r' := ReserveAtomic(s, hs, k, bytes);
    ChainUnique(r.mem, ReservedChain(s.mem, hs, k, bytes));
    CarvedTakes(s.mem, hs, k, bytes, r.mem);
    NoneBefore(s.mem, hs, Index(hs, cursor), bytes);
    var r'' := ReserveCall(s, hs, cursor, size);
    AtomicCall(s, hs, CallSteps(s.mem, hs, cursor, Command.Reserve(size)), r);
  }

  lemma ReserveNone(s: Pm, hs: seq<nat>, cursor: nat, size: nat, i: nat, clp: nat)
    requires Quiet(s, hs) && hs == Chain(s.mem) && Legal(s.mem, hs, cursor, Command.Reserve(size))
    requires Searching(s.mem, hs, i, clp, ClumpBytes(size), Index(hs, cursor)) && s.mem[clp] == 0
    ensures CallSteps(s.mem, hs, cursor, Command.Reserve(size)) == []
    ensures Called(s, cursor, Command.Reserve(size), s)
    ensures ReserveResult(s.mem, hs, cursor, size, 0, s.mem, hs)
    ensures forall i :: Index(hs, cursor) <= i < |hs| - 1 ==>
              State(s.mem[hs[i]]) != FREE || 8 * (hs[i + 1] - hs[i]) < ClumpBytes(size)
  {
    NoneBefore(s.mem, hs, Index(hs, cursor), ClumpBytes(size));
    ClumpsNonzero(s.mem, hs);
    assert i == |hs| - 1;
    NothingAtomic(s, hs);
    AtomicCall(s, hs, [], s);
  }

  lemma StepFlush(s: Pm, addr: nat, len: nat)
    ensures Step(s, Persist(addr, len)).mem == s.mem
  {
  }

  lemma TakenWhere(m: Image, hs: seq<nat>, k: nat, bytes: nat)
    requires Tiled(m, hs) && Fitting(m, hs, k, bytes)
    ensures bytes <= Bytes(m[hs[k]]) && hs[k] + 8 <= |m|
    ensures Splits(m[hs[k]], bytes) ==> hs[k] + bytes / 8 + 8 <= |m|
  {
    if Splits(m[hs[k]], bytes) { CutInside(m, hs, k, bytes); }
  }

  /** What is left after a call of Free: the clump gone, its registered stores done, free neighbours
      merged, and every other clump in use untouched. */
  ghost predicate Freed(m: Image, hs: seq<nat>, k: nat, b: Image, gs: seq<nat>)
    requires Bounds(hs, |m|)
  {
    && k < |hs| - 1 && |b| == |m| && Bounds(gs, |b|)
    && gs == CoalescedFrom(FreedImage(m, hs[k]), hs, 0)
    && Coalesced(b, gs, |gs|) && SameUse(FreedImage(m, hs[k]), hs, b, gs)
    && (State(m[hs[k]]) == ACTIVE ==> ViewAfter(ViewOf(b, gs), m, hs, k))
    && (State(m[hs[k]]) == RESERVED ==> ViewOf(b, gs) == ViewOf(m, hs))
  }

  /** What the body of Free needs. */
  ghost predicate CanFreeHere(m: Image, hs: seq<nat>, k: nat, h: nat) {
    && Bounds(hs, |m|) && k < |hs| - 1 && hs[k] == h && h < |m|
    && (State(m[h]) == RESERVED || (State(m[h]) == ACTIVE && ListOk(m, hs, h)))
  }

  lemma FreeingWord(m: Image, h: nat, sz: nat, hs: seq<nat>, k: nat)
    requires CanFreeHere(m, hs, k, h) && State(m[h]) == ACTIVE && sz == Bytes(m[h]) && h + 8 <= |m|
    ensures CommitSize(m[h]) == sz + FREEING && ListOk(m[h := sz + FREEING], hs, h)
    ensures SettledSize(m[h := sz + FREEING][h]) == sz + FREE
    ensures FreeCore(m, h) == SetSize(h, sz + FREEING) +
              (ReplayList(m[h := sz + FREEING], h) + ClearList(h) + SetSize(h, sz + FREE))
  {
    SizeWord(sz, FREEING);
  }

  lemma ExecFive(s: Pm, a: seq<Instr>, b: seq<Instr>, c: seq<Instr>, d: seq<Instr>)
    ensures Exec(s, a + (b + c + d)) == Exec(Exec(Exec(Exec(s, a), b), c), d)
    ensures a + (b + c + d) == a + b + c + d
  {
    hide PersistentMemory.Exec;
    ExecConcat(s, a, b + c + d);
    var r := Exec(s, a);
    ExecConcat(r, b + c, d);
    ExecConcat(r, b, c);
  }

  lemma FreeReady(s: Pm, hs: seq<nat>, h: nat, k: nat)
    requires Quiet(s, hs) && k == Index(hs, h) && CanFree(s.mem, hs, k)
    ensures h + 8 <= |s.mem| && CanFreeHere(s.mem, hs, k, h)
    ensures Tiled(FreedImage(s.mem, h), hs) && NoTransit(FreedImage(s.mem, h), hs)
    ensures Exec(s, FreeCore(s.mem, h)).mem == FreedImage(s.mem, h)
  {
    var r := FreeCoreAtomic(s, hs, k);
    if State(s.mem[h]) == ACTIVE { CommitCommitted(s, hs, k); }
  }

  lemma FreeDone(s: Pm, hs: seq<nat>, h: nat, k: nat, a: Pm, r: Pm)
    requires Quiet(s, hs) && hs == Chain(s.mem) && k == Index(hs, h) && CanFree(s.mem, hs, k) && h + 8 <= |s.mem|
    requires a == Exec(s, FreeCore(s.mem, h)) && r == Exec(a, CoalesceFrom(FreedImage(s.mem, h), hs, 0))
    ensures Quiet(r, Chain(r.mem)) && Called(s, FIRST, Command.Free(h), r)
    ensures Freed(s.mem, hs, k, r.mem, Chain(r.mem))
    ensures FreeSteps(s.mem, hs, h) == FreeCore(s.mem, h) + CoalesceFrom(FreedImage(s.mem, h), hs, 0)
  {
    hide SameUse;
    hide Walk;
    hide PersistentMemory.Exec;
    hide Clump;
    hide ClumpOk;
    hide FreeCore;
    hide CoalesceFrom;
    hide ViewOf;
    hide ViewAfter;
    ExecConcat(s, FreeCore(s.mem, h), CoalesceFrom(FreedImage(s.mem, h), hs, 0));
    var r', gs := FreeAtomic(s, hs, k);
    ChainUnique(r.mem, gs);
    var r'' := FreeCall(s, hs, h);
    AtomicCall(s, hs, FreeSteps(s.mem, hs, h), r);
  }

  lemma FreedCursor(s: Pm, hs: seq<nat>, k: nat, c: nat, b: Image, gs: seq<nat>)
    requires Quiet(s, hs) && CanFree(s.mem, hs, k) && Freed(s.mem, hs, k, b, gs)
    ensures Index(hs, c) < |hs| - 1 ==> (c in gs <==> !StaleCursor.MergesDown(s.mem, hs, k, Index(hs, c)))
  {
    StaleCursor.CursorKept(s, hs, k, c, gs);
  }

  lemma FillDone(s: Pm, hs: seq<nat>, w: nat, v: nat)
    requires Quiet(s, hs) && hs == Chain(s.mem) && Legal(s.mem, hs, FIRST, Command.Fill(w, v))
    ensures var r := Step(s, Store(w, v));
            && Called(s, FIRST, Command.Fill(w, v), r) && w < |s.mem| && r.mem == s.mem[w := v]
            && Quiet(r, hs) && Chain(r.mem) == hs && ViewOf(r.mem, hs) == ViewOf(s.mem, hs)
  {
    var k: nat :| Inside(hs, k, w) && State(s.mem[hs[k]]) == RESERVED;
    var r := FillAtomic(s, hs, k, w, v);
    assert Exec(s, [Store(w, v)]) == Step(s, Store(w, v));
    HiddenAtomic(s, hs, [Store(w, v)], r, hs);
    AtomicCall(s, hs, [Store(w, v)], r);
    ChainUnique(r.mem, hs);
  }

  lemma PokeDone(s: Pm, hs: seq<nat>, w: nat, v: nat, len: nat)
    requires Quiet(s, hs) && hs == Chain(s.mem) && Legal(s.mem, hs, FIRST, Command.Poke(w, v, len))
    ensures var r := Step(Step(s, Store(w, v)), Persist(8 * w, len));
            && Called(s, FIRST, Command.Poke(w, v, len), r) && r.mem == s.mem[w := v]
            && Quiet(r, hs) && Chain(r.mem) == hs
            && ViewOf(r.mem, hs) == ViewOf(s.mem, hs).(words := ViewOf(s.mem, hs).words[w := v])
  {
    var r := PokeAtomic(s, hs, w, v, len);
    ExecTwo(s, Store(w, v), Persist(8 * w, len));
    AtomicCall(s, hs, [Store(w, v), Persist(8 * w, len)], r);
    ChainUnique(r.mem, hs);
  }

  lemma SlotTaken(m: Image, h: nat, i: nat)
    requires h + 8 <= |m| && i <= FreeSlot(m, h) && i < 3 && m[h + 2 + 2 * i] != 0
    ensures i < FreeSlot(m, h)
  {
  }

  lemma FirstFreeSlot(m: Image, h: nat, i: nat)
    requires h + 8 <= |m| && i <= FreeSlot(m, h) && i < 3 && m[h + 2 + 2 * i] == 0
    ensures FreeSlot(m, h) == i
  {
  }

  lemma ExecFour(s: Pm, a: Instr, b: Instr, c: Instr, d: Instr)
    ensures Exec(s, [a, b] + [c, d]) == Step(Step(Step(Step(s, a), b), c), d)
  {
    ExecConcat(s, [a, b], [c, d]);
    ExecTwo(s, a, b);
    ExecTwo(Exec(s, [a, b]), c, d);
  }

  lemma ExecThree(s: Pm, a: Instr, q: seq<Instr>, r: seq<Instr>)
    ensures Exec(s, [a] + (q + r)) == Exec(Exec(Step(s, a), q), r)
  {
    ExecConcat(s, [a], q + r);
    ExecConcat(Step(s, a), q, r);
    assert Exec(s, [a]) == Step(s, a);
  }

  lemma RegisterReady(s: Pm, hs: seq<nat>, h: nat, state: nat, off: nat)
    requires Quiet(s, hs) && Registers(s.mem, hs, h, state, off) && (state == RESERVED || state == ACTIVE)
    ensures h + 8 <= |s.mem|
    ensures FreeSlot(s.mem, h) < 3 ==> ClumpAt(s.mem, hs, h, state) && CanRegister(s.mem, hs, Index(hs, h), off)
    ensures FreeSlot(s.mem, h) >= 3 ==> !CanRegister(s.mem, hs, Index(hs, h), off)
  {
  }

  lemma RegisterDone(s: Pm, hs: seq<nat>, h: nat, off: nat, v: nat)
    requires Quiet(s, hs) && Chain(s.mem) == hs && CanRegister(s.mem, hs, Index(hs, h), off)
    ensures h + 8 <= |s.mem| && FreeSlot(s.mem, h) < 3
    ensures var r := Exec(s, RegisterSteps(h, FreeSlot(s.mem, h), off, v));
            && Atomically(s, RegisterSteps(h, FreeSlot(s.mem, h), off, v), r)
            && Registered(r.mem, s.mem, h, off, v)
            && Quiet(r, hs) && Chain(r.mem) == hs && ViewOf(r.mem, hs) == ViewOf(s.mem, hs)
  {
    hide Walk;
    hide PersistentMemory.Exec;
    var r := RegisterAtomic(s, hs, Index(hs, h), off, v);
    var r' := RegisterCall(s, hs, h, off, v);
    AtomicCall(s, hs, RegisterSteps(h, FreeSlot(s.mem, h), off, v), r);
    ChainUnique(r.mem, hs);
  }

  lemma CommitBounds(m: Image, hs: seq<nat>, k: nat)
    requires Tiled(m, hs) && k < |hs| - 1
    ensures m[hs[k]] >= 64 && 8 * (hs[k] + 8) + m[hs[k]] - 64 <= 8 * |m|
  {
    ClumpsNonzero(m, hs);
    WalkClump(m, hs, k);
  }

  lemma CommitReady(m: Image, hs: seq<nat>, k: nat)
    requires Recoverable(m, hs) && NoTransit(m, hs) && ReservedReaches(m, hs) && CanCommit(m, hs, k)
    ensures var v := CommitSize(m[hs[k]]); var a := m[hs[k] := v];
            ListOk(a, hs, hs[k]) && Transit(a[hs[k]])
  {
    CommitRecoverable(m, hs, k);
    assert ClumpOk(m[hs[k] := CommitSize(m[hs[k]])], hs, k);
  }

  /** What the body of the activation needs. */
  lemma ActivateReady(s: Pm, hs: seq<nat>, h: nat, k: nat)
    requires Quiet(s, hs) && k == Index(hs, h) && ClumpAt(s.mem, hs, h, RESERVED) && CanCommit(s.mem, hs, k)
    ensures Bounds(hs, |s.mem|) && k < |hs| - 1 && hs[k] == h && h + 8 <= |s.mem| && s.mem[h] >= 64
    ensures 8 * (h + 8) + s.mem[h] - 64 <= 8 * |s.mem|
    ensures var sz := Bytes(s.mem[h]); var m := s.mem[h := sz + ACTIVATING];
            && CommitSize(s.mem[h]) == sz + ACTIVATING
            && ListOk(m, hs, h) && Transit(m[h]) && Bytes(m[h]) == sz && Settled(State(m[h])) == ACTIVE
  {
    hide PersistentMemory.Exec;
    hide ClumpOk;
    hide Clump;
    hide ListOk;
    CommitBounds(s.mem, hs, k);
    ActivateWord(s.mem[h]);
    CommitReady(s.mem, hs, k);
  }

  lemma ActivateWord(v: nat)
    requires State(v) == RESERVED
    ensures CommitSize(v) == Bytes(v) + ACTIVATING && Bytes(Bytes(v) + ACTIVATING) == Bytes(v)
    ensures Transit(Bytes(v) + ACTIVATING) && Settled(State(Bytes(v) + ACTIVATING)) == ACTIVE
  {
    SizeWord(Bytes(v), ACTIVATING);
  }

  lemma CommitWell(s: Pm, hs: seq<nat>, h: nat, k: nat)
    requires Quiet(s, hs) && hs == Chain(s.mem) && k == Index(hs, h)
    requires Legal(s.mem, hs, FIRST, Command.Activate(h))
    ensures var r := Exec(s, ActivateSteps(s.mem, h));
            && Called(s, FIRST, Command.Activate(h), r)
            && Quiet(r, hs) && Chain(r.mem) == hs
            && Committed(r.mem, s.mem, hs, k) && ViewAfter(ViewOf(r.mem, hs), s.mem, hs, k)
  {
    var r := ActivateAtomic(s, hs, k);
    var r' := CallAtomic(s, hs, FIRST, Command.Activate(h));
    AtomicCall(s, hs, ActivateSteps(s.mem, h), r);
    ChainUnique(r.mem, hs);
  }

  // ---------------------------------------------------------------------------------------
  // Steps of the loops
  // ---------------------------------------------------------------------------------------

  lemma RecoverStart(s: Pm, hs: seq<nat>)
    requires Recoverable(s.mem, hs)
    ensures Bounds(hs, |s.mem|) && |hs| > 0
    ensures ResolveUpTo(s.mem, hs, 0) == s.mem && hs[0] == FIRST && FIRST < |s.mem| && Exec(s, []) == s
  {
  }

  /** The next clump of the recovery pass is as the crash left it. */
  lemma RecoverNext(m: Image, hs: seq<nat>, k: nat)
    requires Recoverable(m, hs) && k < |hs| && m[hs[k]] != 0
    ensures k < |hs| - 1
    ensures var a, b := ResolveUpTo(m, hs, k), ResolveUpTo(m, hs, k + 1);
            && hs[k] + 8 <= |m| && OwnListOk(a, hs, k) && a[hs[k]] == m[hs[k]] && b == ResolveClump(a, hs[k])
            && hs[k + 1] == hs[k] + Bytes(m[hs[k]]) / 8 && hs[k + 1] < |m| && b[hs[k + 1]] == m[hs[k + 1]]
            && RecoverFrom(a, hs, k) == RecoverClump(a, hs[k]) + RecoverFrom(b, hs, k + 1)
  {
    RecoverableLists(m, hs);
    HeadersAfter(m, hs, k);
    StillOk(m, hs, k, ResolveUpTo(m, hs, k));
    assert Clump(m, hs, k);
    HeadersAfter(m, hs, k + 1);
  }

  lemma RecoverEnd(m: Image, hs: seq<nat>, k: nat)
    requires Recoverable(m, hs) && k < |hs| && m[hs[k]] == 0
    ensures ResolveUpTo(m, hs, k) == Resolve(m, hs) && RecoverFrom(ResolveUpTo(m, hs, k), hs, k) == []
  {
    ClumpsNonzero(m, hs);
    assert k == |hs| - 1;
  }

  lemma RecoveredChain(file: Image, hs: seq<nat>)
    requires Recoverable(file, hs)
    ensures Tiled(Resolve(file, hs), hs) && NoTransit(Resolve(file, hs), hs)
  {
    BootClean(file);
    ghost var a := RecoverExact(Boot(file), hs, 0);
    ResolvedSettled(a, hs);
  }

  /** What opening a pool achieves: recovery and merging, no crash on the way to show anything but
      what the file shows, every clump FREE or ACTIVE, and no two neighbours free. */
  ghost predicate Restored(file: Image, trace: seq<Instr>, r: Pm) {
    var hs, gs := Chain(file), Chain(r.mem);
    && Recoverable(file, hs) && trace == RestartSteps(file, hs) && r == Exec(Boot(file), trace)
    && Guarded(Boot(file), trace, Showing({ViewOf(file, hs)}))
    && Quiet(r, gs) && ViewOf(r.mem, gs) == ViewOf(file, hs)
    && Coalesced(r.mem, gs, |gs|)
    && forall i :: 0 <= i < |gs| - 1 ==> State(r.mem[gs[i]]) == FREE || State(r.mem[gs[i]]) == ACTIVE
  }

  lemma OpenedWell(file: Image, hs: seq<nat>, a: Pm, r: Pm)
    requires Recoverable(file, hs) && hs == Chain(file)
    requires a == Exec(Boot(file), RecoverFrom(file, hs, 0)) && r == Exec(a, CoalesceFrom(Resolve(file, hs), hs, 0))
    ensures Restored(file, RecoverFrom(file, hs, 0) + CoalesceFrom(Resolve(file, hs), hs, 0), r)
  {
    ExecConcat(Boot(file), RecoverFrom(file, hs, 0), CoalesceFrom(Resolve(file, hs), hs, 0));
    var r', gs := RestartAtomic(file, hs);
    ChainUnique(r.mem, gs);
  }

  /** The first i entries of the list. */
  ghost function ListTake(m: Image, h: nat, i: nat): seq<Instr>
    requires h + 8 <= |m| && i <= 3
  {
    if i == 0 then [] else ListTake(m, h, i - 1) + Assign(m[h + 2 * i], m[h + 1 + 2 * i])
  }

  ghost function ReplayTake(m: Image, h: nat, i: nat): (r: Image)
    requires h + 8 <= |m| && i <= 3
    ensures |r| == |m|
  {
    if i == 0 then m else Put(ReplayTake(m, h, i - 1), m[h + 2 * i] / 8, m[h + 1 + 2 * i])
  }

  lemma {:induction false} TakeKeepsHeader(m: Image, hs: seq<nat>, k: nat, i: nat)
    requires Bounds(hs, |m|) && k < |hs| - 1 && ListOk(m, hs, hs[k]) && i <= ListLen(m, hs[k])
    ensures SameHeader(ReplayTake(m, hs[k], i), m, hs[k])
  {
    if i > 0 {
      TakeKeepsHeader(m, hs, k, i - 1);
      var off := m[hs[k] + 2 * i];
      assert TargetOffset(hs, off);
      TargetIsNoHeader(hs, |m|, off / 8);
      OutsideHeader(hs, k, off / 8);
    }
  }

  /** One executed entry. */
  lemma EntryStep(m: Image, hs: seq<nat>, k: nat, i: nat)
    requires Bounds(hs, |m|) && k < |hs| - 1 && ListOk(m, hs, hs[k])
    requires i < 3 && i <= ListLen(m, hs[k]) && m[hs[k] + 2 + 2 * i] != 0
    ensures var h := hs[k]; var off := m[h + 2 + 2 * i]; var v := m[h + 3 + 2 * i];
            && i < ListLen(m, h) && off % 8 == 0 && off / 8 < |m|
            && SameHeader(ReplayTake(m, h, i + 1), m, h)
            && ListTake(m, h, i + 1) == ListTake(m, h, i) + Assign(off, v)
            && ReplayTake(m, h, i + 1) == ReplayTake(m, h, i)[off / 8 := v]
  {
    var off := m[hs[k] + 2 + 2 * i];
    assert TargetOffset(hs, off);
    TargetIsNoHeader(hs, |m|, off / 8);
    TakeKeepsHeader(m, hs, k, i + 1);
    assert hs[k] + 2 * (i + 1) == hs[k] + 2 + 2 * i;
  }

  lemma SameEntry(a: Image, m: Image, h: nat, i: nat)
    requires SameHeader(a, m, h) && i < 3
    ensures |a| == |m| && h + 8 <= |m|
    ensures a[h + 2 + 2 * i] == m[h + 2 + 2 * i] && a[h + 3 + 2 * i] == m[h + 3 + 2 * i]
  {
  }

  lemma NothingTaken(s: Pm, h: nat)
    requires h + 8 <= |s.mem|
    ensures SameHeader(s.mem, s.mem, h)
    ensures ListTake(s.mem, h, 0) == [] && ReplayTake(s.mem, h, 0) == s.mem && Exec(s, []) == s
  {
  }

  lemma ListEnds(m: Image, h: nat, i: nat)
    requires h + 8 <= |m| && i <= 3 && i <= ListLen(m, h)
    requires i < 3 ==> m[h + 2 + 2 * i] == 0
    ensures i == ListLen(m, h)
  {
  }

  lemma TakenAll(m: Image, h: nat)
    requires h + 8 <= |m|
    ensures ListTake(m, h, ListLen(m, h)) == ReplayList(m, h)
  {
    assert ListTake(m, h, 0) == [];
    assert ListTake(m, h, 1) == Assign(m[h + 2], m[h + 3]);
    assert ListTake(m, h, 2) == Assign(m[h + 2], m[h + 3]) + Assign(m[h + 4], m[h + 5]);
    assert ListTake(m, h, 3) == Assign(m[h + 2], m[h + 3]) + Assign(m[h + 4], m[h + 5]) + Assign(m[h + 6], m[h + 7]);
  }

  lemma TakenImage(m: Image, hs: seq<nat>, k: nat)
    requires Bounds(hs, |m|) && k < |hs| - 1 && ListOk(m, hs, hs[k])
    ensures ReplayTake(m, hs[k], ListLen(m, hs[k])) == Replay(m, hs[k])
  {
    var h := hs[k];
    assert ReplayTake(m, h, 0) == m;
    if ListLen(m, h) > 0 {
      TakeKeepsHeader(m, hs, k, 1);
      assert ReplayTake(m, h, 1) == Put(m, m[h + 2] / 8, m[h + 3]);
    }
    if ListLen(m, h) > 1 {
      TakeKeepsHeader(m, hs, k, 2);
      assert ReplayTake(m, h, 2) == Put(ReplayTake(m, h, 1), m[h + 4] / 8, m[h + 5]);
    }
    if ListLen(m, h) > 2 {
      assert ReplayTake(m, h, 3) == Put(ReplayTake(m, h, 2), m[h + 6] / 8, m[h + 7]);
    }
  }

  lemma ClumpsNonzero(m: Image, hs: seq<nat>)
    requires Tiled(m, hs)
    ensures forall i :: 0 <= i < |hs| - 1 ==> m[hs[i]] != 0
    ensures m[hs[|hs| - 1]] == 0
  {
    forall i | 0 <= i < |hs| - 1 ensures m[hs[i]] != 0 {
      assert Clump(m, hs, i);
      assert hs[i] + 8 <= hs[i + 1];
    }
  }

  lemma {:induction false} RunEndIs(m: Image, hs: seq<nat>, j: nat, q: nat)
    requires Bounds(hs, |m|) && j <= q < |hs|
    requires forall i :: j <= i < q ==> State(m[hs[i]]) == FREE
    requires q < |hs| - 1 ==> State(m[hs[q]]) != FREE
    ensures RunEnd(m, hs, j) == q
    decreases q - j
  {
    if j < q { RunEndIs(m, hs, j + 1, q); }
  }

  /** The merging walk stands at clump i; the free run it has open began at clump p. */
  ghost predicate Walking(m: Image, gs: seq<nat>, p: nat, i: nat, clp: nat) {
    && Bounds(gs, |m|) && Tiled(m, gs) && NoTransit(m, gs)
    && p <= i < |gs| && clp == gs[i] && clp < |m|
    && (p < i ==> FreeRun(m, gs, p, i))
  }

  /** What the walk remembers of the run. */
  ghost predicate RunSeen(m: Image, gs: seq<nat>, p: nat, i: nat, firstfree: nat, lastfree: nat, csize: nat)
    requires i < |gs| && Walking(m, gs, p, i, gs[i])
  {
    && (firstfree == 0 <==> p == i) && (lastfree == 0 <==> i <= p + 1)
    && (p < i ==> firstfree == gs[p])
    && gs[p] <= gs[i] && csize == 8 * (gs[i] - gs[p])
  }

  lemma WalkStart(s: Pm, hs: seq<nat>)
    requires Tiled(s.mem, hs) && NoTransit(s.mem, hs)
    ensures Bounds(hs, |s.mem|) && |hs| > 0 && FIRST < |s.mem|
    ensures Walking(s.mem, hs, 0, 0, FIRST) && RunSeen(s.mem, hs, 0, 0, 0, 0, 0) && Exec(s, []) == s
  {
  }

  lemma WalkClump(m: Image, gs: seq<nat>, i: nat)
    requires Tiled(m, gs) && i < |gs| && m[gs[i]] != 0
    ensures i < |gs| - 1 && gs[i + 1] == gs[i] + Bytes(m[gs[i]]) / 8 && gs[i + 1] < |m| && gs[i] + 8 <= gs[i + 1]
    ensures 8 * (gs[i + 1] - gs[i]) == Bytes(m[gs[i]])
  {
    assert Clump(m, gs, i);
  }

  /** One more free clump. */
  lemma WalkFree(m: Image, gs: seq<nat>, p: nat, i: nat, clp: nat, firstfree: nat, lastfree: nat, csize: nat)
    requires Walking(m, gs, p, i, clp) && RunSeen(m, gs, p, i, firstfree, lastfree, csize)
    requires m[clp] != 0 && State(m[clp]) == FREE
    ensures i < |gs| - 1 && clp > 0
    ensures Walking(m, gs, p, i + 1, gs[i + 1])
    ensures RunSeen(m, gs, p, i + 1, if firstfree == 0 then clp else firstfree,
                    if firstfree == 0 then lastfree else clp, csize + Bytes(m[clp]))
  {
    WalkClump(m, gs, i);
  }

  /** A clump in use after a run of at least two free ones. */
  lemma WalkMerge(m: Image, gs: seq<nat>, p: nat, i: nat, clp: nat)
    requires Walking(m, gs, p, i, clp) && p + 1 < i && m[clp] != 0 && State(m[clp]) != FREE
    ensures gs[p] <= gs[i] && i < |gs| - 1 && gs[p] + 8 <= |m|
    ensures var v := MergedSize(gs, p, i); var a := m[gs[p] := v]; var fs := Joined(gs, p, i);
            && p + 2 < |fs| < |gs| && fs[p + 2] == gs[i + 1] && |fs| - (p + 2) < |gs| - i
            && Walking(a, fs, p + 2, p + 2, gs[i + 1])
            && CoalesceFrom(m, gs, p) == SetSize(gs[p], v) + CoalesceFrom(a, fs, p + 2)
  {
    WalkClump(m, gs, i);
    MergedTiled(m, gs, p, i);
    MergedRechained(m, gs, p, i);
    RunEndIs(m, gs, p + 1, i);
    JoinedBounds(gs, |m|, p, i);
    MergedSkip(m, gs, p, i);
  }

  lemma MergedSkip(m: Image, gs: seq<nat>, p: nat, i: nat)
    requires Bounds(gs, |m|) && p + 1 < i < |gs| - 1 && State(m[gs[i]]) != FREE && gs[p] <= gs[i]
    requires Bounds(Joined(gs, p, i), |m|)
    ensures var a := m[gs[p] := MergedSize(gs, p, i)]; var fs := Joined(gs, p, i);
            p + 2 < |fs| && CoalesceFrom(a, fs, p + 1) == CoalesceFrom(a, fs, p + 2)
  {
    JoinedBounds(gs, |m|, p, i);
    HeadersApart(gs, |m|, p, i);
    var fs := Joined(gs, p, i);
    assert fs[p + 1] == gs[i];
  }

  /** A clump in use after at most one free one. */
  lemma WalkPast(m: Image, gs: seq<nat>, p: nat, i: nat, clp: nat)
    requires Walking(m, gs, p, i, clp) && i <= p + 1 && m[clp] != 0 && State(m[clp]) != FREE
    ensures i < |gs| - 1
    ensures Walking(m, gs, i + 1, i + 1, gs[i + 1]) && CoalesceFrom(m, gs, p) == CoalesceFrom(m, gs, i + 1)
  {
    WalkClump(m, gs, i);
    if p < i { RunEndIs(m, gs, p + 1, i); }
  }

  /** The three ways to go on. */
  lemma WalkNext(m: Image, gs: seq<nat>, p: nat, i: nat, clp: nat, firstfree: nat, lastfree: nat, csize: nat)
    requires Walking(m, gs, p, i, clp) && RunSeen(m, gs, p, i, firstfree, lastfree, csize) && m[clp] != 0
    ensures i < |gs| - 1 && clp > 0 && gs[i + 1] == clp + Bytes(m[clp]) / 8
    ensures State(m[clp]) == FREE ==>
              && Walking(m, gs, p, i + 1, gs[i + 1])
              && RunSeen(m, gs, p, i + 1, if firstfree == 0 then clp else firstfree,
                         if firstfree == 0 then lastfree else clp, csize + Bytes(m[clp]))
    ensures State(m[clp]) != FREE && firstfree != 0 && lastfree != 0 ==>
              var fs := Joined(gs, p, i); var a := m[firstfree := csize];
              && firstfree + 8 <= |m| && |fs| - (p + 2) < |gs| - i
              && Walking(a, fs, p + 2, p + 2, gs[i + 1]) && RunSeen(a, fs, p + 2, p + 2, 0, 0, 0)
              && CoalesceFrom(m, gs, p) == SetSize(firstfree, csize) + CoalesceFrom(a, fs, p + 2)
    ensures State(m[clp]) != FREE && (firstfree == 0 || lastfree == 0) ==>
              && Walking(m, gs, i + 1, i + 1, gs[i + 1]) && RunSeen(m, gs, i + 1, i + 1, 0, 0, 0)
              && CoalesceFrom(m, gs, p) == CoalesceFrom(m, gs, i + 1)
  {
    WalkClump(m, gs, i);
    if State(m[clp]) == FREE {
      WalkFree(m, gs, p, i, clp, firstfree, lastfree, csize);
    } else if firstfree != 0 && lastfree != 0 {
      WalkMerge(m, gs, p, i, clp);
    } else {
      WalkPast(m, gs, p, i, clp);
    }
  }

  /** The walk has reached the terminator. */
  lemma WalkEnd(m: Image, gs: seq<nat>, p: nat, i: nat, clp: nat, firstfree: nat, lastfree: nat, csize: nat)
    requires Walking(m, gs, p, i, clp) && RunSeen(m, gs, p, i, firstfree, lastfree, csize) && m[clp] == 0
    ensures firstfree != 0 && lastfree != 0 ==>
              firstfree + 8 <= |m| && CoalesceFrom(m, gs, p) == SetSize(firstfree, csize)
    ensures firstfree == 0 || lastfree == 0 ==> CoalesceFrom(m, gs, p) == []
  {
    hide Clump;
    ClumpsNonzero(m, gs);
    assert i == |gs| - 1;
    if p < i {
      RunEndIs(m, gs, p + 1, i);
      JoinedBounds(gs, |m|, p, i);
    }
  }
}
