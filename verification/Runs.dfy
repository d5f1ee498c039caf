/** Whole runs: any sequence of calls, power failures between any two stores of any call, and
    restarts that may fail in turn. */
module Runs {
  import opened PersistentMemory
  import opened PoolImage
  import opened RecoveryFacts
  import opened CrashSafety
  import opened Activation
  import opened Reserving
  import opened Registering
  import opened Calls

  datatype Command =
    | Reserve(size: nat)
    | OnActive(h: nat, off: nat, v: nat)
    | Activate(h: nat)
    | OnFree(h: nat, off: nat, v: nat)
    | Free(h: nat)
    | Fill(w: nat, v: nat)              // a plain store into reserved memory
    | Poke(w: nat, v: nat, len: nat)    // a store into visible memory, then its persist

  /** `cursor` is the clump at which the next search starts. */
  datatype System = Up(pm: Pm, cursor: nat) | Down(file: Image)

  /** Position of the header h in the chain. */
  ghost function Index(hs: seq<nat>, h: nat): (k: nat)
    ensures k <= |hs|
    ensures k < |hs| ==> hs[k] == h
    ensures h in hs ==> k < |hs|
  {
    if hs == [] then 0 else if hs[0] == h then 0 else 1 + Index(hs[1..], h)
  }

  lemma IndexUnique(hs: seq<nat>, words: nat, k: nat)
    requires Bounds(hs, words) && k < |hs|
    ensures Index(hs, hs[k]) == k
  {
    var j := Index(hs, hs[k]);
    assert hs[k] in hs;
    if j != k { HeadersApart(hs, words, j, k); }
  }

  ghost predicate ClumpAt(m: Image, hs: seq<nat>, h: nat, state: nat) {
    var k := Index(hs, h);
    k < |hs| - 1 && h < |m| && State(m[h]) == state
  }

  /** What the allocator asks of its callers. */
  ghost predicate Legal(m: Image, hs: seq<nat>, cursor: nat, cmd: Command)
    requires Bounds(hs, |m|)
  {
    match cmd
    case Reserve(size) => size + 127 < TWO_64 && Index(hs, cursor) < |hs| - 1
    case OnActive(h, off, v) => ClumpAt(m, hs, h, RESERVED) && CanRegister(m, hs, Index(hs, h), off)
    case Activate(h) => ClumpAt(m, hs, h, RESERVED) && CanCommit(m, hs, Index(hs, h)) && m[h] >= 64
    case OnFree(h, off, v) => ClumpAt(m, hs, h, ACTIVE) && CanRegister(m, hs, Index(hs, h), off)
    case Free(h) => CanFree(m, hs, Index(hs, h))
    case Fill(w, v) => exists k: nat :: Inside(hs, k, w) && State(m[hs[k]]) == RESERVED
    case Poke(w, v, len) => w < |m| && Visible(Living(m, hs), w) && len > 0
  }

  /** The stores and persists of a call, in order. */
  ghost function CallSteps(m: Image, hs: seq<nat>, cursor: nat, cmd: Command): seq<Instr>
    requires Bounds(hs, |m|) && Legal(m, hs, cursor, cmd)
  {
    match cmd
    case Reserve(size) =>
      var k := FirstFit(m, hs, Index(hs, cursor), ClumpBytes(size));
      if k == |hs| - 1 then [] else ReserveSteps(m, hs[k], ClumpBytes(size))
    case OnActive(h, off, v) => RegisterSteps(h, FreeSlot(m, h), off, v)
    case Activate(h) => ActivateSteps(m, h)
    case OnFree(h, off, v) => RegisterSteps(h, FreeSlot(m, h), off, v)
    case Free(h) => FreeSteps(m, hs, h)
    case Fill(w, v) => [Store(w, v)]
    case Poke(w, v, len) => [Store(w, v), Persist(8 * w, len)]
  }

  ghost function NextCursor(m: Image, hs: seq<nat>, cursor: nat, cmd: Command): nat
    requires Bounds(hs, |m|) && Legal(m, hs, cursor, cmd)
  {
    if cmd.Reserve? then
      var k := FirstFit(m, hs, Index(hs, cursor), ClumpBytes(cmd.size));
      if k == |hs| - 1 then cursor else hs[k]
    else cursor
  }

  ghost predicate Ok(x: System) {
    match x
    case Up(pm, _) => Quiet(pm, Chain(pm.mem))
    case Down(file) => Recoverable(file, Chain(file))
  }

  ghost function ViewIn(x: System): View
    requires Ok(x)
  {
    match x
    case Up(pm, _) => ViewOf(pm.mem, Chain(pm.mem))
    case Down(file) => ViewOf(file, Chain(file))
  }

  ghost function Words(x: System): nat {
    match x
    case Up(pm, _) => |pm.mem|
    case Down(file) => |file|
  }

  /** A call that returns. */
  ghost predicate Returns(x: System, cmd: Command, y: System) {
    && x.Up? && y.Up? && Ok(x)
    && Legal(x.pm.mem, Chain(x.pm.mem), x.cursor, cmd)
    && y.pm == Exec(x.pm, CallSteps(x.pm.mem, Chain(x.pm.mem), x.cursor, cmd))
    && y.cursor == NextCursor(x.pm.mem, Chain(x.pm.mem), x.cursor, cmd)
  }

  /** Power fails after the first n stores and persists of a call. */
  ghost predicate Fails(x: System, cmd: Command, n: nat, y: System) {
    && x.Up? && y.Down? && Ok(x)
    && Legal(x.pm.mem, Chain(x.pm.mem), x.cursor, cmd)
    && var prog := CallSteps(x.pm.mem, Chain(x.pm.mem), x.cursor, cmd);
       n <= |prog| && Survives(Exec(x.pm, prog[..n]).may, y.file)
  }

  /** The pool is opened: recovery, then merging; the cursor starts at the first clump. */
  ghost predicate Restarts(x: System, y: System) {
    && x.Down? && y.Up? && Ok(x)
    && y.pm == Exec(Boot(x.file), RestartSteps(x.file, Chain(x.file)))
    && y.cursor == FIRST
  }

  /** Power fails again while the pool is being opened. */
  ghost predicate FailsAgain(x: System, n: nat, y: System) {
    && x.Down? && y.Down? && Ok(x)
    && var prog := RestartSteps(x.file, Chain(x.file));
       n <= |prog| && Survives(Exec(Boot(x.file), prog[..n]).may, y.file)
  }

  ghost predicate Next(x: System, y: System) {
    || (exists cmd :: Returns(x, cmd, y))
    || (exists cmd, n: nat :: Fails(x, cmd, n, y))
    || Restarts(x, y)
    || (exists n: nat :: FailsAgain(x, n, y))
  }

  ghost predicate Initial(x: System) {
    x.Down? && exists size: nat :: size >= 8 * MIN_WORDS && x.file == NewPool(size)
  }

  ghost predicate Run(xs: seq<System>) {
    && |xs| > 0 && Initial(xs[0])
    && forall i :: 0 <= i < |xs| - 1 ==> Next(xs[i], xs[i + 1])
  }

  // ---------------------------------------------------------------------------------------
  // One step
  // ---------------------------------------------------------------------------------------

  /** The promise of one call: every cut shows the view before or after, and the pool is quiet
      again at the end. */
  ghost predicate Atomic(s: Pm, hs: seq<nat>, prog: seq<Instr>, r: Pm) {
    && Quiet(s, hs) && r == Exec(s, prog)
    && exists gs :: Quiet(r, gs) && Guarded(s, prog, Showing({ViewOf(s.mem, hs), ViewOf(r.mem, gs)}))
  }

  lemma HiddenAtomic(s: Pm, hs: seq<nat>, prog: seq<Instr>, r: Pm, gs: seq<nat>)
    requires Quiet(s, hs) && r == Exec(s, prog) && Quiet(r, gs)
    requires ViewOf(r.mem, gs) == ViewOf(s.mem, hs)
    requires Guarded(s, prog, Showing({ViewOf(s.mem, hs)}))
    ensures Atomic(s, hs, prog, r)
  {
    assert {ViewOf(s.mem, hs), ViewOf(r.mem, gs)} == {ViewOf(s.mem, hs)};
  }

  lemma NothingAtomic(s: Pm, hs: seq<nat>)
    requires Quiet(s, hs)
    ensures Atomic(s, hs, [], s)
  {
    QuietSafe(s, hs);
    HiddenAtomic(s, hs, [], s, hs);
  }

  lemma ReserveCall(s: Pm, hs: seq<nat>, cursor: nat, size: nat) returns (r: Pm)
    requires Quiet(s, hs) && Legal(s.mem, hs, cursor, Reserve(size))
    ensures Atomic(s, hs, CallSteps(s.mem, hs, cursor, Reserve(size)), r)
  {
    var bytes := ClumpBytes(size);
    ClumpBytesEnough(size);
    var k := FirstFit(s.mem, hs, Index(hs, cursor), bytes);
    if k == |hs| - 1 {
      r := s;
      NothingAtomic(s, hs);
    } else {
      r := ReserveAtomic(s, hs, k, bytes);
      HiddenAtomic(s, hs, ReserveSteps(s.mem, hs[k], bytes), r, ReservedChain(s.mem, hs, k, bytes));
    }
  }

  lemma RegisterCall(s: Pm, hs: seq<nat>, h: nat, off: nat, v: nat) returns (r: Pm)
    requires Quiet(s, hs) && CanRegister(s.mem, hs, Index(hs, h), off)
    ensures h + 8 <= |s.mem| && Atomic(s, hs, RegisterSteps(h, FreeSlot(s.mem, h), off, v), r)
  {
    r := RegisterAtomic(s, hs, Index(hs, h), off, v);
    HiddenAtomic(s, hs, RegisterSteps(h, FreeSlot(s.mem, h), off, v), r, hs);
  }

  lemma FillCall(s: Pm, hs: seq<nat>, w: nat, v: nat) returns (r: Pm)
    requires Quiet(s, hs) && Legal(s.mem, hs, FIRST, Fill(w, v))
    ensures Atomic(s, hs, [Store(w, v)], r)
  {
    var k: nat :| Inside(hs, k, w) && State(s.mem[hs[k]]) == RESERVED;
    r := FillAtomic(s, hs, k, w, v);
    HiddenAtomic(s, hs, [Store(w, v)], r, hs);
  }

  lemma FreeCall(s: Pm, hs: seq<nat>, h: nat) returns (r: Pm)
    requires Quiet(s, hs) && CanFree(s.mem, hs, Index(hs, h))
    ensures Atomic(s, hs, FreeSteps(s.mem, hs, h), r)
  {
    var gs;
    r, gs := FreeAtomic(s, hs, Index(hs, h));
  }

  lemma CallAtomic(s: Pm, hs: seq<nat>, cursor: nat, cmd: Command) returns (r: Pm)
    requires Quiet(s, hs) && Legal(s.mem, hs, cursor, cmd)
    ensures Atomic(s, hs, CallSteps(s.mem, hs, cursor, cmd), r)
  {
    match cmd
    case Reserve(size) => r := ReserveCall(s, hs, cursor, size);
    case OnActive(h, off, v) => r := RegisterCall(s, hs, h, off, v);
    case Activate(h) => r := ActivateAtomic(s, hs, Index(hs, h));
    case OnFree(h, off, v) => r := RegisterCall(s, hs, h, off, v);
    case Free(h) => r := FreeCall(s, hs, h);
    case Fill(w, v) => r := FillCall(s, hs, w, v);
    case Poke(w, v, len) => r := PokeAtomic(s, hs, w, v, len);
  }

  /** A step keeps the pool sound and its size, and what a restarted program would see is either
      unchanged or what the call makes of it; opening a pool never changes it. */
  lemma StepSafe(x: System, y: System)
    requires Ok(x) && Next(x, y)
    ensures Ok(y) && Words(y) == Words(x)
    ensures x.Down? ==> ViewIn(y) == ViewIn(x)
    ensures forall cmd, n: nat, z: System :: Fails(x, cmd, n, y) && Returns(x, cmd, z) ==>
              Ok(z) && (ViewIn(y) == ViewIn(x) || ViewIn(y) == ViewIn(z))
  {
    if x.Up? {
      forall cmd, z: System | Returns(x, cmd, z) ensures Ok(z) && Words(z) == Words(x) {
        ReturnSafe(x, cmd, z);
      }
      forall cmd, n: nat | Fails(x, cmd, n, y)
        ensures Ok(y) && Words(y) == Words(x)
        ensures forall z: System :: Returns(x, cmd, z) ==> Ok(z) && (ViewIn(y) == ViewIn(x) || ViewIn(y) == ViewIn(z))
      {
        FailSafe(x, cmd, n, y);
      }
    } else {
      if Restarts(x, y) { RestartSafe(x, y); }
      forall n: nat | FailsAgain(x, n, y) ensures Ok(y) && Words(y) == Words(x) && ViewIn(y) == ViewIn(x) {
        FailAgainSafe(x, n, y);
      }
    }
  }

  lemma ReturnSafe(x: System, cmd: Command, z: System)
    requires Returns(x, cmd, z)
    ensures Ok(z) && Words(z) == Words(x)
  {
    var r := CallAtomic(x.pm, Chain(x.pm.mem), x.cursor, cmd);
    var gs :| Quiet(r, gs);
    ChainUnique(r.mem, gs);
  }

  /** A cut of an atomic program. */
  lemma CutShows(s: Pm, hs: seq<nat>, prog: seq<Instr>, r: Pm, n: nat, img: Image)
    requires Atomic(s, hs, prog, r) && n <= |prog| && Survives(Exec(s, prog[..n]).may, img)
    ensures Recoverable(img, Chain(img)) && Quiet(r, Chain(r.mem))
    ensures ViewOf(img, Chain(img)) == ViewOf(s.mem, hs) || ViewOf(img, Chain(img)) == ViewOf(r.mem, Chain(r.mem))
  {
    var gs :| Quiet(r, gs) && Guarded(s, prog, Showing({ViewOf(s.mem, hs), ViewOf(r.mem, gs)}));
    GuardedEverywhere(s, prog, Showing({ViewOf(s.mem, hs), ViewOf(r.mem, gs)}), n, img);
    ChainUnique(r.mem, gs);
  }

  lemma FailSafe(x: System, cmd: Command, n: nat, y: System)
    requires Fails(x, cmd, n, y)
    ensures Ok(y) && Words(y) == Words(x)
    ensures forall z: System :: Returns(x, cmd, z) ==> Ok(z) && (ViewIn(y) == ViewIn(x) || ViewIn(y) == ViewIn(z))
  {
    var hs := Chain(x.pm.mem);
    var prog := CallSteps(x.pm.mem, hs, x.cursor, cmd);
    var r := CallAtomic(x.pm, hs, x.cursor, cmd);
    CutShows(x.pm, hs, prog, r, n, y.file);
  }

  lemma RestartSafe(x: System, y: System)
    requires Restarts(x, y)
    ensures Ok(y) && Words(y) == Words(x) && ViewIn(y) == ViewIn(x)
  {
    var r, gs := RestartAtomic(x.file, Chain(x.file));
    ChainUnique(r.mem, gs);
  }

  lemma FailAgainSafe(x: System, n: nat, y: System)
    requires FailsAgain(x, n, y)
    ensures Ok(y) && Words(y) == Words(x) && ViewIn(y) == ViewIn(x)
  {
    var hs := Chain(x.file);
    var r, gs := RestartAtomic(x.file, hs);
    GuardedEverywhere(Boot(x.file), RestartSteps(x.file, hs), Showing({ViewOf(x.file, hs)}), n, y.file);
  }

  // ---------------------------------------------------------------------------------------
  // Every run
  // ---------------------------------------------------------------------------------------

  /** Every state of every run is sound, and its clumps tile the same file exactly. */
  lemma {:induction false} RunSafe(xs: seq<System>, i: nat)
    requires Run(xs) && i < |xs|
    ensures Ok(xs[i]) && Words(xs[i]) == Words(xs[0])
  {
    if i == 0 {
      var size: nat :| size >= 8 * MIN_WORDS && xs[0].file == NewPool(size);
      NewPoolRecoverable(size);
    } else {
      RunSafe(xs, i - 1);
      assert Next(xs[i - 1], xs[i]);
      StepSafe(xs[i - 1], xs[i]);
    }
  }

  ghost function SumSizes(img: Image, hs: seq<nat>, i: nat): nat
    requires Bounds(hs, |img|) && i < |hs|
  {
    if i == 0 then 0 else SumSizes(img, hs, i - 1) + Bytes(img[hs[i - 1]])
  }

  lemma {:induction false} SumIsOffset(img: Image, hs: seq<nat>, i: nat)
    requires Tiled(img, hs) && i < |hs|
    ensures SumSizes(img, hs, i) == 8 * (hs[i] - FIRST)
  {
    if i > 0 {
      SumIsOffset(img, hs, i - 1);
      assert Clump(img, hs, i - 1);
    }
  }

  lemma TiledSizes(img: Image, hs: seq<nat>, j: nat)
    requires Tiled(img, hs) && j < |hs| - 1
    ensures Bytes(img[hs[j]]) % 64 == 0 && Bytes(img[hs[j]]) > 0 && State(img[hs[j]]) <= FREEING
  {
    assert Clump(img, hs, j);
    assert hs[j] + 8 <= hs[j + 1];
  }

  ghost function ImageIn(x: System): Image {
    match x
    case Up(pm, _) => pm.mem
    case Down(file) => file
  }

  /** In every run, the clumps of the memory and of whatever a crash has left have sizes that are
      positive multiples of 64 and add up to what the file has room for. */
  lemma RunTiles(xs: seq<System>, i: nat, size: nat)
    requires Run(xs) && i < |xs| && size >= 8 * MIN_WORDS && xs[0] == Down(NewPool(size))
    ensures var img := ImageIn(xs[i]); var hs := Chain(img);
            && Tiled(img, hs)
            && SumSizes(img, hs, |hs| - 1) == size / 64 * 64 - 64 - 8 * FIRST
            && forall j :: 0 <= j < |hs| - 1 ==>
                 Bytes(img[hs[j]]) % 64 == 0 && Bytes(img[hs[j]]) > 0 && State(img[hs[j]]) <= FREEING
  {
    RunSafe(xs, i);
    var img := ImageIn(xs[i]);
    var hs := Chain(img);
    assert |img| == PoolWords(size);
    SumIsOffset(img, hs, |hs| - 1);
    forall j | 0 <= j < |hs| - 1
      ensures Bytes(img[hs[j]]) % 64 == 0 && Bytes(img[hs[j]]) > 0 && State(img[hs[j]]) <= FREEING
    {
      TiledSizes(img, hs, j);
    }
  }

  /** However often power fails while the pool is being opened, the pool that finally opens shows
      what the first image shows. */
  lemma {:induction false} RestartsAgree(xs: seq<System>, i: nat)
    requires Run(xs) && i < |xs|
    requires forall j :: 0 <= j < i ==> xs[j].Down?
    ensures Ok(xs[0]) && Ok(xs[i]) && ViewIn(xs[i]) == ViewIn(xs[0])
  {
    RunSafe(xs, i);
    RunSafe(xs, 0);
    if i > 0 {
      RestartsAgree(xs, i - 1);
      assert Next(xs[i - 1], xs[i]);
      StepSafe(xs[i - 1], xs[i]);
    }
  }
}
