/** The append log on persistent memory: data first, then the write offset that makes it count. */
module AppendLog {
  import opened PersistentMemory
  import opened CrashSafety
  import opened ByteWords

  /** `meta` is the word that holds the start offset; the end offset and the write offset follow.
      Offsets are in bytes. */
  datatype Layout = Layout(meta: nat, start: nat, end: nat)

  function ByteAt(img: Image, i: nat): nat
    requires i / 8 < |img|
  {
    Digit(img[i / 8], i % 8)
  }

  ghost function Content(img: Image, lo: nat, hi: nat): (c: seq<nat>)
    requires lo <= hi <= 8 * |img|
    ensures |c| == hi - lo
    ensures forall j :: 0 <= j < hi - lo ==> c[j] == ByteAt(img, lo + j)
  {
    seq<nat>(hi - lo, j requires 0 <= j < hi - lo => ByteAt(img, lo + j))
  }

  ghost predicate LogImage(img: Image, l: Layout) {
    && l.meta + 3 <= |img| && 8 * (l.meta + 3) <= l.start && l.start % 4096 == 0
    && img[l.meta] == l.start && img[l.meta + 1] == l.end
    && l.start <= img[l.meta + 2] <= l.end <= 8 * |img| && l.end < TWO_64
  }

  /** What the log holds. */
  ghost function Logged(img: Image, l: Layout): seq<nat>
    requires LogImage(img, l)
  {
    Content(img, l.start, img[l.meta + 2])
  }

  ghost predicate ByteData(data: seq<nat>) { forall i :: 0 <= i < |data| ==> data[i] < 256 }

  // ---------------------------------------------------------------------------------------
  // What a crash can change
  // ---------------------------------------------------------------------------------------

  /** Every value the word of byte i may have after a crash has the same byte there. */
  ghost predicate Firm(s: Pm, i: nat) {
    && i / 8 < |s.mem| && i / 8 < |s.may|
    && forall v :: v in s.may[i / 8] ==> Digit(v, i % 8) == Digit(s.mem[i / 8], i % 8)
  }

  ghost predicate FirmUpTo(s: Pm, lo: nat, hi: nat) { forall i :: lo <= i < hi ==> Firm(s, i) }

  /** Between two calls: the three offsets are durable, and so is every byte that counts. */
  ghost predicate LogOk(s: Pm, l: Layout) {
    && Sane(s) && LogImage(s.mem, l)
    && Clean(s, l.meta) && Clean(s, l.meta + 1) && Clean(s, l.meta + 2)
    && FirmUpTo(s, l.start, s.mem[l.meta + 2])
  }

  ghost predicate Holds(img: Image, l: Layout, cs: set<seq<nat>>) {
    LogImage(img, l) && Logged(img, l) in cs
  }

  ghost function Holding(l: Layout, cs: set<seq<nat>>): iset<Image> {
    iset img: Image | Holds(img, l, cs)
  }

  /** A crash leaves bytes that are firm as they were. */
  lemma FirmContent(s: Pm, img: Image, lo: nat, hi: nat)
    requires Sane(s) && lo <= hi <= 8 * |s.mem| && Survives(s.may, img) && FirmUpTo(s, lo, hi)
    ensures Content(img, lo, hi) == Content(s.mem, lo, hi)
  {
    forall j | 0 <= j < hi - lo ensures Content(img, lo, hi)[j] == Content(s.mem, lo, hi)[j] {
      assert Firm(s, lo + j);
      assert img[(lo + j) / 8] in s.may[(lo + j) / 8];
    }
  }

  lemma LogSafe(s: Pm, l: Layout)
    requires LogOk(s, l)
    ensures Safe(s, Holding(l, {Logged(s.mem, l)}))
  {
    forall img | Survives(s.may, img) ensures img in Holding(l, {Logged(s.mem, l)}) {
      assert img[l.meta] in s.may[l.meta] && img[l.meta + 1] in s.may[l.meta + 1]
          && img[l.meta + 2] in s.may[l.meta + 2];
      FirmContent(s, img, l.start, s.mem[l.meta + 2]);
    }
  }

  // ---------------------------------------------------------------------------------------
  // Writing data behind the write offset
  // ---------------------------------------------------------------------------------------

  function ByteStore(m: Image, i: nat, b: nat): Instr
    requires i / 8 < |m|
  {
    Store(i / 8, SetDigit(m[i / 8], i % 8, b))
  }

  function Stored(m: Image, i: nat, b: nat): (r: Image)
    requires i / 8 < |m|
    ensures |r| == |m|
  {
    m[i / 8 := SetDigit(m[i / 8], i % 8, b)]
  }

  /** memcpy, byte by byte. */
  function CopySteps(m: Image, off: nat, data: seq<nat>): seq<Instr>
    requires off + |data| <= 8 * |m|
    decreases |data|
  {
    if data == [] then [] else [ByteStore(m, off, data[0])] + CopySteps(Stored(m, off, data[0]), off + 1, data[1..])
  }

  function Copied(m: Image, off: nat, data: seq<nat>): (r: Image)
    requires off + |data| <= 8 * |m|
    ensures |r| == |m|
    decreases |data|
  {
    if data == [] then m else Copied(Stored(m, off, data[0]), off + 1, data[1..])
  }

  lemma StoredBytes(m: Image, i: nat, b: nat, j: nat)
    requires i / 8 < |m| && j / 8 < |m| && b < 256
    ensures ByteAt(Stored(m, i, b), j) == if j == i then b else ByteAt(m, j)
  {
    if j / 8 == i / 8 { DigitSet(m[i / 8], i % 8, b, j % 8); }
  }

  lemma {:induction false} CopiedBytes(m: Image, off: nat, data: seq<nat>, j: nat)
    requires off + |data| <= 8 * |m| && ByteData(data) && j / 8 < |m|
    ensures ByteAt(Copied(m, off, data), j) == if off <= j < off + |data| then data[j - off] else ByteAt(m, j)
    decreases |data|
  {
    if data != [] {
      StoredBytes(m, off, data[0], j);
      CopiedBytes(Stored(m, off, data[0]), off + 1, data[1..], j);
    }
  }

  /** Two pieces in a row are one piece. */
  lemma {:induction false} CopyConcat(m: Image, off: nat, a: seq<nat>, b: seq<nat>)
    requires off + |a| + |b| <= 8 * |m|
    ensures CopySteps(m, off, a + b) == CopySteps(m, off, a) + CopySteps(Copied(m, off, a), off + |a|, b)
    ensures Copied(m, off, a + b) == Copied(Copied(m, off, a), off + |a|, b)
    decreases |a|
  {
    hide Stored;
    hide ByteStore;
    if a == [] {
      assert a + b == b;
    } else {
      assert (a + b)[1..] == a[1..] + b;
      var m1, i := Stored(m, off, a[0]), ByteStore(m, off, a[0]);
      CopyConcat(m1, off + 1, a[1..], b);
      Regrouped([i], CopySteps(m1, off + 1, a[1..]), CopySteps(Copied(m, off, a), off + |a|, b));
    }
  }

  lemma Regrouped<T>(a: seq<T>, b: seq<T>, c: seq<T>)
    ensures a + (b + c) == a + b + c
  {
  }

  /** A byte behind the write offset shows nowhere. */
  lemma ByteHidden(s: Pm, l: Layout, i: nat, b: nat)
    requires LogOk(s, l) && s.mem[l.meta + 2] <= i < l.end && b < 256
    ensures var r := Step(s, ByteStore(s.mem, i, b));
            && LogOk(r, l) && r.mem == Stored(s.mem, i, b) && r.mem[l.meta + 2] == s.mem[l.meta + 2]
            && Logged(r.mem, l) == Logged(s.mem, l)
  {
    var r := Step(s, ByteStore(s.mem, i, b));
    forall j | l.start <= j < s.mem[l.meta + 2] ensures Firm(r, j) && ByteAt(r.mem, j) == ByteAt(s.mem, j) {
      assert Firm(s, j);
      StoredBytes(s.mem, i, b, j);
    }
    assert Content(r.mem, l.start, s.mem[l.meta + 2]) == Content(s.mem, l.start, s.mem[l.meta + 2]);
  }

  lemma {:induction false} CopyHidden(s: Pm, l: Layout, off: nat, data: seq<nat>)
    requires LogOk(s, l) && s.mem[l.meta + 2] <= off && off + |data| <= l.end && ByteData(data)
    ensures var r := Exec(s, CopySteps(s.mem, off, data));
            && LogOk(r, l) && r.mem == Copied(s.mem, off, data) && r.mem[l.meta + 2] == s.mem[l.meta + 2]
            && Logged(r.mem, l) == Logged(s.mem, l)
    ensures Guarded(s, CopySteps(s.mem, off, data), Holding(l, {Logged(s.mem, l)}))
    decreases |data|
  {
    LogSafe(s, l);
    if data != [] {
      var i := ByteStore(s.mem, off, data[0]);
      ByteHidden(s, l, off, data[0]);
      var a := Step(s, i);
      CopyHidden(a, l, off + 1, data[1..]);
      assert CopySteps(s.mem, off, data) == [i] + CopySteps(a.mem, off + 1, data[1..]);
      assert CopySteps(s.mem, off, data)[1..] == CopySteps(a.mem, off + 1, data[1..]);
    }
  }

  // ---------------------------------------------------------------------------------------
  // Moving the write offset
  // ---------------------------------------------------------------------------------------

  /** Persist the new data, store the write offset, persist it. */
  function PersistSteps(l: Layout, off: nat, len: nat): seq<Instr> {
    [Persist(off, len)] + MoveSteps(l, off + len)
  }

  function MoveSteps(l: Layout, next: nat): seq<Instr> {
    [Store(l.meta + 2, next), Persist(8 * (l.meta + 2), 8)]
  }

  lemma DataFlushed(s: Pm, l: Layout, off: nat, len: nat)
    requires LogOk(s, l) && off == s.mem[l.meta + 2] && off + len <= l.end
    ensures var r := Step(s, Persist(off, len));
            LogOk(r, l) && r.mem == s.mem && FirmUpTo(r, l.start, off + len)
  {
    var r := Step(s, Persist(off, len));
    forall i | l.start <= i < off + len ensures Firm(r, i) {
      if i < off {
        assert Firm(s, i);
      } else {
        assert Covered(off, len, i / 8);
      }
    }
  }

  /** Firm bytes up to the new write offset, which may lie behind or before the old one. */
  lemma MoveAtomic(s: Pm, l: Layout, next: nat)
    requires LogOk(s, l) && l.start <= next <= l.end && FirmUpTo(s, l.start, next)
    ensures var r := Exec(s, MoveSteps(l, next));
            && LogOk(r, l) && r.mem == s.mem[l.meta + 2 := next]
            && Logged(r.mem, l) == Content(s.mem, l.start, next)
            && Guarded(s, MoveSteps(l, next), Holding(l, {Logged(s.mem, l), Content(s.mem, l.start, next)}))
  {
    var w := l.meta + 2;
    var good := Holding(l, {Logged(s.mem, l), Content(s.mem, l.start, next)});
    var p := Pin(s, w, next);
    PinnedOk(s, l, next);
    LogSafe(s, l);
    LogSafe(p, l);
    SafeWiden(s, Holding(l, {Logged(s.mem, l)}), good);
    SafeWiden(p, Holding(l, {Logged(p.mem, l)}), good);
    StoreSafe(s, w, next, good);
    FlushSafe(Step(s, Store(w, next)), 8 * w, 8, good);
    GuardedPair(s, Store(w, next), Persist(8 * w, 8), good);
    MovedOk(s, l, next);
  }

  lemma PinnedOk(s: Pm, l: Layout, next: nat)
    requires LogOk(s, l) && l.start <= next <= l.end && FirmUpTo(s, l.start, next)
    ensures var p := Pin(s, l.meta + 2, next); LogOk(p, l) && Logged(p.mem, l) == Content(s.mem, l.start, next)
  {
    var p := Pin(s, l.meta + 2, next);
    forall i | l.start <= i < next ensures Firm(p, i) && ByteAt(p.mem, i) == ByteAt(s.mem, i) {
      assert Firm(s, i);
    }
  }

  lemma MovedOk(s: Pm, l: Layout, next: nat)
    requires LogOk(s, l) && l.start <= next <= l.end && FirmUpTo(s, l.start, next)
    ensures var w := l.meta + 2; var r := Step(Step(s, Store(w, next)), Persist(8 * w, 8));
            && LogOk(r, l) && r.mem == s.mem[w := next] && Logged(r.mem, l) == Content(s.mem, l.start, next)
  {
    var w := l.meta + 2;
    var r := Step(Step(s, Store(w, next)), Persist(8 * w, 8));
    assert Covered(8 * w, 8, w);
    forall i | l.start <= i < next ensures Firm(r, i) && ByteAt(r.mem, i) == ByteAt(s.mem, i) {
      assert Firm(s, i);
    }
  }

  // ---------------------------------------------------------------------------------------
  // The calls
  // ---------------------------------------------------------------------------------------

  datatype Command = Append(data: seq<nat>) | AppendV(pieces: seq<seq<nat>>) | Rewind

  function Joined(pieces: seq<seq<nat>>): seq<nat> {
    if pieces == [] then [] else pieces[0] + Joined(pieces[1..])
  }

  /** The data of a call that appends. */
  function Data(c: Command): seq<nat> {
    match c
    case Append(data) => data
    case AppendV(pieces) => Joined(pieces)
    case Rewind => []
  }

  /** A full log refuses even nothing. */
  predicate Room(write: nat, end: nat, count: nat) { write < end && count <= end - write }

  function AppendSteps(m: Image, l: Layout, data: seq<nat>): seq<Instr>
    requires l.meta + 2 < |m|
  {
    var off := m[l.meta + 2];
    if Room(off, l.end, |data|) && l.end <= 8 * |m|
    then CopySteps(m, off, data) + PersistSteps(l, off, |data|)
    else []
  }

  function Steps(m: Image, l: Layout, c: Command): seq<Instr>
    requires l.meta + 2 < |m|
  {
    if c.Rewind? then MoveSteps(l, l.start) else AppendSteps(m, l, Data(c))
  }

  /** What the call makes of the contents: data that end behind the log are refused, and so is
      everything once the log is full. */
  ghost function After(contents: seq<nat>, l: Layout, c: Command): seq<nat> {
    var at := l.start + |contents|;
    if c.Rewind? then []
    else if at < l.end && at + |Data(c)| <= l.end then contents + Data(c)
    else contents
  }

  lemma AppendAtomic(s: Pm, l: Layout, data: seq<nat>)
    requires LogOk(s, l) && ByteData(data) && Room(s.mem[l.meta + 2], l.end, |data|)
    ensures var p := AppendSteps(s.mem, l, data); var r := Exec(s, p);
            && LogOk(r, l) && Logged(r.mem, l) == Logged(s.mem, l) + data
            && Guarded(s, p, Holding(l, {Logged(s.mem, l), Logged(s.mem, l) + data}))
  {
    hide PersistentMemory.Exec;
    hide LogOk;
    hide CopySteps;
    hide Copied;
    hide FirmUpTo;
    hide Content;
    hide Guarded;
    hide MoveSteps;
    LogBounds(s, l);
    var off := s.mem[l.meta + 2];
    var old_, new_ := Logged(s.mem, l), Logged(s.mem, l) + data;
    var p, q, z := CopySteps(s.mem, off, data), Persist(off, |data|), MoveSteps(l, off + |data|);
    CopyHidden(s, l, off, data);
    var a := Exec(s, p);
    DataFlushed(a, l, off, |data|);
    var b := Step(a, q);
    hide Step;
    MoveAtomic(b, l, off + |data|);
    NewContent(s.mem, l, data);
    ThreeParts(s, p, a, q, b, z, Exec(b, z), Holding(l, {old_}), Holding(l, {old_, new_}));
    assert [q] + z == PersistSteps(l, off, |data|);
  }

  lemma LogBounds(s: Pm, l: Layout)
    requires LogOk(s, l)
    ensures Sane(s) && LogImage(s.mem, l)
  {
  }

  lemma ThreeParts(s: Pm, p: seq<Instr>, a: Pm, q: Instr, b: Pm, z: seq<Instr>, r: Pm, one: iset<Image>,
                   both: iset<Image>)
    requires Sane(s) && Sane(a) && Sane(b) && a == Exec(s, p) && b == Step(a, q) && r == Exec(b, z) && q.Persist?
    requires Guarded(s, p, one) && one <= both && Guarded(b, z, both)
    ensures r == Exec(s, p + ([q] + z)) && Guarded(s, p + ([q] + z), both)
  {
    hide PersistentMemory.Exec;
    hide Step;
    hide Guarded;
    GuardedWiden(s, p, one, both);
    OneGuarded(a, q, b, both, p, s);
    ExecSingle(a, q);
    InSequence(a, [q], b, z, r, both);
    InSequence(s, p, a, [q] + z, r, both);
  }

  lemma OneGuarded(a: Pm, q: Instr, b: Pm, good: iset<Image>, p: seq<Instr>, s: Pm)
    requires Sane(a) && Sane(s) && a == Exec(s, p) && Guarded(s, p, good) && b == Step(a, q) && q.Persist?
    ensures Guarded(a, [q], good)
  {
    GuardedAtEnd(s, p, good);
    FlushSafe(a, q.addr, q.len, good);
    assert [q][1..] == [];
    assert Guarded(b, [], good);
  }

  lemma NewContent(m: Image, l: Layout, data: seq<nat>)
    requires LogImage(m, l) && m[l.meta + 2] + |data| <= l.end && ByteData(data)
    ensures var off := m[l.meta + 2];
            Content(Copied(m, off, data), l.start, off + |data|) == Logged(m, l) + data
  {
    hide Digit;
    hide ByteAt;
    hide Copied;
    var off := m[l.meta + 2];
    var c, d := Content(Copied(m, off, data), l.start, off + |data|), Logged(m, l) + data;
    forall j | 0 <= j < |c| ensures c[j] == d[j] {
      CopiedBytes(m, off, data, l.start + j);
    }
  }

  ghost predicate Fine(c: Command) { ByteData(Data(c)) }

  /** One call: the contents become what the call makes of them, and a crash anywhere in it leaves
      the contents from before or from after. */
  lemma CallAtomic(s: Pm, l: Layout, c: Command)
    requires LogOk(s, l) && Fine(c)
    ensures var p := Steps(s.mem, l, c); var r := Exec(s, p);
            && LogOk(r, l) && Logged(r.mem, l) == After(Logged(s.mem, l), l, c)
            && Guarded(s, p, Holding(l, {Logged(s.mem, l), Logged(r.mem, l)}))
  {
    assert l.start + |Logged(s.mem, l)| == s.mem[l.meta + 2];
    if c.Rewind? {
      MoveAtomic(s, l, l.start);
      assert Content(s.mem, l.start, l.start) == [];
    } else if Room(s.mem[l.meta + 2], l.end, |Data(c)|) {
      AppendAtomic(s, l, Data(c));
    } else {
      LogSafe(s, l);
      assert {Logged(s.mem, l), Logged(s.mem, l)} == {Logged(s.mem, l)};
    }
  }

  // ---------------------------------------------------------------------------------------
  // Every run
  // ---------------------------------------------------------------------------------------

  /** The log in memory, or what a crash has left of it. */
  datatype System = Up(pm: Pm) | Down(file: Image)

  /** A call that returns, a call in which the power fails after `cut` stores and persists, or the
      log being opened. */
  datatype Event = Returns(c: Command) | Fails(c: Command, cut: nat) | Opens

  ghost predicate Next(x: System, l: Layout, e: Event, y: System) {
    match e
    case Returns(c) =>
      && x.Up? && y.Up? && Fine(c) && l.meta + 2 < |x.pm.mem| && y.pm == Exec(x.pm, Steps(x.pm.mem, l, c))
    case Fails(c, cut) =>
      && x.Up? && y.Down? && Fine(c) && l.meta + 2 < |x.pm.mem|
      && cut <= |Steps(x.pm.mem, l, c)|
      && Survives(Exec(x.pm, Steps(x.pm.mem, l, c)[..cut]).may, y.file)
    case Opens => x.Down? && y == Up(Boot(x.file))
  }

  ghost predicate Ok(x: System, l: Layout) {
    match x
    case Up(pm) => LogOk(pm, l)
    case Down(file) => LogImage(file, l)
  }

  ghost function Contents(x: System, l: Layout): seq<nat>
    requires Ok(x, l)
  {
    match x
    case Up(pm) => Logged(pm.mem, l)
    case Down(file) => Logged(file, l)
  }

  /** Whatever a crash leaves holds the contents from before the call or those from after it. */
  lemma CrashDecided(x: System, l: Layout, c: Command, cut: nat, y: System) returns (kept: bool)
    requires Ok(x, l) && Next(x, l, Fails(c, cut), y)
    ensures Ok(y, l) && Contents(y, l) == if kept then After(Contents(x, l), l, c) else Contents(x, l)
  {
    hide PersistentMemory.Exec;
    hide FirmUpTo;
    hide Guarded;
    hide Steps;
    hide After;
    CallAtomic(x.pm, l, c);
    var r := Exec(x.pm, Steps(x.pm.mem, l, c));
    GuardedEverywhere(x.pm, Steps(x.pm.mem, l, c), Holding(l, {Logged(x.pm.mem, l), Logged(r.mem, l)}), cut, y.file);
    kept := Logged(y.file, l) == Logged(r.mem, l);
  }

  /** The contents that the events add up to; `kept` tells which of the calls that were cut off count. */
  ghost function Replayed(contents: seq<nat>, l: Layout, es: seq<Event>, kept: seq<bool>): seq<nat>
    requires |kept| == |es|
  {
    if es == [] then contents
    else
      var n := |es| - 1;
      var before := Replayed(contents, l, es[..n], kept[..n]);
      match es[n]
      case Returns(c) => After(before, l, c)
      case Fails(c, _) => if kept[n] then After(before, l, c) else before
      case Opens => before
  }

  lemma ReplayedNothing(contents: seq<nat>, l: Layout)
    ensures Replayed(contents, l, [], []) == contents
  {
  }

  lemma ReplayedStep(contents: seq<nat>, l: Layout, es: seq<Event>, kept: seq<bool>)
    requires |kept| == |es| > 0
    ensures var n := |es| - 1; var before := Replayed(contents, l, es[..n], kept[..n]);
            Replayed(contents, l, es, kept) ==
              if es[n].Opens? || (es[n].Fails? && !kept[n]) then before else After(before, l, es[n].c)
  {
  }

  ghost predicate Run(xs: seq<System>, l: Layout, es: seq<Event>) {
    && |xs| == |es| + 1 && Ok(xs[0], l)
    && forall i :: 0 <= i < |es| ==> Next(xs[i], l, es[i], xs[i + 1])
  }

  lemma BootOk(file: Image, l: Layout)
    requires LogImage(file, l)
    ensures LogOk(Boot(file), l)
  {
    forall i | l.start <= i < file[l.meta + 2] ensures Firm(Boot(file), i) {}
  }

  /** An append adds all of its data behind what is there, exactly if the log is not full and the data
      end inside it; `kept` tells whether one that was cut off counts. */
  ghost predicate Adds(before: seq<nat>, l: Layout, e: Event, kept: bool, after: seq<nat>) {
    !e.Opens? && !e.c.Rewind? ==>
      after == if (e.Returns? || kept) && l.start + |before| < l.end && l.start + |before| + |Data(e.c)| <= l.end
               then before + Data(e.c) else before
  }

  lemma StepHolds(x: System, l: Layout, e: Event, y: System) returns (kept: bool)
    requires Ok(x, l) && Next(x, l, e, y)
    ensures Ok(y, l)
    ensures e.Returns? ==> Contents(y, l) == After(Contents(x, l), l, e.c)
    ensures e.Fails? ==> Contents(y, l) == if kept then After(Contents(x, l), l, e.c) else Contents(x, l)
    ensures e.Opens? ==> Contents(y, l) == Contents(x, l)
    ensures Adds(Contents(x, l), l, e, kept, Contents(y, l))
  {
    match e
    case Returns(c) => kept := true; CallAtomic(x.pm, l, c);
    case Fails(c, cut) => kept := CrashDecided(x, l, c, cut, y);
    case Opens => kept := true; BootOk(x.file, l);
  }

  /** In every run the log holds, at every moment, the concatenation of what has been appended since
      the last rewind, with each call that a crash has cut off included wholly or not at all. */
  lemma {:induction false} RunHolds(xs: seq<System>, l: Layout, es: seq<Event>) returns (kept: seq<bool>)
    requires Run(xs, l, es)
    ensures |kept| == |es|
    ensures forall i :: 0 <= i < |xs| ==>
              Ok(xs[i], l) && Contents(xs[i], l) == Replayed(Contents(xs[0], l), l, es[..i], kept[..i])
    ensures forall i :: 0 <= i < |es| ==> Adds(Contents(xs[i], l), l, es[i], kept[i], Contents(xs[i + 1], l))
    decreases |es|
  {
    hide Ok;
    hide Next;
    hide Contents;
    hide After;
    hide Adds;
    hide Replayed;
    if es == [] {
      kept := [];
      ReplayedNothing(Contents(xs[0], l), l);
    } else {
      var n := |es| - 1;
      RunPrefix(xs, l, es);
      var before := RunHolds(xs[..n + 1], l, es[..n]);
      var last := StepHolds(xs[n], l, es[n], xs[n + 1]);
      kept := before + [last];
      forall i | 0 <= i < |xs|
        ensures Ok(xs[i], l) && Contents(xs[i], l) == Replayed(Contents(xs[0], l), l, es[..i], kept[..i])
      {
        if i <= n {
          assert es[..n][..i] == es[..i] && before[..i] == kept[..i] && xs[..n + 1][i] == xs[i];
        } else {
          assert es[..n][..n] == es[..n] && before[..n] == before && xs[..n + 1][n] == xs[n];
          assert es[..i] == es && kept[..i] == kept && kept[..n] == before && kept[n] == last;
          ReplayedStep(Contents(xs[0], l), l, es, kept);
        }
      }
      forall i | 0 <= i < |es| ensures Adds(Contents(xs[i], l), l, es[i], kept[i], Contents(xs[i + 1], l)) {
        if i < n {
          assert xs[..n + 1][i] == xs[i] && xs[..n + 1][i + 1] == xs[i + 1];
          assert es[..n][i] == es[i] && kept[i] == before[i];
        }
      }
    }
  }

  lemma RunPrefix(xs: seq<System>, l: Layout, es: seq<Event>)
    requires Run(xs, l, es) && es != []
    ensures Run(xs[..|es|], l, es[..|es| - 1])
  {
    hide Next;
  }
}
