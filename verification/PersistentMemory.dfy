/** Persistent memory: 8-byte words behind a volatile cache.

    `mem` is what the program reads; `may[w]` holds every value that word `w` can still
    have after a power failure: the value last made durable and every value stored since.
    A persist copies whole 64-byte lines, as the fault-injection build of libpmem does. */
module PersistentMemory {

  /** Offsets and sizes are 64 bits wide. */
  const TWO_64 := 0x1_0000_0000_0000_0000

  /** A mapped file, or what is left of it after a crash: one natural number per 8-byte word. */
  type Image = seq<nat>

  datatype Pm = Pm(mem: Image, may: seq<set<nat>>)

  /** The two things a program does to persistent memory. */
  datatype Instr =
    | Store(w: nat, v: nat)
    | Persist(addr: nat, len: nat)

  /** Word `w` lies in one of the 64-byte lines covering the bytes [addr, addr + len). */
  predicate Covered(addr: nat, len: nat, w: nat) {
    addr / 64 <= w / 8 && w / 8 * 64 < addr + len
  }

  ghost predicate Sane(s: Pm) {
    && |s.mem| == |s.may|
    && forall w :: 0 <= w < |s.mem| ==> s.mem[w] in s.may[w]
  }

  /** `img` is an image that a power failure in a state with these `may` sets can leave. */
  ghost predicate Survives(may: seq<set<nat>>, img: Image) {
    && |img| == |may|
    && forall w :: 0 <= w < |img| ==> img[w] in may[w]
  }

  /** The memory right after `img` has been mapped again. */
  ghost function Boot(img: Image): Pm {
    Pm(img, seq(|img|, w requires 0 <= w < |img| => {img[w]}))
  }

  ghost function Step(s: Pm, i: Instr): (r: Pm)
    ensures |r.mem| == |s.mem|
    ensures Sane(s) ==> Sane(r)
  {
    match i
    case Store(w, v) =>
      if w < |s.mem| && w < |s.may| then Pm(s.mem[w := v], s.may[w := s.may[w] + {v}]) else s
    case Persist(addr, len) =>
      Pm(s.mem, seq(|s.may|, w requires 0 <= w < |s.may| =>
          if Covered(addr, len, w) && w < |s.mem| then {s.mem[w]} else s.may[w]))
  }

  ghost function Exec(s: Pm, prog: seq<Instr>): (r: Pm)
    ensures |r.mem| == |s.mem|
    ensures Sane(s) ==> Sane(r)
    decreases |prog|
  {
    if prog == [] then s else Exec(Step(s, prog[0]), prog[1..])
  }

  lemma {:induction false} ExecConcat(s: Pm, p: seq<Instr>, q: seq<Instr>)
    ensures Exec(s, p + q) == Exec(Exec(s, p), q)
    decreases |p|
  {
    if p == [] {
      assert p + q == q;
    } else {
      assert (p + q)[1..] == p[1..] + q;
      ExecConcat(Step(s, p[0]), p[1..], q);
    }
  }

  lemma ExecOne(s: Pm, prog: seq<Instr>, i: Instr)
    ensures Exec(s, prog + [i]) == Step(Exec(s, prog), i)
  {
    ExecConcat(s, prog, [i]);
    assert Exec(Exec(s, prog), [i]) == Step(Exec(s, prog), i);
  }

  lemma ExecSingle(s: Pm, i: Instr)
    ensures Exec(s, [i]) == Step(s, i)
  {
    assert [i][1..] == [];
  }

  lemma ExecTwo(s: Pm, i: Instr, j: Instr)
    ensures Exec(s, [i, j]) == Step(Step(s, i), j)
  {
    assert [i, j][1..] == [j] && [j][1..] == [];
    assert Exec(Step(s, i), [j]) == Step(Step(s, i), j);
  }

  /** A persist adds no image that could not be left before it. */
  lemma PersistShrinks(s: Pm, addr: nat, len: nat, img: Image)
    requires Sane(s) && Survives(Step(s, Persist(addr, len)).may, img)
    ensures Survives(s.may, img)
  {
    var r := Step(s, Persist(addr, len));
    forall w | 0 <= w < |img| ensures img[w] in s.may[w] {
      assert img[w] in r.may[w];
    }
  }

  /** The mapping of libpmem's fault-injection build: a private copy `mem` of the file `disk`. */
  class Pmem {
    const mem: array<nat>
    const disk: array<nat>
    /** The memory as the crash model sees it, and everything done since the file was mapped. */
    ghost var now: Pm
    ghost var trace: seq<Instr>

    /** The file as it has been written out so far is one of the images a crash may leave. */
    ghost predicate Valid()
      reads this, mem, disk
    {
      && mem != disk
      && mem.Length == disk.Length == |now.may|
      && mem.Length % 8 == 0
      && now.mem == mem[..]
      && Survives(now.may, disk[..])
    }

    constructor Map(file: Image)
      requires |file| % 8 == 0
      ensures Valid() && fresh(mem) && fresh(disk)
      ensures now == Boot(file) && trace == [] && disk[..] == file
    {
      mem := new nat[|file|](i requires 0 <= i < |file| => file[i]);
      disk := new nat[|file|](i requires 0 <= i < |file| => file[i]);
      now := Boot(file);
      trace := [];
      new;
      assert mem[..] == file && disk[..] == file;
    }

    /** A store: the new value may or may not survive a crash from now on. */
    method Write(w: nat, v: nat)
      requires Valid() && w < mem.Length
      modifies this, mem
      ensures Valid()
      ensures now == Step(old(now), Store(w, v)) && trace == old(trace) + [Store(w, v)]
      ensures now.mem == old(now.mem)[w := v]
    {
      mem[w] := v;
      now := Step(now, Store(w, v));
      assert mem[..] == old(mem[..])[w := v];
      trace := trace + [Store(w, v)];
    }

    /** Writes out, line by line, the 64-byte lines that cover [addr, addr + len). */
    method Flush(addr: nat, len: nat)
      requires Valid() && addr + len <= 8 * mem.Length
      modifies this, disk
      ensures Valid()
      ensures now == Step(old(now), Persist(addr, len)) && trace == old(trace) + [Persist(addr, len)]
      ensures now.mem == old(now.mem)
      ensures forall w :: 0 <= w < disk.Length ==>
                disk[w] == if Covered(addr, len, w) then mem[w] else old(disk[w])
    {
      var line := addr / 64;
      while line * 64 < addr + len
        modifies disk
        invariant addr / 64 <= line
        invariant forall w :: 0 <= w < disk.Length ==>
                    disk[w] == if addr / 64 <= w / 8 < line && Covered(addr, len, w) then mem[w] else old(disk[w])
      {
        for i := 0 to 8
          modifies disk
          invariant forall w :: 0 <= w < disk.Length ==>
                      disk[w] == if (addr / 64 <= w / 8 < line && Covered(addr, len, w)) || 8 * line <= w < 8 * line + i
                                 then mem[w] else old(disk[w])
        {
          disk[8 * line + i] := mem[8 * line + i];
        }
        line := line + 1;
      }
      now := Step(now, Persist(addr, len));
      trace := trace + [Persist(addr, len)];
    }
  }
}
