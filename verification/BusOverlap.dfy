/**
  Why registers of different devices must not overlap: two threads which reach one byte through two
  devices hold two mutexes, and one of them can undo the update of the other.
*/
module BusOverlap {
  import opened BusMemory
  import opened BusAccess
  import opened BusRegister
  import opened BusLocking
  import opened BusWrite

  // ---------------------------------------------------------------- one byte, two devices

  /** Sets or clears bits of the byte at `a`. */
  function BitOp(a: nat, mask: bv8, value: bv8): Op {
    Op(Reg(a, M8), true, mask as bv32, value as bv32)
  }

  lemma ByteWord(b: bv8)
    ensures Byte0(b as bv32) == b && Byte0(And(b as bv32, 0xff)) == b
  {
  }

  lemma ByteEffect(h: Host, a: nat, mask: bv8, value: bv8)
    ensures Effect(h, BitOp(a, mask, value)) == Patch(a, [mask], [value])
  {
    LowBytes(mask as bv32);
    LowBytes(value as bv32);
    ByteWord(mask);
    ByteWord(value);
  }

  /** What the byte holds after a store of data which was read from byte `b`. */
  lemma ByteStored(h: Host, mem: seq<bv8>, a: nat, b: bv8, mask: bv8, value: bv8)
    requires a < |mem|
    ensures StoreReg(h, mem, Reg(a, M8), Merge(b as bv32, mask as bv32, value as bv32))[a] == Merge8(b, mask, value)
  {
    var w := Merge(b as bv32, mask as bv32, value as bv32);
    MergeByte0(b as bv32, mask as bv32, value as bv32);
    ByteWord(b);
    ByteWord(mask);
    ByteWord(value);
    LowBytes(w);
    assert Encode(h, M8, w) == [Byte0(w & 0xff)];
  }

  function OtherBit(bit: bv8): bv8 {
    if bit == 1 then 2 else 1
  }

  function Flipped(b: bv8, bit: bv8): bv8 {
    if b & bit == 0 then bit else 0
  }

  lemma FlippedBit(b: bv8, bit: bv8)
    requires IsBit(bit)
    ensures Flipped(b, bit) & bit != b & bit && OtherBit(bit) & bit == 0 && bit & bit != 0
  {
  }

  lemma ByteRead(h: Host, mem: seq<bv8>, a: nat)
    requires a < |mem|
    ensures ReadReg(h, mem, Reg(a, M8)) == mem[a] as bv32
  {
  }

  /** Both threads have read the byte: each is ready to store, and nothing has been stored. */
  lemma BothReady(h: Host, s: State, i: nat, o1: Op, j: nat, o2: Op)
    requires WellFormed(s) && i != j && CanBegin(s, i, o1) && CanBegin(s, j, o2) && s.threads[i].dev != s.threads[j].dev
    ensures var s1 := Ready(h, s, i, o1);
      WellFormed(s1) && CanBegin(s1, j, o2) && s1.mem == s.mem && s1.history == s.history
    ensures var s2 := Ready(h, Ready(h, s, i, o1), j, o2);
      && WellFormed(s2) && s2.mem == s.mem && s2.history == s.history
      && |s2.threads| == |s.threads|
      && s2.threads[i].pc == Store(o1, Data(h, s, o1))
      && s2.threads[j].pc == Store(o2, Data(h, s, o2))
  {
    var pc := Store(o1, Data(h, s, o1));
    GotoOk(s.(mutexes := s.mutexes[s.threads[i].dev := Held(i)]), i, pc);
    var s1 := Ready(h, s, i, o1);
    assert s1.threads[j] == s.threads[j] && s1.mutexes[s.threads[j].dev] == s.mutexes[s.threads[j].dev];
    GotoOk(s1.(mutexes := s1.mutexes[s1.threads[j].dev := Held(j)]), j, Store(o2, Data(h, s, o2)));
  }

  /** They store one after the other. */
  lemma StoreBoth(h: Host, s: State, i: nat, o1: Op, d1: bv32, j: nat, o2: Op, d2: bv32)
    returns (steps: seq<Step>, s': State)
    requires WellFormed(s) && i < |s.threads| && j < |s.threads| && i != j
    requires s.threads[i].pc == Store(o1, d1) && Fits(s.mem, o1.reg)
    requires s.threads[j].pc == Store(o2, d2) && Fits(s.mem, o2.reg)
    ensures Run(h, s, steps, s') && |s'.mem| == |s.mem|
    ensures s'.mem == StoreReg(h, StoreReg(h, s.mem, o2.reg, d2), o1.reg, d1)
    ensures s'.history == s.history + [Effect(h, o2)] + [Effect(h, o1)]
  {
    var s1 := Stored(h, s, j, o2, d2);
    GotoOk(s.(mem := StoreReg(h, s.mem, o2.reg, d2), history := s.history + [Effect(h, o2)]), j, Unlock);
    s' := Stored(h, s1, i, o1, d1);
    Stores(h, s, j, o2, d2);
    Stores(h, s1, i, o1, d1);
    steps := Back(h, s1, i, Go, s', [], s');
    steps := Back(h, s, j, Go, s1, steps, s');
  }

  /** The effects of both in this order: the bit should be flipped. */
  lemma ShouldBeFlipped(mem: seq<bv8>, a: nat, bit: bv8, history: seq<Patch>)
    requires a < |mem| && IsBit(bit)
    requires history == [Patch(a, [bit], [Flipped(mem[a], bit)]), Patch(a, [OtherBit(bit)], [0])]
    ensures AllValid(history) && LastWriter(mem, history, a, bit) == Flipped(mem[a], bit) & bit
  {
    FlippedBit(mem[a], bit);
    assert !history[1].Covers(a, bit) && history[0].Covers(a, bit);
    assert history[..1] == [history[0]];
  }

  /** Two threads read a register through two mutexes, then both store. */
  lemma ReadReadStoreStore(h: Host, s0: State, i: nat, o1: Op, j: nat, o2: Op) returns (steps: seq<Step>, s: State)
    requires WellFormed(s0) && i != j && CanBegin(s0, i, o1) && CanBegin(s0, j, o2)
    requires s0.threads[i].dev != s0.threads[j].dev && o1.masked && o2.masked
    ensures Run(h, s0, steps, s) && |s.mem| == |s0.mem|
    ensures s.mem == StoreReg(h,
        StoreReg(h, s0.mem, o2.reg, Merge(ReadReg(h, s0.mem, o2.reg), o2.mask, o2.value)),
        o1.reg, Merge(ReadReg(h, s0.mem, o1.reg), o1.mask, o1.value))
    ensures s.history == s0.history + [Effect(h, o2)] + [Effect(h, o1)]
  {
    BothReady(h, s0, i, o1, j, o2);
    var s1 := Ready(h, s0, i, o1);
    var s2 := Ready(h, s1, j, o2);
    steps, s := StoreBoth(h, s2, i, o1, s2.threads[i].pc.data, j, o2, s2.threads[j].pc.data);
    steps := Prepare(h, s1, j, o2, steps, s);
    steps := Prepare(h, s0, i, o1, steps, s);
  }

  lemma OldBit(h: Host, mem: seq<bv8>, a: nat, b: bv8, bit: bv8)
    requires a < |mem| && IsBit(bit)
    ensures StoreReg(h, mem, Reg(a, M8), Merge(b as bv32, OtherBit(bit) as bv32, 0))[a] & bit == b & bit
  {
    ByteStored(h, mem, a, b, OtherBit(bit), 0);
    MergeBit(b, OtherBit(bit), 0, bit);
    FlippedBit(b, bit);
  }

  lemma NewBit(h: Host, mem: seq<bv8>, a: nat, bit: bv8)
    requires a < |mem| && IsBit(bit)
    ensures var history := [Effect(h, BitOp(a, bit, Flipped(mem[a], bit)))] + [Effect(h, BitOp(a, OtherBit(bit), 0))];
      AllValid(history) && LastWriter(mem, history, a, bit) != mem[a] & bit
  {
    ByteEffect(h, a, bit, Flipped(mem[a], bit));
    ByteEffect(h, a, OtherBit(bit), 0);
    ShouldBeFlipped(mem, a, bit, [Patch(a, [bit], [Flipped(mem[a], bit)])] + [Patch(a, [OtherBit(bit)], [0])]);
    FlippedBit(mem[a], bit);
  }

  /**
    The mutex protects a register only if everybody who writes it uses the same device: wherever two
    devices share a byte, any bit of it can lose an update.
  */
  lemma TwoDevicesLoseAnUpdate(h: Host, s0: State, i: nat, j: nat, a: nat, bit: bv8)
    returns (steps: seq<Step>, s: State)
    requires AtStart(s0) && IsBit(bit)
    requires i < |s0.threads| && j < |s0.threads| && s0.threads[i].dev != s0.threads[j].dev
    requires var d, e := s0.devs[s0.threads[i].dev], s0.devs[s0.threads[j].dev];
      d.lo <= a < d.hi && e.lo <= a < e.hi
    ensures Run(h, s0, steps, s) && AllValid(s.history) && a < |s.mem| == |s0.mem|
    ensures s.mem[a] & bit != LastWriter(s0.mem, s.history, a, bit)
  {
    var mem := s0.mem;
    var o1, o2 := BitOp(a, OtherBit(bit), 0), BitOp(a, bit, Flipped(mem[a], bit));
    steps, s := ReadReadStoreStore(h, s0, i, o1, j, o2);
    assert s.history == [Effect(h, o2)] + [Effect(h, o1)];
    OldValue(h, mem, a, bit, StoreReg(h, mem, o2.reg, Merge(ReadReg(h, mem, o2.reg), o2.mask, o2.value)), s.mem);
    NewBit(h, mem, a, bit);
  }

  lemma OldValue(h: Host, mem: seq<bv8>, a: nat, bit: bv8, between: seq<bv8>, mem': seq<bv8>)
    requires a < |mem| == |between| && IsBit(bit)
    requires var o1 := BitOp(a, OtherBit(bit), 0);
      mem' == StoreReg(h, between, o1.reg, Merge(ReadReg(h, mem, o1.reg), o1.mask, o1.value))
    ensures |mem'| == |mem| && mem'[a] & bit == mem[a] & bit
  {
    ByteRead(h, mem, a);
    OldBit(h, between, a, mem[a], bit);
  }

  lemma SharedByte(d: Range, e: Range) returns (a: nat)
    requires d.lo < d.hi && e.lo < e.hi && !(d.hi <= e.lo || e.hi <= d.lo)
    ensures d.lo <= a < d.hi && e.lo <= a < e.hi
  {
    a := if d.lo < e.lo then e.lo else d.lo;
  }

  /** So the condition of `LastWriteWins`, that ranges do not overlap, is exactly what devices in use need. */
  lemma SeparationIsNeeded(h: Host, s0: State, i: nat, j: nat, bit: bv8) returns (a: nat, steps: seq<Step>, s: State)
    requires AtStart(s0) && IsBit(bit)
    requires i < |s0.threads| && j < |s0.threads| && s0.threads[i].dev != s0.threads[j].dev
    requires var d, e := s0.devs[s0.threads[i].dev], s0.devs[s0.threads[j].dev];
      d.lo < d.hi && e.lo < e.hi && !(d.hi <= e.lo || e.hi <= d.lo)
    ensures Run(h, s0, steps, s) && AllValid(s.history) && a < |s.mem| == |s0.mem|
    ensures s.mem[a] & bit != LastWriter(s0.mem, s.history, a, bit)
  {
    a := SharedByte(s0.devs[s0.threads[i].dev], s0.devs[s0.threads[j].dev]);
    steps, s := TwoDevicesLoseAnUpdate(h, s0, i, j, a, bit);
  }
}
