/** Registers, the output and input records on them, and the locked read-modify-write of their fields. */
module BusRegister {
  import opened BusMemory
  import opened BusAccess

  /** A register: its address relative to the start of the memory and its access method. */
  datatype Reg = Reg(addr: nat, acc: Access)

  predicate Fits(mem: seq<bv8>, reg: Reg) {
    reg.addr + Width(reg.acc) <= |mem|
  }

  function Bytes(mem: seq<bv8>, reg: Reg): (s: seq<bv8>)
    requires Fits(mem, reg)
    ensures |s| == Width(reg.acc)
  {
    mem[reg.addr..reg.addr + Width(reg.acc)]
  }

  /** The `rd` routine. */
  function ReadReg(h: Host, mem: seq<bv8>, reg: Reg): bv32
    requires Fits(mem, reg)
  {
    Decode(h, reg.acc, Bytes(mem, reg))
  }

  /** The `wr` routine. */
  function StoreReg(h: Host, mem: seq<bv8>, reg: Reg, v: bv32): (r: seq<bv8>)
    requires Fits(mem, reg)
    ensures |r| == |mem|
  {
    mem[..reg.addr] + Encode(h, reg.acc, v) + mem[reg.addr + Width(reg.acc)..]
  }

  /** What is meant to happen: the bits of `value` under `mask` go to the register, and nothing else. */
  function PatchOf(h: Host, reg: Reg, mask: bv32, value: bv32): (p: Patch)
    ensures p.Valid()
  {
    Patch(reg.addr, Encode(h, reg.acc, mask), Encode(h, reg.acc, value))
  }

  lemma NoMask(b: bv8, v: bv8)
    ensures Merge8(b, 0, v) == b && Merge8(b, 0xff, v) == v
  {
  }

  lemma PatchEffect(h: Host, mem: seq<bv8>, reg: Reg, p: Patch, s: seq<bv8>)
    requires Fits(mem, reg) && p.Valid() && p.addr == reg.addr && |p.mask| == Width(reg.acc) == |s|
    requires s == MergeBytes(Bytes(mem, reg), p.mask, p.value)
    ensures mem[..reg.addr] + s + mem[reg.addr + Width(reg.acc)..] == MaskedWrite(mem, p)
  {
    var r := mem[..reg.addr] + s + mem[reg.addr + Width(reg.acc)..];
    forall a: nat | a < |mem|
      ensures r[a] == MaskedWrite(mem, p)[a]
    {
      NoMask(mem[a], 0);
    }
  }

  /** Read, merge and store together are one masked write. */
  lemma ReadModifyWrite(h: Host, mem: seq<bv8>, reg: Reg, mask: bv32, value: bv32)
    requires Fits(mem, reg)
    ensures StoreReg(h, mem, reg, Merge(ReadReg(h, mem, reg), mask, value))
         == MaskedWrite(mem, PatchOf(h, reg, mask, value))
  {
    var s := Bytes(mem, reg);
    MaskedWriteBytes(h, reg.acc, s, mask, value);
    EncodeLanes(h, reg.acc, mask);
    EncodeLanes(h, reg.acc, value);
    PatchEffect(h, mem, reg, PatchOf(h, reg, mask, value),
      Encode(h, reg.acc, Merge(Decode(h, reg.acc, s), mask, value)));
  }

  lemma AllOnes(little: bool, n: nat)
    requires n == 4 || n == 2 || n == 1
    ensures forall k | 0 <= k < n :: Lanes(little, n, 0xffffffff)[k] == 0xff
  {
  }

  /** A plain store is a masked write with all bits in the mask. */
  lemma PlainWrite(h: Host, mem: seq<bv8>, reg: Reg, v: bv32)
    requires Fits(mem, reg)
    ensures StoreReg(h, mem, reg, v) == MaskedWrite(mem, PatchOf(h, reg, 0xffffffff, v))
  {
    var p, s := PatchOf(h, reg, 0xffffffff, v), Bytes(mem, reg);
    EncodeLanes(h, reg.acc, 0xffffffff);
    AllOnes(LittleEndian(h, reg.acc), Width(reg.acc));
    forall k: nat | k < |s|
      ensures Encode(h, reg.acc, v)[k] == MergeBytes(s, p.mask, p.value)[k]
    {
      NoMask(s[k], p.value[k]);
    }
    PatchEffect(h, mem, reg, p, Encode(h, reg.acc, v));
  }

  // ---------------------------------------------------------------- reading a field back

  lemma AndByte0(x: bv32, m: bv32)
    ensures Byte0(And(x, m)) == Byte0(x) & Byte0(m)
  {
  }

  lemma AndByte1(x: bv32, m: bv32)
    ensures Byte1(And(x, m)) == Byte1(x) & Byte1(m)
  {
  }

  lemma AndByte2(x: bv32, m: bv32)
    ensures Byte2(And(x, m)) == Byte2(x) & Byte2(m)
  {
  }

  lemma AndByte3(x: bv32, m: bv32)
    ensures Byte3(And(x, m)) == Byte3(x) & Byte3(m)
  {
  }

  lemma AndByte(x: bv32, m: bv32, j: nat)
    requires j < 4
    ensures ByteOf(And(x, m), j) == ByteOf(x, j) & ByteOf(m, j)
  {
    if j < 2 {
      AndLowByte(x, m, j);
    } else {
      AndHighByte(x, m, j);
    }
  }

  lemma AndLowByte(x: bv32, m: bv32, j: nat)
    requires j < 2
    ensures ByteOf(And(x, m), j) == ByteOf(x, j) & ByteOf(m, j)
  {
    if j == 0 {
      AndByte0(x, m);
    } else {
      AndByte1(x, m);
    }
  }

  lemma AndHighByte(x: bv32, m: bv32, j: nat)
    requires 2 <= j < 4
    ensures ByteOf(And(x, m), j) == ByteOf(x, j) & ByteOf(m, j)
  {
    if j == 2 {
      AndByte2(x, m);
    } else {
      AndByte3(x, m);
    }
  }

  lemma SameBytes(x: bv32, y: bv32)
    requires forall j: nat | j < 4 :: ByteOf(x, j) == ByteOf(y, j)
    ensures x == y
  {
    assert ByteOf(x, 0) == ByteOf(y, 0) && ByteOf(x, 1) == ByteOf(y, 1);
    assert ByteOf(x, 2) == ByteOf(y, 2) && ByteOf(x, 3) == ByteOf(y, 3);
    BytesWord(x);
    BytesWord(y);
  }

  lemma HighBytes(n: nat, mask: bv32, j: nat)
    requires n <= j < 4 && (n == 2 || n == 1) && Cut(n, mask) == mask
    ensures ByteOf(mask, j) == 0
  {
  }

  lemma NoBits(x: bv8)
    ensures x & 0 == 0
  {
  }

  /**
    A field written to a register reads back, through any access method and on any host, after any
    history of writes which do not touch its bits. (A mask wider than the register loses its excess.)
  */
  lemma FieldReadsBack(h: Host, mem: seq<bv8>, reg: Reg, mask: bv32, value: bv32, ps: seq<Patch>)
    requires Fits(mem, reg) && AllValid(ps)
    requires Cut(Width(reg.acc), mask) == mask
    requires forall q, a: nat | q in ps && a < |mem| :: q.MaskAt(a) & PatchOf(h, reg, mask, value).MaskAt(a) == 0
    ensures And(ReadReg(h, Replay(MaskedWrite(mem, PatchOf(h, reg, mask, value)), ps), reg), mask) == And(value, mask)
  {
    var p := PatchOf(h, reg, mask, value);
    AllFieldsStay(mem, p, ps);
    FieldOf(h, reg.acc, Bytes(Replay(MaskedWrite(mem, p), ps), reg), mask, value);
  }

  lemma FieldByte(little: bool, n: nat, d: bv32, mask: bv32, value: bv32, j: nat)
    requires (n == 4 || n == 2 || n == 1) && Cut(n, mask) == mask && j < 4
    requires forall k | 0 <= k < n ::
      Lanes(little, n, d)[k] & Lanes(little, n, mask)[k] == Lanes(little, n, value)[k] & Lanes(little, n, mask)[k]
    ensures ByteOf(d, j) & ByteOf(mask, j) == ByteOf(value, j) & ByteOf(mask, j)
  {
    if j < n {
      var k := if little then j else n - 1 - j;
      LaneAt(little, n, d, k);
      LaneAt(little, n, mask, k);
      LaneAt(little, n, value, k);
    } else {
      HighByte(n, d, mask, value, j);
    }
  }

  lemma HighByte(n: nat, d: bv32, mask: bv32, value: bv32, j: nat)
    requires (n == 2 || n == 1) && Cut(n, mask) == mask && n <= j < 4
    ensures ByteOf(d, j) & ByteOf(mask, j) == ByteOf(value, j) & ByteOf(mask, j)
  {
    HighBytes(n, mask, j);
    NoBits(ByteOf(d, j));
    NoBits(ByteOf(value, j));
  }

  lemma FieldWord(little: bool, n: nat, d: bv32, mask: bv32, value: bv32)
    requires (n == 4 || n == 2 || n == 1) && Cut(n, mask) == mask
    requires forall k | 0 <= k < n ::
      Lanes(little, n, d)[k] & Lanes(little, n, mask)[k] == Lanes(little, n, value)[k] & Lanes(little, n, mask)[k]
    ensures And(d, mask) == And(value, mask)
  {
    forall j: nat | j < 4
      ensures ByteOf(And(d, mask), j) == ByteOf(And(value, mask), j)
    {
      AndByte(d, mask, j);
      AndByte(value, mask, j);
      FieldByte(little, n, d, mask, value, j);
    }
    SameBytes(And(d, mask), And(value, mask));
  }

  lemma FieldOf(h: Host, a: Access, s: seq<bv8>, mask: bv32, value: bv32)
    requires |s| == Width(a) && Cut(Width(a), mask) == mask
    requires forall k | 0 <= k < |s| :: s[k] & Encode(h, a, mask)[k] == Encode(h, a, value)[k] & Encode(h, a, mask)[k]
    ensures And(Decode(h, a, s), mask) == And(value, mask)
  {
    DecodeLanes(h, a, s);
    EncodeLanes(h, a, mask);
    EncodeLanes(h, a, value);
    FieldWord(LittleEndian(h, a), Width(a), Decode(h, a, s), mask, value);
  }

  // ---------------------------------------------------------------- merging into an unset value

  lemma AndOr(a: bv32, b: bv32, c: bv32)
    ensures And(Or(a, b), c) == Or(And(a, c), And(b, c))
  {
  }

  lemma AndNotOr(a: bv32, b: bv32, m: bv32)
    ensures AndNot(Or(a, b), m) == Or(AndNot(a, m), AndNot(b, m))
  {
  }

  lemma Exchange(x: bv32, m: bv32, c: bv32)
    ensures And(AndNot(x, m), c) == AndNot(And(x, c), m)
  {
  }

  lemma Again(p: bv32, m: bv32)
    ensures AndNot(AndNot(p, m), m) == AndNot(p, m) && Or(p, 0) == p
  {
  }

  lemma Nothing(v: bv32, m: bv32, c: bv32)
    ensures AndNot(And(And(v, m), c), m) == 0
  {
  }

  lemma All(v: bv32)
    ensures And(v, 0xffffffff) == v
  {
  }

  /** What a merge leaves under `c` outside the mask, and what it puts together. */
  lemma MergeUnder(x: bv32, mask: bv32, value: bv32, c: bv32)
    ensures And(Merge(x, mask, value), c) == Or(AndNot(And(x, c), mask), And(And(value, mask), c))
    ensures AndNot(And(Merge(x, mask, value), c), mask) == AndNot(And(x, c), mask)
  {
    var p, q := And(x, c), And(And(value, mask), c);
    AndOr(AndNot(x, mask), And(value, mask), c);
    Exchange(x, mask, c);
    AndNotOr(AndNot(p, mask), q, mask);
    Again(p, mask);
    Again(AndNot(p, mask), mask);
    Nothing(value, mask, c);
  }

  lemma SameParts(a: bv32, b: bv32, p: bv32, q: bv32, r: bv32)
    requires a == Or(p, r) && b == Or(q, r) && (a == b ==> p == q)
    ensures a == b <==> p == q
  {
  }

  lemma SameUnder(c: bv32, x: bv32, y: bv32, mask: bv32, value: bv32)
    ensures And(Merge(x, mask, value), c) == And(Merge(y, mask, value), c)
       <==> AndNot(And(x, c), mask) == AndNot(And(y, c), mask)
  {
    MergeUnder(x, mask, value, c);
    MergeUnder(y, mask, value, c);
    var a, b := And(Merge(x, mask, value), c), And(Merge(y, mask, value), c);
    SameParts(a, b, AndNot(And(x, c), mask), AndNot(And(y, c), mask), And(And(value, mask), c));
  }

  /** The bits of a register of `n` bytes. */
  function Ones(n: nat): bv32 {
    if n == 4 then 0xffffffff else if n == 2 then 0xffff else 0xff
  }

  lemma CutWord(v: bv32)
    ensures Cut(4, v) == And(v, Ones(4))
  {
    All(v);
  }

  lemma CutShort(v: bv32)
    ensures Cut(2, v) == And(v, Ones(2))
  {
  }

  lemma CutByte(n: nat, v: bv32)
    requires n != 4 && n != 2
    ensures Cut(n, v) == And(v, Ones(n))
  {
  }

  lemma CutIsAnd(n: nat, v: bv32)
    ensures Cut(n, v) == And(v, Ones(n))
  {
    if n == 4 {
      CutWord(v);
    } else if n == 2 {
      CutShort(v);
    } else {
      CutByte(n, v);
    }
  }

  lemma CutMerge(n: nat, x: bv32, y: bv32, mask: bv32, value: bv32)
    ensures Cut(n, Merge(x, mask, value)) == Cut(n, Merge(y, mask, value))
       <==> AndNot(Cut(n, x), mask) == AndNot(Cut(n, y), mask)
  {
    CutIsAnd(n, Merge(x, mask, value));
    CutIsAnd(n, Merge(y, mask, value));
    CutIsAnd(n, x);
    CutIsAnd(n, y);
    SameUnder(Ones(n), x, y, mask, value);
  }

  lemma LowLane(little: bool, n: nat, v: bv32, k: nat)
    requires (n == 4 || n == 2 || n == 1) && k < n
    ensures Lanes(little, n, Cut(n, v))[k] == Lanes(little, n, v)[k]
  {
    LaneAt(little, n, v, k);
    LaneAt(little, n, Cut(n, v), k);
    LowBytes(v);
  }

  lemma CutLanes(little: bool, n: nat, v: bv32)
    requires n == 4 || n == 2 || n == 1
    ensures Lanes(little, n, Cut(n, v)) == Lanes(little, n, v)
  {
    forall k | 0 <= k < n
      ensures Lanes(little, n, Cut(n, v))[k] == Lanes(little, n, v)[k]
    {
      LowLane(little, n, v, k);
    }
  }

  /** Two values are stored as the same bytes exactly if they agree on the width of the register. */
  lemma SameStored(h: Host, a: Access, v: bv32, w: bv32)
    ensures Encode(h, a, v) == Encode(h, a, w) <==> Cut(Width(a), v) == Cut(Width(a), w)
  {
    var little, n := LittleEndian(h, a), Width(a);
    EncodeLanes(h, a, v);
    EncodeLanes(h, a, w);
    JoinLanes(little, n, v);
    JoinLanes(little, n, w);
    CutLanes(little, n, v);
    CutLanes(little, n, w);
  }

  lemma SameMemory(h: Host, mem: seq<bv8>, reg: Reg, v: bv32, w: bv32)
    requires Fits(mem, reg)
    ensures StoreReg(h, mem, reg, v) == StoreReg(h, mem, reg, w) <==> Encode(h, reg.acc, v) == Encode(h, reg.acc, w)
  {
    assert Encode(h, reg.acc, v) == Bytes(StoreReg(h, mem, reg, v), reg);
    assert Encode(h, reg.acc, w) == Bytes(StoreReg(h, mem, reg, w), reg);
  }

  /**
    Merging into some other value than the register's does what it should exactly if that value agrees
    with the register on all bits outside the mask.
  */
  lemma SpoiledExactly(h: Host, mem: seq<bv8>, reg: Reg, x: bv32, mask: bv32, value: bv32)
    requires Fits(mem, reg)
    ensures var n := Width(reg.acc);
      StoreReg(h, mem, reg, Merge(x, mask, value)) == MaskedWrite(mem, PatchOf(h, reg, mask, value))
      <==> AndNot(Cut(n, x), mask) == AndNot(Cut(n, ReadReg(h, mem, reg)), mask)
  {
    var y := ReadReg(h, mem, reg);
    ReadModifyWrite(h, mem, reg, mask, value);
    SameMemory(h, mem, reg, Merge(x, mask, value), Merge(y, mask, value));
    SameStored(h, reg.acc, Merge(x, mask, value), Merge(y, mask, value));
    CutMerge(Width(reg.acc), x, y, mask, value);
  }

  /** The mask leaves out some bit of a register of `n` bytes. */
  predicate Partial(n: nat, mask: bv32) {
    AndNot(Ones(n), mask) != 0
  }

  function Not(v: bv32): bv32 { !v }

  lemma AgreeUnder(c: bv32, x: bv32, y: bv32, m: bv32)
    ensures AndNot(c, m) == 0 ==> AndNot(And(x, c), m) == AndNot(And(y, c), m)
  {
    Exchange2(x, c, m);
    Exchange2(y, c, m);
  }

  lemma Exchange2(x: bv32, c: bv32, m: bv32)
    ensures AndNot(And(x, c), m) == And(x, AndNot(c, m)) && And(x, 0) == 0
  {
  }

  lemma DifferUnder(c: bv32, y: bv32, m: bv32)
    ensures AndNot(c, m) != 0 ==> AndNot(And(Not(y), c), m) != AndNot(And(y, c), m)
  {
    Exchange2(y, c, m);
    Exchange2(Not(y), c, m);
    Complement(y, AndNot(c, m));
  }

  lemma Complement(y: bv32, d: bv32)
    ensures d != 0 ==> And(Not(y), d) != And(y, d)
  {
  }

  lemma Agree(n: nat, x: bv32, y: bv32, mask: bv32)
    ensures !Partial(n, mask) ==> AndNot(Cut(n, x), mask) == AndNot(Cut(n, y), mask)
    ensures Partial(n, mask) ==> AndNot(Cut(n, Not(y)), mask) != AndNot(Cut(n, y), mask)
  {
    CutIsAnd(n, x);
    CutIsAnd(n, y);
    CutIsAnd(n, Not(y));
    AgreeUnder(Ones(n), x, y, mask);
    DifferUnder(Ones(n), y, mask);
  }

  /** A value which is merged in place of the register's can spoil the register exactly if the mask is partial. */
  lemma SpoilerExists(h: Host, mem: seq<bv8>, reg: Reg, mask: bv32, value: bv32)
    requires Fits(mem, reg)
    ensures (exists x :: StoreReg(h, mem, reg, Merge(x, mask, value)) != MaskedWrite(mem, PatchOf(h, reg, mask, value)))
       <==> Partial(Width(reg.acc), mask)
  {
    var n, y := Width(reg.acc), ReadReg(h, mem, reg);
    forall x
      ensures !Partial(n, mask) ==>
        StoreReg(h, mem, reg, Merge(x, mask, value)) == MaskedWrite(mem, PatchOf(h, reg, mask, value))
    {
      SpoiledExactly(h, mem, reg, x, mask, value);
      Agree(n, x, y, mask);
    }
    SpoiledExactly(h, mem, reg, Not(y), mask, value);
    Agree(n, y, y, mask);
  }

  // ---------------------------------------------------------------- records

  function FieldMask(mask: bv32, nobt: nat, shft: bv5): bv32 {
    ShiftLeft(if nobt == 0 then 0xffffffff else mask, shft)
  }

  function ShiftLeft(mask: bv32, shft: bv5): bv32 { mask << shft }

  // ---------------------------------------------------------------- the bits of a field

  /** Bit `k` of a value, counted from the least significant one. */
  predicate HasBit(v: bv32, k: bv5) {
    (v >> k) & 1 == 1
  }

  lemma ShiftedBit(mask: bv32, shft: bv5, k: bv5)
    ensures HasBit(ShiftLeft(mask, shft), k) <==> k >= shft && HasBit(mask, k - shft)
  {
  }

  lemma EveryBit(k: bv5)
    ensures HasBit(0xffffffff, k)
  {
  }

  /** The mask of a record after initialisation: MASK, or all bits, moved to SHFT. */
  lemma FieldMaskBit(mask: bv32, nobt: nat, shft: bv5, k: bv5)
    ensures HasBit(FieldMask(mask, nobt, shft), k) <==> k >= shft && (nobt == 0 || HasBit(mask, k - shft))
  {
    ShiftedBit(if nobt == 0 then 0xffffffff else mask, shft, k);
    EveryBit(k - shft);
  }

  /** `mask` is MASK, or all bits if NOBT is 0, moved to SHFT. */
  ghost predicate MovedMask(mask: bv32, was: bv32, nobt: nat, shft: bv5) {
    forall k: bv5 :: HasBit(mask, k) <==> k >= shft && (nobt == 0 || HasBit(was, k - shft))
  }

  lemma FieldMaskBits(mask: bv32, nobt: nat, shft: bv5)
    ensures MovedMask(FieldMask(mask, nobt, shft), mask, nobt, shft)
  {
    forall k: bv5
      ensures HasBit(FieldMask(mask, nobt, shft), k) <==> k >= shft && (nobt == 0 || HasBit(mask, k - shft))
    {
      FieldMaskBit(mask, nobt, shft, k);
    }
  }

  /** 2^n - 1, which record support makes MASK if it is not set. */
  function LowOnes(n: nat): bv32
    requires n <= 32
  {
    if n == 0 then 0 else (LowOnes(n - 1) << 1) | 1
  }

  lemma PushedBit(x: bv32, k: bv5)
    ensures HasBit((x << 1) | 1, k) <==> k == 0 || HasBit(x, k - 1)
  {
  }

  lemma NoBit(k: bv5)
    ensures !HasBit(0, k)
  {
  }

  lemma {:induction false} LowOnesBit(n: nat, k: bv5)
    requires n <= 32
    ensures HasBit(LowOnes(n), k) <==> k as nat < n
  {
    if n == 0 {
      NoBit(k);
    } else {
      PushedBit(LowOnes(n - 1), k);
      if k != 0 {
        LowOnesBit(n - 1, k - 1);
      }
    }
  }

  /** The field of a record with MASK 2^NOBT - 1: `nobt` bits from `shft` on, or all of them if NOBT is 0. */
  predicate InField(nobt: nat, shft: bv5, k: bv5) {
    shft <= k && (nobt == 0 || k as nat < shft as nat + nobt)
  }

  lemma Difference(k: bv5, shft: bv5)
    requires k >= shft
    ensures (k - shft) as nat == k as nat - shft as nat
  {
  }

  lemma FieldMaskRange(nobt: nat, shft: bv5, k: bv5)
    requires nobt <= 32
    ensures HasBit(FieldMask(LowOnes(nobt), nobt, shft), k) <==> InField(nobt, shft, k)
  {
    FieldMaskBit(LowOnes(nobt), nobt, shft, k);
    if k >= shft {
      LowOnesBit(nobt, k - shft);
      Difference(k, shft);
    }
  }

  /** Bit `k` is one of a register of `n` bytes. */
  predicate InRegister(n: nat, k: bv5) {
    n == 4 || (n == 2 && k < 16) || (n == 1 && k < 8)
  }

  lemma CutBit(n: nat, v: bv32, k: bv5)
    requires InRegister(n, k)
    ensures HasBit(Cut(n, v), k) <==> HasBit(v, k)
  {
  }

  lemma SignBit(v: bv32, k: bv5)
    ensures k < 16 ==> (HasBit(Sign16(v), k) <==> HasBit(v, k))
    ensures k < 8 ==> (HasBit(Sign8(v), k) <==> HasBit(v, k))
  {
  }

  lemma ExtendBit(a: Access, v: bv32, k: bv5)
    requires InRegister(Width(a), k)
    ensures HasBit(Extend(a, v), k) <==> HasBit(v, k)
  {
    SignBit(v, k);
  }

  lemma AndBit(x: bv32, mask: bv32, k: bv5)
    ensures HasBit(And(x, mask), k) <==> HasBit(mask, k) && HasBit(x, k)
  {
  }

  lemma AndNotBit(x: bv32, mask: bv32, k: bv5)
    ensures HasBit(AndNot(x, mask), k) <==> !HasBit(mask, k) && HasBit(x, k)
  {
  }

  lemma OrBit(x: bv32, y: bv32, k: bv5)
    ensures HasBit(Or(x, y), k) <==> HasBit(x, k) || HasBit(y, k)
  {
  }

  lemma MergedBit(x: bv32, mask: bv32, value: bv32, k: bv5)
    ensures HasBit(Merge(x, mask, value), k) <==> if HasBit(mask, k) then HasBit(value, k) else HasBit(x, k)
  {
    OrBit(AndNot(x, mask), And(value, mask), k);
    AndNotBit(x, mask, k);
    AndBit(value, mask, k);
  }

  lemma StoredBits(h: Host, mem: seq<bv8>, reg: Reg, v: bv32)
    requires Fits(mem, reg)
    ensures ReadReg(h, StoreReg(h, mem, reg, v), reg) == Extend(reg.acc, Cut(Width(reg.acc), v))
  {
    assert Bytes(StoreReg(h, mem, reg, v), reg) == Encode(h, reg.acc, v);
    DecodeEncode(h, reg.acc, v);
  }

  /** A masked write puts the bits of the value under the mask into the register and keeps the other ones. */
  lemma WrittenBit(h: Host, mem: seq<bv8>, reg: Reg, mask: bv32, value: bv32, k: bv5)
    requires Fits(mem, reg) && InRegister(Width(reg.acc), k)
    ensures HasBit(ReadReg(h, MaskedWrite(mem, PatchOf(h, reg, mask, value)), reg), k)
       <==> if HasBit(mask, k) then HasBit(value, k) else HasBit(ReadReg(h, mem, reg), k)
  {
    var x := ReadReg(h, mem, reg);
    var v := Merge(x, mask, value);
    ReadModifyWrite(h, mem, reg, mask, value);
    StoredBits(h, mem, reg, v);
    ExtendBit(reg.acc, Cut(Width(reg.acc), v), k);
    CutBit(Width(reg.acc), v, k);
    MergedBit(x, mask, value, k);
  }

  /**
    What writing and reading through a record with MASK 2^NOBT - 1 does after initialisation, bit by
    bit: the write replaces the bits of the field and no other, the read returns them and no other.
  */
  lemma FieldBits(h: Host, mem: seq<bv8>, reg: Reg, nobt: nat, shft: bv5, value: bv32, k: bv5)
    requires Fits(mem, reg) && nobt <= 32 && InRegister(Width(reg.acc), k)
    ensures var mask := FieldMask(LowOnes(nobt), nobt, shft);
      var mem' := MaskedWrite(mem, PatchOf(h, reg, mask, value));
      && (HasBit(ReadReg(h, mem', reg), k)
          <==> if InField(nobt, shft, k) then HasBit(value, k) else HasBit(ReadReg(h, mem, reg), k))
      && (HasBit(And(ReadReg(h, mem, reg), mask), k)
          <==> InField(nobt, shft, k) && HasBit(ReadReg(h, mem, reg), k))
  {
    var mask := FieldMask(LowOnes(nobt), nobt, shft);
    FieldMaskRange(nobt, shft, k);
    WrittenBit(h, mem, reg, mask, value, k);
    AndBit(ReadReg(h, mem, reg), mask, k);
  }

  /** The bus as a CPU sees it. */
  class Bus {
    const host: Host
    const mem: array<bv8>

    constructor (host: Host, mem: array<bv8>)
      ensures this.host == host && this.mem == mem
    {
      this.host := host;
      this.mem := mem;
    }

    /** The `wr` routine of a predefined access method; it does not fail. */
    method Put(reg: Reg, v: bv32)
      requires Fits(mem[..], reg)
      modifies mem
      ensures mem[..] == StoreReg(host, old(mem[..]), reg, v)
    {
      var s := Encode(host, reg.acc, v);
      forall k | 0 <= k < |s| {
        mem[reg.addr + k] := s[k];
      }
    }
  }

  /** The fields of the bo, mbbo and mbbi records which take part. */
  class Record {
    const reg: Reg
    var mask: bv32
    var rval: bv32
    var rbv: bv32
    var pending: bool   // the severity raised (NSEV) is INVALID
    var current: bool   // the severity of the record (SEVR) is INVALID

    constructor (reg: Reg, mask: bv32, rval: bv32)
      ensures this.reg == reg && this.mask == mask && this.rval == rval && !pending && !current
    {
      this.reg, this.mask, this.rval, this.rbv, this.pending, this.current := reg, mask, rval, 0, false, false;
    }

    /**
      `devBusMappedGetVal`; `status` is what the access routine returns. If that is not 0 the routine
      may have left the value unset.
    */
    method GetVal(bus: Bus, status: int) returns (r: int, v: bv32)
      requires Fits(bus.mem[..], reg)
      modifies `pending
      ensures r == status && (status == 0 ==> v == ReadReg(bus.host, bus.mem[..], reg))
      ensures pending == (old(pending) || status != 0)
    {
      v := *;
      if status == 0 {
        v := ReadReg(bus.host, bus.mem[..], reg);
      }
      r := status;
      if r != 0 {
        pending := true;
      }
    }

    /** `devBusMappedPutVal`; an access routine which reports an error has stored nothing. */
    method PutVal(bus: Bus, v: bv32, status: int) returns (r: int)
      requires Fits(bus.mem[..], reg)
      modifies bus.mem, `pending
      ensures r == status && pending == (old(pending) || status != 0)
      ensures bus.mem[..] == if status == 0 then StoreReg(bus.host, old(bus.mem[..]), reg, v) else old(bus.mem[..])
    {
      if status == 0 {
        bus.Put(reg, v);
      }
      r := status;
      if r != 0 {
        pending := true;
      }
    }

    /**
      `write_bo`, between lock and unlock; `rd` and `wr` are what the access routines return. Only a
      negative `rd` stops the write: after a positive one an unset value is merged.
    */
    method WriteBo(bus: Bus, rd: int, wr: int) returns (r: int)
      requires Fits(bus.mem[..], reg)
      modifies bus.mem, `pending
      ensures mask != 0 && rd < 0 ==> r == rd && pending && bus.mem[..] == old(bus.mem[..])
      ensures !(mask != 0 && rd < 0) ==>
        && r == wr && pending == (old(pending) || (mask != 0 && rd != 0) || wr != 0)
        && (wr != 0 ==> bus.mem[..] == old(bus.mem[..]))
      ensures wr == 0 && (mask == 0 || rd == 0) ==>
        bus.mem[..] == MaskedWrite(old(bus.mem[..]),
          PatchOf(bus.host, reg, if mask != 0 then mask else 0xffffffff, rval))
      ensures wr == 0 && mask != 0 && rd > 0 ==>
        && (exists x: bv32 :: bus.mem[..] == StoreReg(bus.host, old(bus.mem[..]), reg, Merge(x, mask, rval)))
        && (!Partial(Width(reg.acc), mask) ==>
             bus.mem[..] == MaskedWrite(old(bus.mem[..]), PatchOf(bus.host, reg, mask, rval)))
    {
      var v: bv32;
      ghost var x: bv32 := 0;
      if mask != 0 {
        r, v := GetVal(bus, rd);
        if r < 0 {
          return;
        }
        x := v;
        v := AndNot(v, mask);
        v := Or(v, And(rval, mask));
      } else {
        v := rval;
      }
      assert mask != 0 ==> v == Merge(x, mask, rval);
      ReadModifyWrite(bus.host, bus.mem[..], reg, mask, rval);
      PlainWrite(bus.host, bus.mem[..], reg, rval);
      SpoilerExists(bus.host, bus.mem[..], reg, mask, rval);
      r := PutVal(bus, v, wr);
    }

    /** `write_mbbo`, between lock and unlock. */
    method WriteMbbo(bus: Bus, rd: int, wr: int) returns (r: int)
      requires Fits(bus.mem[..], reg)
      modifies bus.mem, `pending, `rbv
      ensures rd < 0 ==> r == rd && pending && rbv == old(rbv) && bus.mem[..] == old(bus.mem[..])
      ensures rd >= 0 ==>
        && r == wr && pending == (old(pending) || rd != 0 || wr != 0)
        && (wr != 0 ==> bus.mem[..] == old(bus.mem[..]))
      ensures rd == 0 ==> rbv == ReadReg(bus.host, old(bus.mem[..]), reg)
      ensures rd == 0 && wr == 0 ==>
        bus.mem[..] == MaskedWrite(old(bus.mem[..]), PatchOf(bus.host, reg, mask, rval))
      ensures rd > 0 && wr == 0 ==>
        && bus.mem[..] == StoreReg(bus.host, old(bus.mem[..]), reg, Merge(rbv, mask, rval))
        && ((bus.mem[..] == MaskedWrite(old(bus.mem[..]), PatchOf(bus.host, reg, mask, rval)))
            <==> (AndNot(Cut(Width(reg.acc), rbv), mask)
                  == AndNot(Cut(Width(reg.acc), ReadReg(bus.host, old(bus.mem[..]), reg)), mask)))
    {
      var data: bv32;
      r, data := GetVal(bus, rd);
      if r < 0 {
        return;
      }
      rbv := data;
      data := AndNot(data, mask);
      data := Or(data, And(rval, mask));
      assert data == Merge(rbv, mask, rval);
      ReadModifyWrite(bus.host, bus.mem[..], reg, mask, rval);
      SpoiledExactly(bus.host, bus.mem[..], reg, rbv, mask, rval);
      r := PutVal(bus, data, wr);
    }

    /** `read_mbbi`: a negative status leaves the value alone. */
    method ReadMbbi(bus: Bus, status: int) returns (r: int)
      requires Fits(bus.mem[..], reg)
      modifies `pending, `rval
      ensures r == status && pending == (old(pending) || status != 0)
      ensures status == 0 ==> rval == And(ReadReg(bus.host, bus.mem[..], reg), mask)
      ensures status < 0 ==> rval == old(rval)
      ensures status > 0 ==> exists x: bv32 :: rval == And(x, mask)
    {
      var v: bv32;
      r, v := GetVal(bus, status);
      if r >= 0 {
        rval := And(v, mask);
        assert rval == And(v, mask);
      }
    }

    /** The mask of mbbo and mbbi records: all bits if NOBT is 0. */
    method ShiftMask(nobt: nat, shft: bv5)
      modifies `mask
      ensures mask == FieldMask(old(mask), nobt, shft)
      ensures MovedMask(mask, old(mask), nobt, shft)
    {
      FieldMaskBits(mask, nobt, shft);
      if nobt == 0 {
        mask := 0xffffffff;
      }
      mask := ShiftLeft(mask, shft);
    }

    /** The mask set-up of the mbbo record; the register is left alone. */
    method InitMbbo(bus: Bus, status: int, nobt: nat, shft: bv5, pini: bool) returns (r: int)
      requires Fits(bus.mem[..], reg)
      modifies `pending, `current, `mask, `rval, `rbv
      ensures mask == FieldMask(old(mask), nobt, shft) && rval == And(rbv, mask)
      ensures MovedMask(mask, old(mask), nobt, shft)
      ensures status == 0 ==> rbv == ReadReg(bus.host, bus.mem[..], reg)
      ensures r == (if pini then 2 else 0)
      ensures pending == (pini && (old(pending) || status != 0))
      ensures current == if pini then old(current) else old(pending) || status != 0
    {
      ShiftMask(nobt, shft);
      var st, v := GetVal(bus, status);
      rbv := v;
      rval := v;
      rval := And(rval, mask);
      if pini {
        return 2;
      }
      ResetAlarms();
      return 0;
    }

    /** `recGblResetAlarms`: the severity which has been raised becomes that of the record. */
    method ResetAlarms()
      modifies `pending, `current
      ensures current == old(pending) && !pending
    {
      current, pending := pending, false;
    }
  }
}
