/**
  Access methods for bus registers: how a 32-bit value is stored in and read from the bytes of a
  register on little- and big-endian hosts. `In...`/`Out...` follow the code; what they promise
  is stated against the bytes in address order.
*/
module BusAccess {
  import opened BusMemory

  datatype Host = Little | Big

  datatype Access =
    | M32 | Be32 | Le32
    | M16 | M16s | Be16 | Be16s | Le16 | Le16s
    | M8 | M8s | Io8 | Io8s

  // ---------------------------------------------------------------- words and their bytes

  function Byte0(v: bv32): bv8 { (v & 0xff) as bv8 }
  function Byte1(v: bv32): bv8 { ((v >> 8) & 0xff) as bv8 }
  function Byte2(v: bv32): bv8 { ((v >> 16) & 0xff) as bv8 }
  function Byte3(v: bv32): bv8 { (v >> 24) as bv8 }

  function Word(b0: bv8, b1: bv8, b2: bv8, b3: bv8): bv32 {
    ((b3 as bv32) << 24) | ((b2 as bv32) << 16) | ((b1 as bv32) << 8) | (b0 as bv32)
  }

  /** `*addr = v` for a 32-bit and a 16-bit word. */
  function Store32(h: Host, v: bv32): (s: seq<bv8>) {
    if h.Little? then [Byte0(v), Byte1(v), Byte2(v), Byte3(v)] else [Byte3(v), Byte2(v), Byte1(v), Byte0(v)]
  }

  function Store16(h: Host, v: bv32): (s: seq<bv8>) {
    if h.Little? then [Byte0(v), Byte1(v)] else [Byte1(v), Byte0(v)]
  }

  /** `*addr` for a 32-bit and a 16-bit word. */
  function Load32(h: Host, s: seq<bv8>): bv32
    requires |s| == 4
  {
    if h.Little? then Word(s[0], s[1], s[2], s[3]) else Word(s[3], s[2], s[1], s[0])
  }

  function Load16(h: Host, s: seq<bv8>): bv32
    requires |s| == 2
  {
    if h.Little? then Word(s[0], s[1], 0, 0) else Word(s[1], s[0], 0, 0)
  }

  function ByteRev(v: bv32): bv32 {
    ((v & 0xff000000) >> 24) | ((v & 0x00ff0000) >> 8) | ((v & 0x0000ff00) << 8) | ((v & 0x000000ff) << 24)
  }

  function ByteSwap(v: bv32): bv32 {
    ((v & 0xff) << 8) | ((v >> 8) & 0xff)
  }

  // ---------------------------------------------------------------- the portable operations

  /** `htonl`/`ntohl` and `htons`/`ntohs`: the identity on a big-endian host. */
  function Net32(h: Host, v: bv32): bv32 { if h.Little? then ByteRev(v) else v }
  function Net16(h: Host, v: bv32): bv32 { if h.Little? then ByteSwap(v) else v }

  function OutLe32(h: Host, v: bv32): seq<bv8> { Store32(h, if h.Little? then v else ByteRev(v)) }
  function OutBe32(h: Host, v: bv32): seq<bv8> { Store32(h, Net32(h, v)) }
  function OutLe16(h: Host, v: bv32): seq<bv8> { Store16(h, if h.Little? then v else ByteSwap(v)) }
  function OutBe16(h: Host, v: bv32): seq<bv8> { Store16(h, Net16(h, v)) }

  /** On a big-endian host the bytes of the word just read are assembled one by one. */
  function InLe32(h: Host, s: seq<bv8>): bv32
    requires |s| == 4
  {
    if h.Little? then Load32(h, s)
    else ((s[3] as bv32) << 24) | ((s[2] as bv32) << 16) | ((s[1] as bv32) << 8) | (s[0] as bv32)
  }

  function InLe16(h: Host, s: seq<bv8>): bv32
    requires |s| == 2
  {
    if h.Little? then Load16(h, s) else ((s[1] as bv32) << 8) | (s[0] as bv32)
  }

  function InBe32(h: Host, s: seq<bv8>): bv32
    requires |s| == 4
  {
    Net32(h, Load32(h, s))
  }

  function InBe16(h: Host, s: seq<bv8>): bv32
    requires |s| == 2
  {
    Net16(h, Load16(h, s))
  }

  // ---------------------------------------------------------------- the access methods

  function Width(a: Access): nat {
    match a
    case M32 | Be32 | Le32 => 4
    case M16 | M16s | Be16 | Be16s | Le16 | Le16s => 2
    case M8 | M8s | Io8 | Io8s => 1
  }

  function Sign16(v: bv32): bv32 { if v & 0x8000 != 0 then v | 0xffff0000 else v }
  function Sign8(v: bv32): bv32 { if v & 0x80 != 0 then v | 0xffffff00 else v }

  /** The `wr` routine: the bytes it stores. */
  function Encode(h: Host, a: Access, v: bv32): (s: seq<bv8>)
    ensures |s| == Width(a)
  {
    match a
    case M32 => Store32(h, v)
    case Be32 => OutBe32(h, v)
    case Le32 => OutLe32(h, v)
    case M16 | M16s => Store16(h, v & 0xffff)
    case Be16 | Be16s => OutBe16(h, v & 0xffff)
    case Le16 | Le16s => OutLe16(h, v & 0xffff)
    case M8 | M8s | Io8 | Io8s => [Byte0(v & 0xff)]
  }

  /** The `rd` routine: the value it reads. */
  function Decode(h: Host, a: Access, s: seq<bv8>): bv32
    requires |s| == Width(a)
  {
    match a
    case M32 => Load32(h, s)
    case Be32 => InBe32(h, s)
    case Le32 => InLe32(h, s)
    case M16 => Load16(h, s)
    case M16s => Sign16(Load16(h, s))
    case Be16 => InBe16(h, s) & 0xffff
    case Be16s => Sign16(InBe16(h, s) & 0xffff)
    case Le16 => InLe16(h, s) & 0xffff
    case Le16s => Sign16(InLe16(h, s) & 0xffff)
    case M8 | Io8 => s[0] as bv32
    case M8s | Io8s => Sign8(s[0] as bv32)
  }

  // ---------------------------------------------------------------- what they promise

  /** Bytes are swapped or not so that the order in memory does not depend on the host. */
  predicate HostNeutral(a: Access) {
    !(a.M32? || a.M16? || a.M16s?)
  }

  predicate LittleEndian(h: Host, a: Access) {
    a.Le32? || a.Le16? || a.Le16s? || (!HostNeutral(a) && h.Little?)
  }

  /** Byte `k` of `v`, counted from the least significant one. */
  function ByteOf(v: bv32, k: nat): bv8
    requires k < 4
  {
    if k == 0 then Byte0(v) else if k == 1 then Byte1(v) else if k == 2 then Byte2(v) else Byte3(v)
  }

  /** The `n` low bytes of `v` in address order. */
  function Lanes(little: bool, n: nat, v: bv32): (s: seq<bv8>)
    requires n == 4 || n == 2 || n == 1
    ensures |s| == n
  {
    seq(n, k requires 0 <= k < n => ByteOf(v, if little then k else n - 1 - k))
  }

  /** The value whose bytes in address order are `s`. */
  function Join(little: bool, s: seq<bv8>): bv32
    requires |s| == 4 || |s| == 2 || |s| == 1
  {
    if |s| == 1 then Word(s[0], 0, 0, 0)
    else if |s| == 2 then (if little then Word(s[0], s[1], 0, 0) else Word(s[1], s[0], 0, 0))
    else if little then Word(s[0], s[1], s[2], s[3])
    else Word(s[3], s[2], s[1], s[0])
  }

  /** What reading adds beyond the width of the register: nothing, or copies of the sign. */
  function Extend(a: Access, w: bv32): bv32 {
    match a
    case M16s | Be16s | Le16s => Sign16(w)
    case M8s | Io8s => Sign8(w)
    case _ => w
  }

  lemma SwapBytes(v: bv32)
    ensures Byte0(ByteRev(v)) == Byte3(v) && Byte1(ByteRev(v)) == Byte2(v)
    ensures Byte2(ByteRev(v)) == Byte1(v) && Byte3(ByteRev(v)) == Byte0(v)
    ensures Byte0(ByteSwap(v)) == Byte1(v) && Byte1(ByteSwap(v)) == Byte0(v)
  {
  }

  lemma LowBytes(v: bv32)
    ensures Byte0(v & 0xffff) == Byte0(v) && Byte1(v & 0xffff) == Byte1(v) && Byte0(v & 0xff) == Byte0(v)
  {
  }

  lemma WordBytes(b0: bv8, b1: bv8, b2: bv8, b3: bv8)
    ensures var w := Word(b0, b1, b2, b3); Byte0(w) == b0 && Byte1(w) == b1 && Byte2(w) == b2 && Byte3(w) == b3
  {
  }

  lemma BytesWord(v: bv32)
    ensures Word(Byte0(v), Byte1(v), Byte2(v), Byte3(v)) == v
  {
  }

  lemma Store32Bytes(h: Host, v: bv32, k: nat)
    requires k < 4
    ensures Store32(h, v)[k] == ByteOf(v, if h.Little? then k else 3 - k)
  {
    if h.Little? {
      assert Store32(h, v) == [Byte0(v), Byte1(v), Byte2(v), Byte3(v)];
    } else {
      assert Store32(h, v) == [Byte3(v), Byte2(v), Byte1(v), Byte0(v)];
    }
  }

  lemma Le32Bytes(h: Host, v: bv32, k: nat)
    requires k < 4
    ensures OutLe32(h, v)[k] == ByteOf(v, k) && OutBe32(h, v)[k] == ByteOf(v, 3 - k)
  {
    SwapBytes(v);
    Store32Bytes(h, v, k);
    Store32Bytes(h, ByteRev(v), k);
  }

  lemma Le16Bytes(h: Host, v: bv32, k: nat)
    requires k < 2
    ensures OutLe16(h, v & 0xffff)[k] == ByteOf(v, k) && OutBe16(h, v & 0xffff)[k] == ByteOf(v, 1 - k)
    ensures Store16(h, v & 0xffff)[k] == ByteOf(v, if h.Little? then k else 1 - k)
  {
    LowBytes(v);
    SwapBytes(v & 0xffff);
  }

  lemma EncodeLane4(h: Host, a: Access, v: bv32, k: nat)
    requires Width(a) == 4 && k < 4
    ensures Encode(h, a, v)[k] == Lanes(LittleEndian(h, a), 4, v)[k]
  {
    Store32Bytes(h, v, k);
    Le32Bytes(h, v, k);
  }

  lemma EncodeLane2(h: Host, a: Access, v: bv32, k: nat)
    requires Width(a) == 2 && k < 2
    ensures Encode(h, a, v)[k] == Lanes(LittleEndian(h, a), 2, v)[k]
  {
    Le16Bytes(h, v, k);
  }

  lemma EncodeLane1(h: Host, a: Access, v: bv32)
    requires Width(a) == 1
    ensures Encode(h, a, v)[0] == Lanes(LittleEndian(h, a), 1, v)[0]
  {
    LowBytes(v);
  }

  /** A value is stored with its bytes in the order the method names. */
  lemma EncodeLanes(h: Host, a: Access, v: bv32)
    ensures Encode(h, a, v) == Lanes(LittleEndian(h, a), Width(a), v)
  {
    forall k | 0 <= k < Width(a)
      ensures Encode(h, a, v)[k] == Lanes(LittleEndian(h, a), Width(a), v)[k]
    {
      if Width(a) == 4 {
        EncodeLane4(h, a, v, k);
      } else if Width(a) == 2 {
        EncodeLane2(h, a, v, k);
      } else {
        EncodeLane1(h, a, v);
      }
    }
  }

  lemma RevWord(b0: bv8, b1: bv8, b2: bv8, b3: bv8)
    ensures ByteRev(Word(b0, b1, b2, b3)) == Word(b3, b2, b1, b0)
  {
  }

  lemma SwapWord(b0: bv8, b1: bv8)
    ensures ByteSwap(Word(b0, b1, 0, 0)) == Word(b1, b0, 0, 0)
  {
  }

  lemma ShortWord(b0: bv8, b1: bv8)
    ensures Word(b0, b1, 0, 0) & 0xffff == Word(b0, b1, 0, 0)
  {
  }

  lemma TwoBytes(b0: bv8, b1: bv8)
    ensures Word(b0, b1, 0, 0) == ((b1 as bv32) << 8) | (b0 as bv32)
  {
  }

  lemma OneByte(b0: bv8)
    ensures Word(b0, 0, 0, 0) == b0 as bv32
  {
  }

  lemma DecodeWord4(h: Host, a: Access, s: seq<bv8>)
    requires |s| == Width(a) == 4
    ensures Decode(h, a, s) == Join(LittleEndian(h, a), s)
  {
    RevWord(s[0], s[1], s[2], s[3]);
    RevWord(s[3], s[2], s[1], s[0]);
  }

  lemma InLe16Joins(h: Host, s: seq<bv8>)
    requires |s| == 2
    ensures InLe16(h, s) & 0xffff == Join(true, s)
  {
    assert InLe16(h, s) == Word(s[0], s[1], 0, 0) by {
      TwoBytes(s[0], s[1]);
    }
    ShortWord(s[0], s[1]);
  }

  lemma InBe16Joins(h: Host, s: seq<bv8>)
    requires |s| == 2
    ensures InBe16(h, s) & 0xffff == Join(false, s)
  {
    assert InBe16(h, s) == Word(s[1], s[0], 0, 0) by {
      SwapWord(s[0], s[1]);
    }
    ShortWord(s[1], s[0]);
  }

  lemma Load16Joins(h: Host, s: seq<bv8>)
    requires |s| == 2
    ensures Load16(h, s) == Join(h.Little?, s)
  {
  }

  lemma DecodeM16(h: Host, a: Access, s: seq<bv8>)
    requires |s| == 2 && (a.M16? || a.M16s?)
    ensures Decode(h, a, s) == Extend(a, Join(LittleEndian(h, a), s))
  {
    Load16Joins(h, s);
  }

  lemma DecodeBe16(h: Host, a: Access, s: seq<bv8>)
    requires |s| == 2 && (a.Be16? || a.Be16s?)
    ensures Decode(h, a, s) == Extend(a, Join(LittleEndian(h, a), s))
  {
    InBe16Joins(h, s);
  }

  lemma DecodeLe16(h: Host, a: Access, s: seq<bv8>)
    requires |s| == 2 && (a.Le16? || a.Le16s?)
    ensures Decode(h, a, s) == Extend(a, Join(LittleEndian(h, a), s))
  {
    InLe16Joins(h, s);
  }

  /** The bytes are put together in the order the method names. */
  lemma DecodeJoin(h: Host, a: Access, s: seq<bv8>)
    requires |s| == Width(a)
    ensures Decode(h, a, s) == Extend(a, Join(LittleEndian(h, a), s))
  {
    if Width(a) == 4 {
      DecodeWord4(h, a, s);
    } else if a.M16? || a.M16s? {
      DecodeM16(h, a, s);
    } else if a.Be16? || a.Be16s? {
      DecodeBe16(h, a, s);
    } else if a.Le16? || a.Le16s? {
      DecodeLe16(h, a, s);
    } else {
      OneByte(s[0]);
    }
  }

  /** For a device method the host plays no role at all. */
  lemma HostIndependent(a: Access, v: bv32, s: seq<bv8>)
    requires HostNeutral(a) && |s| == Width(a)
    ensures Encode(Little, a, v) == Encode(Big, a, v)
    ensures Decode(Little, a, s) == Decode(Big, a, s)
  {
    EncodeLanes(Little, a, v);
    EncodeLanes(Big, a, v);
    DecodeJoin(Little, a, s);
    DecodeJoin(Big, a, s);
  }

  lemma SignBytes(w: bv32)
    ensures Byte0(Sign16(w)) == Byte0(w) && Byte1(Sign16(w)) == Byte1(w) && Byte0(Sign8(w)) == Byte0(w)
  {
  }

  lemma ExtendBytes(a: Access, w: bv32, j: nat)
    requires j < Width(a)
    ensures ByteOf(Extend(a, w), j) == ByteOf(w, j)
  {
    SignBytes(w);
  }

  lemma JoinBytes(little: bool, s: seq<bv8>, j: nat)
    requires |s| == 4 || |s| == 2 || |s| == 1
    requires j < |s|
    ensures ByteOf(Join(little, s), j) == s[if little then j else |s| - 1 - j]
  {
    if |s| == 1 {
      WordBytes(s[0], 0, 0, 0);
    } else if |s| == 2 {
      WordBytes(s[0], s[1], 0, 0);
      WordBytes(s[1], s[0], 0, 0);
    } else {
      WordBytes(s[0], s[1], s[2], s[3]);
      WordBytes(s[3], s[2], s[1], s[0]);
    }
  }

  /** The value read determines the bytes it was read from. */
  lemma DecodeLanes(h: Host, a: Access, s: seq<bv8>)
    requires |s| == Width(a)
    ensures Lanes(LittleEndian(h, a), Width(a), Decode(h, a, s)) == s
  {
    DecodeJoin(h, a, s);
    var little := LittleEndian(h, a);
    forall k: nat | k < Width(a)
      ensures Lanes(little, Width(a), Extend(a, Join(little, s)))[k] == s[k]
    {
      var j := if little then k else Width(a) - 1 - k;
      ExtendBytes(a, Join(little, s), j);
      JoinBytes(little, s, j);
    }
  }

  /** Writing back what was read changes nothing. */
  lemma EncodeDecode(h: Host, a: Access, s: seq<bv8>)
    requires |s| == Width(a)
    ensures Encode(h, a, Decode(h, a, s)) == s
  {
    DecodeLanes(h, a, s);
    EncodeLanes(h, a, Decode(h, a, s));
  }

  lemma TruncatedWord(v: bv32)
    ensures Word(Byte0(v), Byte1(v), 0, 0) == v & 0xffff && Word(Byte0(v), 0, 0, 0) == v & 0xff
  {
  }

  function Cut(n: nat, v: bv32): bv32 {
    if n == 4 then v else if n == 2 then v & 0xffff else v & 0xff
  }

  lemma JoinLanes(little: bool, n: nat, v: bv32)
    requires n == 4 || n == 2 || n == 1
    ensures Join(little, Lanes(little, n, v)) == Cut(n, v)
  {
    var s := Lanes(little, n, v);
    assert forall k | 0 <= k < n :: s[k] == ByteOf(v, if little then k else n - 1 - k);
    if n == 4 {
      BytesWord(v);
    } else if n == 2 {
      TruncatedWord(v);
    } else {
      assert s[0] == ByteOf(v, 0);
      TruncatedWord(v);
    }
  }

  /** Reading back what was written yields the value cut to the width and extended again. */
  lemma DecodeEncode(h: Host, a: Access, v: bv32)
    ensures Decode(h, a, Encode(h, a, v)) == Extend(a, Cut(Width(a), v))
  {
    EncodeLanes(h, a, v);
    DecodeJoin(h, a, Lanes(LittleEndian(h, a), Width(a), v));
    JoinLanes(LittleEndian(h, a), Width(a), v);
  }

  // ---------------------------------------------------------------- reading byte by byte

  predicate Signed(a: Access) {
    a.M16s? || a.Be16s? || a.Le16s? || a.M8s? || a.Io8s?
  }

  /** The index of byte `j` of the value among the bytes of the register. */
  function Lane(little: bool, n: nat, j: nat): (k: nat)
    requires j < n
    ensures k < n
  {
    if little then j else n - 1 - j
  }

  /** The bytes above a 16-bit and an 8-bit value. */
  lemma Sign16Bytes(w: bv32)
    requires w & 0xffff == w
    ensures Byte2(Sign16(w)) == if Byte1(w) & 0x80 != 0 then 0xff else 0
    ensures Byte3(Sign16(w)) == if Byte1(w) & 0x80 != 0 then 0xff else 0
  {
  }

  lemma Sign8Bytes(w: bv32)
    requires w & 0xff == w
    ensures Byte1(Sign8(w)) == if Byte0(w) & 0x80 != 0 then 0xff else 0
    ensures Byte2(Sign8(w)) == if Byte0(w) & 0x80 != 0 then 0xff else 0
    ensures Byte3(Sign8(w)) == if Byte0(w) & 0x80 != 0 then 0xff else 0
  {
  }

  lemma PlainBytes(w: bv32)
    ensures w & 0xffff == w ==> Byte2(w) == 0 && Byte3(w) == 0
    ensures w & 0xff == w ==> Byte1(w) == 0 && Byte2(w) == 0 && Byte3(w) == 0
  {
  }

  lemma ExtendedByte(a: Access, w: bv32, j: nat)
    requires Width(a) <= j < 4 && Cut(Width(a), w) == w
    ensures ByteOf(Extend(a, w), j) == if Signed(a) && ByteOf(w, Width(a) - 1) & 0x80 != 0 then 0xff else 0
  {
    if Width(a) == 2 {
      Sign16Bytes(w);
      PlainBytes(w);
    } else {
      Sign8Bytes(w);
      PlainBytes(w);
    }
  }

  lemma JoinIsCut(little: bool, s: seq<bv8>)
    requires |s| == 4 || |s| == 2 || |s| == 1
    ensures Cut(|s|, Join(little, s)) == Join(little, s)
  {
    if |s| == 2 {
      ShortJoin(little, s);
    } else if |s| == 1 {
      ByteCut(s[0]);
    }
  }

  lemma ShortJoin(little: bool, s: seq<bv8>)
    requires |s| == 2
    ensures Join(little, s) & 0xffff == Join(little, s)
  {
    if little {
      ShortWord(s[0], s[1]);
    } else {
      ShortWord(s[1], s[0]);
    }
  }

  lemma ByteCut(b: bv8)
    ensures Word(b, 0, 0, 0) & 0xff == Word(b, 0, 0, 0)
  {
  }

  /**
    Each byte of the value read: below the width it is a byte of the register, in the order the method
    names; above it 0, or 0xff if the method is a signed one and the top bit of the register is set.
  */
  lemma DecodeBytes(h: Host, a: Access, s: seq<bv8>, j: nat)
    requires |s| == Width(a) && j < 4
    ensures var n, little := Width(a), LittleEndian(h, a);
      ByteOf(Decode(h, a, s), j) ==
        if j < n then s[Lane(little, n, j)]
        else if Signed(a) && s[Lane(little, n, n - 1)] & 0x80 != 0 then 0xff else 0
  {
    var n, little := Width(a), LittleEndian(h, a);
    DecodeJoin(h, a, s);
    if j < n {
      ExtendBytes(a, Join(little, s), j);
      JoinBytes(little, s, j);
    } else {
      JoinIsCut(little, s);
      JoinBytes(little, s, n - 1);
      ExtendedByte(a, Join(little, s), j);
    }
  }

  lemma StoredLane(h: Host, a: Access, v: bv32, j: nat)
    requires j < Width(a)
    ensures Encode(h, a, v)[Lane(LittleEndian(h, a), Width(a), j)] == ByteOf(v, j)
  {
    EncodeLanes(h, a, v);
    LaneAt(LittleEndian(h, a), Width(a), v, Lane(LittleEndian(h, a), Width(a), j));
  }

  /** Each byte of a value which has been written and read back: cut to the width and extended again. */
  lemma ReadBackBytes(h: Host, a: Access, v: bv32, j: nat)
    requires j < 4
    ensures var n := Width(a);
      ByteOf(Decode(h, a, Encode(h, a, v)), j) ==
        if j < n then ByteOf(v, j) else if Signed(a) && ByteOf(v, n - 1) & 0x80 != 0 then 0xff else 0
  {
    DecodeBytes(h, a, Encode(h, a, v), j);
    StoredLane(h, a, v, if j < Width(a) then j else Width(a) - 1);
  }

  // ---------------------------------------------------------------- masked writes

  function And(x: bv32, m: bv32): bv32 { x & m }
  function AndNot(x: bv32, m: bv32): bv32 { x & !m }
  function Or(x: bv32, y: bv32): bv32 { x | y }

  /** `data &= ~mask; data |= value & mask`. */
  function Merge(data: bv32, mask: bv32, value: bv32): bv32 {
    Or(AndNot(data, mask), And(value, mask))
  }

  lemma MergeByte0(data: bv32, mask: bv32, value: bv32)
    ensures Byte0(Merge(data, mask, value)) == Merge8(Byte0(data), Byte0(mask), Byte0(value))
  {
  }

  lemma MergeByte1(data: bv32, mask: bv32, value: bv32)
    ensures Byte1(Merge(data, mask, value)) == Merge8(Byte1(data), Byte1(mask), Byte1(value))
  {
  }

  lemma MergeByte2(data: bv32, mask: bv32, value: bv32)
    ensures Byte2(Merge(data, mask, value)) == Merge8(Byte2(data), Byte2(mask), Byte2(value))
  {
  }

  lemma MergeByte3(data: bv32, mask: bv32, value: bv32)
    ensures Byte3(Merge(data, mask, value)) == Merge8(Byte3(data), Byte3(mask), Byte3(value))
  {
  }

  lemma MergeLanes(data: bv32, mask: bv32, value: bv32, j: nat)
    requires j < 4
    ensures ByteOf(Merge(data, mask, value), j) == Merge8(ByteOf(data, j), ByteOf(mask, j), ByteOf(value, j))
  {
    if j == 0 {
      MergeByte0(data, mask, value);
    } else if j == 1 {
      MergeByte1(data, mask, value);
    } else if j == 2 {
      MergeByte2(data, mask, value);
    } else {
      MergeByte3(data, mask, value);
    }
  }

  function MergeBytes(s: seq<bv8>, mask: seq<bv8>, value: seq<bv8>): (r: seq<bv8>)
    requires |s| == |mask| == |value|
    ensures |r| == |s|
  {
    seq(|s|, k requires 0 <= k < |s| => Merge8(s[k], mask[k], value[k]))
  }

  lemma LaneAt(little: bool, n: nat, v: bv32, k: nat)
    requires (n == 4 || n == 2 || n == 1) && k < n
    ensures Lanes(little, n, v)[k] == ByteOf(v, if little then k else n - 1 - k)
  {
  }

  lemma MergeLane(little: bool, n: nat, data: bv32, mask: bv32, value: bv32, k: nat)
    requires (n == 4 || n == 2 || n == 1) && k < n
    ensures Lanes(little, n, Merge(data, mask, value))[k]
      == Merge8(Lanes(little, n, data)[k], Lanes(little, n, mask)[k], Lanes(little, n, value)[k])
  {
    var w := Merge(data, mask, value);
    LaneAt(little, n, w, k);
    LaneAt(little, n, data, k);
    LaneAt(little, n, mask, k);
    LaneAt(little, n, value, k);
    MergeLanes(data, mask, value, if little then k else n - 1 - k);
  }

  lemma MergeAllLanes(little: bool, n: nat, data: bv32, mask: bv32, value: bv32)
    requires n == 4 || n == 2 || n == 1
    ensures Lanes(little, n, Merge(data, mask, value))
      == MergeBytes(Lanes(little, n, data), Lanes(little, n, mask), Lanes(little, n, value))
  {
    forall k | 0 <= k < n
      ensures Lanes(little, n, Merge(data, mask, value))[k]
        == MergeBytes(Lanes(little, n, data), Lanes(little, n, mask), Lanes(little, n, value))[k]
    {
      MergeLane(little, n, data, mask, value, k);
    }
  }

  /**
    Reading a register, replacing the bits under the mask and writing the result replaces exactly
    the bits under the mask in every byte, also when reading extends the sign.
  */
  lemma MaskedWriteBytes(h: Host, a: Access, s: seq<bv8>, mask: bv32, value: bv32)
    requires |s| == Width(a)
    ensures var little, n := LittleEndian(h, a), Width(a);
      Encode(h, a, Merge(Decode(h, a, s), mask, value))
      == MergeBytes(s, Lanes(little, n, mask), Lanes(little, n, value))
  {
    EncodeLanes(h, a, Merge(Decode(h, a, s), mask, value));
    MergeAllLanes(LittleEndian(h, a), Width(a), Decode(h, a, s), mask, value);
    DecodeLanes(h, a, s);
  }

  function Unsigned(a: Access): Access {
    match a
    case M16s => M16
    case Be16s => Be16
    case Le16s => Le16
    case M8s => M8
    case Io8s => Io8
    case _ => a
  }

  /** A masked write through a sign-extending method stores what its unsigned twin stores. */
  lemma SignedTwin(h: Host, a: Access, s: seq<bv8>, mask: bv32, value: bv32)
    requires |s| == Width(a)
    ensures Encode(h, a, Merge(Decode(h, a, s), mask, value))
      == Encode(h, Unsigned(a), Merge(Decode(h, Unsigned(a), s), mask, value))
  {
    assert LittleEndian(h, Unsigned(a)) == LittleEndian(h, a) && Width(Unsigned(a)) == Width(a);
    MaskedWriteBytes(h, a, s, mask, value);
    MaskedWriteBytes(h, Unsigned(a), s, mask, value);
  }

  // ---------------------------------------------------------------- the RTEMS variant (big-endian host)

  function RtemsInLe32(s: seq<bv8>): bv32
    requires |s| == 4
  {
    ByteRev(Load32(Big, s))
  }

  /** BYTESWAP does not mask before shifting left; the result is cut to 16 bits by its type. */
  function RtemsByteSwap(v: bv32): bv32 {
    ((v >> 8) | (v << 8)) & 0xffff
  }

  function RtemsInLe16(s: seq<bv8>): bv32
    requires |s| == 2
  {
    RtemsByteSwap(Load16(Big, s))
  }

  lemma RtemsSwap(v: bv32)
    requires v & 0xffff == v
    ensures RtemsByteSwap(v) == ByteSwap(v)
  {
  }

  lemma RtemsSwapWord(b0: bv8, b1: bv8)
    ensures RtemsByteSwap(Word(b0, b1, 0, 0)) == Word(b1, b0, 0, 0)
  {
  }

  lemma RtemsLe16(t: seq<bv8>)
    requires |t| == 2
    ensures RtemsInLe16(t) == InLe16(Big, t)
  {
    assert RtemsByteSwap(Word(t[1], t[0], 0, 0)) == Word(t[0], t[1], 0, 0) by {
      RtemsSwapWord(t[1], t[0]);
    }
    TwoBytes(t[0], t[1]);
  }

  /** Both variants of the header agree. */
  lemma RtemsAgrees(s: seq<bv8>, t: seq<bv8>, v: bv32)
    requires |s| == 4 && |t| == 2
    ensures RtemsInLe32(s) == InLe32(Big, s) && RtemsInLe16(t) == InLe16(Big, t)
    ensures Store16(Big, RtemsByteSwap(v & 0xffff)) == OutLe16(Big, v & 0xffff)
  {
    RevWord(s[3], s[2], s[1], s[0]);
    RtemsLe16(t);
    RtemsSwap(v & 0xffff);
  }
}
