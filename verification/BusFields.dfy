/** Several bit fields of one register: writes under disjoint masks, through any method and on any host. */
module BusFields {
  import opened BusMemory
  import opened BusAccess
  import opened BusRegister

  /** What a bo or mbbo record writes. */
  datatype Write = Write(mask: bv32, value: bv32)

  function Patches(h: Host, reg: Reg, ws: seq<Write>): (ps: seq<Patch>)
    ensures |ps| == |ws| && AllValid(ps)
    ensures forall k | 0 <= k < |ws| :: ps[k] == PatchOf(h, reg, ws[k].mask, ws[k].value)
  {
    seq(|ws|, k requires 0 <= k < |ws| => PatchOf(h, reg, ws[k].mask, ws[k].value))
  }

  lemma ZeroBytes(j: nat)
    requires j < 4
    ensures ByteOf(0, j) == 0
  {
  }

  lemma DisjointBytes(m: bv32, n: bv32, j: nat)
    requires And(m, n) == 0 && j < 4
    ensures ByteOf(m, j) & ByteOf(n, j) == 0
  {
    AndByte(m, n, j);
    ZeroBytes(j);
  }

  lemma LanesApart(little: bool, size: nat, m: bv32, n: bv32, k: nat)
    requires And(m, n) == 0 && (size == 4 || size == 2 || size == 1) && k < size
    ensures Lanes(little, size, m)[k] & Lanes(little, size, n)[k] == 0
  {
    LaneAt(little, size, m, k);
    LaneAt(little, size, n, k);
    DisjointBytes(m, n, if little then k else size - 1 - k);
  }

  lemma EncodedApart(h: Host, acc: Access, m: bv32, n: bv32, k: nat)
    requires And(m, n) == 0 && k < Width(acc)
    ensures Encode(h, acc, m)[k] & Encode(h, acc, n)[k] == 0
  {
    EncodeLanes(h, acc, m);
    EncodeLanes(h, acc, n);
    LanesApart(LittleEndian(h, acc), Width(acc), m, n, k);
  }

  /** Masks without a common bit leave no byte of the memory with one. */
  lemma MasksApart(h: Host, reg: Reg, m: bv32, v: bv32, n: bv32, w: bv32, a: nat)
    requires And(m, n) == 0
    ensures PatchOf(h, reg, m, v).MaskAt(a) & PatchOf(h, reg, n, w).MaskAt(a) == 0
  {
    if reg.addr <= a < reg.addr + Width(reg.acc) {
      EncodedApart(h, reg.acc, m, n, a - reg.addr);
    } else {
      NoBits(0);
    }
  }

  lemma NoCommonBit(m: bv8, n: bv8, bit: bv8)
    requires m & n == 0 && IsBit(bit)
    ensures m & bit == 0 || n & bit == 0
  {
  }

  lemma MasksDisjoint(h: Host, reg: Reg, m: bv32, v: bv32, n: bv32, w: bv32)
    requires And(m, n) == 0
    ensures Disjoint(PatchOf(h, reg, m, v), PatchOf(h, reg, n, w))
  {
    var p, q := PatchOf(h, reg, m, v), PatchOf(h, reg, n, w);
    forall a: nat, bit: bv8 | IsBit(bit)
      ensures !(p.Covers(a, bit) && q.Covers(a, bit))
    {
      MasksApart(h, reg, m, v, n, w, a);
      NoCommonBit(p.MaskAt(a), q.MaskAt(a), bit);
    }
  }

  /** Records with pairwise disjoint masks on one register can write in any order and any number of times. */
  lemma FieldWritesCommute(h: Host, mem: seq<bv8>, reg: Reg, ws: seq<Write>, xs: seq<Write>)
    requires forall w :: w in ws <==> w in xs
    requires forall w, x | w in ws && x in ws && w != x :: And(w.mask, x.mask) == 0
    ensures Replay(mem, Patches(h, reg, ws)) == Replay(mem, Patches(h, reg, xs))
  {
    var ps, qs := Patches(h, reg, ws), Patches(h, reg, xs);
    SamePatches(h, reg, ws, xs);
    SamePatches(h, reg, xs, ws);
    forall p, q | p in ps && q in ps && p != q
      ensures Disjoint(p, q)
    {
      var j :| 0 <= j < |ws| && ps[j] == p;
      var k :| 0 <= k < |ws| && ps[k] == q;
      assert ws[j] in ws && ws[k] in ws && ws[j] != ws[k];
      MasksDisjoint(h, reg, ws[j].mask, ws[j].value, ws[k].mask, ws[k].value);
    }
    DisjointWritesCommute(mem, ps, qs);
  }

  lemma SamePatches(h: Host, reg: Reg, ws: seq<Write>, xs: seq<Write>)
    requires forall w <- ws :: w in xs
    ensures forall p <- Patches(h, reg, ws) :: p in Patches(h, reg, xs)
  {
    forall p | p in Patches(h, reg, ws)
      ensures p in Patches(h, reg, xs)
    {
      var j :| 0 <= j < |ws| && Patches(h, reg, ws)[j] == p;
      assert ws[j] in ws;
      var k :| 0 <= k < |xs| && xs[k] == ws[j];
      assert Patches(h, reg, xs)[k] == p;
    }
  }

  /** A field reads back after any writes to other fields of its register. */
  lemma FieldSurvives(h: Host, mem: seq<bv8>, reg: Reg, mask: bv32, value: bv32, ws: seq<Write>)
    requires Fits(mem, reg) && Cut(Width(reg.acc), mask) == mask
    requires forall w <- ws :: And(w.mask, mask) == 0
    ensures var before := MaskedWrite(mem, PatchOf(h, reg, mask, value));
      And(ReadReg(h, Replay(before, Patches(h, reg, ws)), reg), mask) == And(value, mask)
  {
    var ps := Patches(h, reg, ws);
    forall q, a: nat | q in ps && a < |mem|
      ensures q.MaskAt(a) & PatchOf(h, reg, mask, value).MaskAt(a) == 0
    {
      var k :| 0 <= k < |ws| && ps[k] == q;
      assert ws[k] in ws;
      MasksApart(h, reg, ws[k].mask, ws[k].value, mask, value, a);
    }
    FieldReadsBack(h, mem, reg, mask, value, ps);
  }
}
