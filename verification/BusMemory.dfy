/**
  The effect of a history of masked writes on a memory of bytes, described twice: by replaying
  the history, and bit by bit by the last writer.
*/
module BusMemory {

  /** A masked write to consecutive bytes. */
  datatype Patch = Patch(addr: nat, mask: seq<bv8>, value: seq<bv8>) {
    predicate Valid() {
      |mask| == |value|
    }

    /** The bits of byte `a` the write replaces. */
    function MaskAt(a: nat): bv8
      requires Valid()
    {
      if addr <= a < addr + |mask| then mask[a - addr] else 0
    }

    function ValueAt(a: nat): bv8
      requires Valid()
    {
      if addr <= a < addr + |mask| then value[a - addr] else 0
    }

    predicate Covers(a: nat, bit: bv8)
      requires Valid()
    {
      MaskAt(a) & bit != 0
    }
  }

  function Merge8(data: bv8, mask: bv8, value: bv8): bv8 {
    (data & !mask) | (value & mask)
  }

  /** Every byte keeps the bits outside the mask. */
  function MaskedWrite(mem: seq<bv8>, p: Patch): (r: seq<bv8>)
    requires p.Valid()
    ensures |r| == |mem|
  {
    seq(|mem|, a requires 0 <= a < |mem| => Merge8(mem[a], p.MaskAt(a), p.ValueAt(a)))
  }

  predicate AllValid(ps: seq<Patch>) {
    forall p <- ps :: p.Valid()
  }

  /** Writes one after the other. */
  function Replay(mem: seq<bv8>, ps: seq<Patch>): (r: seq<bv8>)
    requires AllValid(ps)
    ensures |r| == |mem|
  {
    if ps == [] then mem else MaskedWrite(Replay(mem, ps[..|ps| - 1]), ps[|ps| - 1])
  }

  /** A bit of a byte, as a mask. */
  predicate IsBit(b: bv8) {
    b == 1 || b == 2 || b == 4 || b == 8 || b == 16 || b == 32 || b == 64 || b == 128
  }

  /** Bit `bit` of byte `a` after the writes: from the last write which covers it, or as it was. */
  function LastWriter(mem: seq<bv8>, ps: seq<Patch>, a: nat, bit: bv8): bv8
    requires a < |mem| && AllValid(ps)
  {
    if ps == [] then mem[a] & bit
    else
      var p := ps[|ps| - 1];
      if p.Covers(a, bit) then p.ValueAt(a) & bit
      else LastWriter(mem, ps[..|ps| - 1], a, bit)
  }

  lemma MergeBit(data: bv8, mask: bv8, value: bv8, bit: bv8)
    requires IsBit(bit)
    ensures Merge8(data, mask, value) & bit == if mask & bit != 0 then value & bit else data & bit
  {
  }

  lemma SameBits(b: bv8, c: bv8)
    requires forall bit: bv8 | IsBit(bit) :: b & bit == c & bit
    ensures b == c
  {
    assert IsBit(1) && IsBit(2) && IsBit(4) && IsBit(8) && IsBit(16) && IsBit(32) && IsBit(64) && IsBit(128);
  }

  /** Replaying a history leaves in every bit what its last writer put there. */
  lemma {:induction false} ReplayIsLastWriter(mem: seq<bv8>, ps: seq<Patch>, a: nat, bit: bv8)
    requires a < |mem| && IsBit(bit) && AllValid(ps)
    ensures Replay(mem, ps)[a] & bit == LastWriter(mem, ps, a, bit)
  {
    if ps != [] {
      var p, before := ps[|ps| - 1], Replay(mem, ps[..|ps| - 1]);
      ReplayIsLastWriter(mem, ps[..|ps| - 1], a, bit);
      MergeBit(before[a], p.MaskAt(a), p.ValueAt(a), bit);
    }
  }

  /** The last writer of a bit is one of the writes, unless no write covers it. */
  lemma {:induction false} SomeWriter(mem: seq<bv8>, ps: seq<Patch>, a: nat, bit: bv8)
    requires a < |mem| && AllValid(ps)
    ensures || (exists p <- ps :: p.Covers(a, bit) && LastWriter(mem, ps, a, bit) == p.ValueAt(a) & bit)
            || ((forall p <- ps :: !p.Covers(a, bit)) && LastWriter(mem, ps, a, bit) == mem[a] & bit)
  {
    if ps != [] {
      var p := ps[|ps| - 1];
      if !p.Covers(a, bit) {
        SomeWriter(mem, ps[..|ps| - 1], a, bit);
        assert forall q <- ps :: q == p || q in ps[..|ps| - 1];
      }
    }
  }

  /** Two writes never replace the same bit. */
  ghost predicate Disjoint(p: Patch, q: Patch)
    requires p.Valid() && q.Valid()
  {
    forall a: nat, bit: bv8 | IsBit(bit) :: !(p.Covers(a, bit) && q.Covers(a, bit))
  }

  lemma OneWriter(mem: seq<bv8>, ps: seq<Patch>, qs: seq<Patch>, a: nat, bit: bv8)
    requires a < |mem| && IsBit(bit) && AllValid(ps) && AllValid(qs)
    requires forall p :: p in ps <==> p in qs
    requires forall p, q | p in ps && q in ps && p != q :: Disjoint(p, q)
    ensures LastWriter(mem, ps, a, bit) == LastWriter(mem, qs, a, bit)
  {
    SomeWriter(mem, ps, a, bit);
    SomeWriter(mem, qs, a, bit);
    if p, q :| p in ps && q in ps && p.Covers(a, bit) && q.Covers(a, bit) && p != q {
      assert Disjoint(p, q);
    }
  }

  /** Writes with pairwise disjoint masks lead to the same memory in any order and any number. */
  lemma DisjointWritesCommute(mem: seq<bv8>, ps: seq<Patch>, qs: seq<Patch>)
    requires AllValid(ps) && AllValid(qs)
    requires forall p :: p in ps <==> p in qs
    requires forall p, q | p in ps && q in ps && p != q :: Disjoint(p, q)
    ensures Replay(mem, ps) == Replay(mem, qs)
  {
    forall a: nat | a < |mem|
      ensures Replay(mem, ps)[a] == Replay(mem, qs)[a]
    {
      forall bit: bv8 | IsBit(bit)
        ensures Replay(mem, ps)[a] & bit == Replay(mem, qs)[a] & bit
      {
        ReplayIsLastWriter(mem, ps, a, bit);
        ReplayIsLastWriter(mem, qs, a, bit);
        OneWriter(mem, ps, qs, a, bit);
      }
      SameBits(Replay(mem, ps)[a], Replay(mem, qs)[a]);
    }
  }

  lemma KeepsBits(data: bv8, mask: bv8, value: bv8, m: bv8)
    requires mask & m == 0
    ensures Merge8(data, mask, value) & m == data & m
  {
  }

  lemma TakesBits(data: bv8, mask: bv8, value: bv8)
    ensures Merge8(data, mask, value) & mask == value & mask
  {
  }

  /** Writes which leave the bits `m` of a byte alone. */
  lemma {:induction false} Untouched(mem: seq<bv8>, ps: seq<Patch>, a: nat, m: bv8)
    requires a < |mem| && AllValid(ps)
    requires forall p <- ps :: p.MaskAt(a) & m == 0
    ensures Replay(mem, ps)[a] & m == mem[a] & m
  {
    if ps != [] {
      var p, before := ps[|ps| - 1], Replay(mem, ps[..|ps| - 1]);
      Untouched(mem, ps[..|ps| - 1], a, m);
      KeepsBits(before[a], p.MaskAt(a), p.ValueAt(a), m);
    }
  }

  /** A field which has been written holds its value until a write touches it. */
  lemma FieldStays(mem: seq<bv8>, p: Patch, ps: seq<Patch>, a: nat)
    requires a < |mem| && p.Valid() && AllValid(ps)
    requires forall q <- ps :: q.MaskAt(a) & p.MaskAt(a) == 0
    ensures Replay(MaskedWrite(mem, p), ps)[a] & p.MaskAt(a) == p.ValueAt(a) & p.MaskAt(a)
  {
    Untouched(MaskedWrite(mem, p), ps, a, p.MaskAt(a));
    TakesBits(mem[a], p.MaskAt(a), p.ValueAt(a));
  }

  lemma AllFieldsStay(mem: seq<bv8>, p: Patch, ps: seq<Patch>)
    requires p.Valid() && AllValid(ps) && p.addr + |p.mask| <= |mem|
    requires forall q, a: nat | q in ps && a < |mem| :: q.MaskAt(a) & p.MaskAt(a) == 0
    ensures var s := Replay(MaskedWrite(mem, p), ps)[p.addr..p.addr + |p.mask|];
      forall k | 0 <= k < |s| :: s[k] & p.mask[k] == p.value[k] & p.mask[k]
  {
    forall k: nat | k < |p.mask|
      ensures Replay(MaskedWrite(mem, p), ps)[p.addr + k] & p.mask[k] == p.value[k] & p.mask[k]
    {
      FieldStays(mem, p, ps, p.addr + k);
    }
  }

  /** The effect of a history goes on from the effect of its beginning. */
  lemma {:induction false} ReplayPrefix(mem: seq<bv8>, ps: seq<Patch>, p: Patch)
    requires AllValid(ps) && p.Valid()
    ensures AllValid(ps + [p]) && Replay(mem, ps + [p]) == MaskedWrite(Replay(mem, ps), p)
  {
    assert (ps + [p])[..|ps|] == ps;
  }
}
