/**
  A generic variable shared by records and low-level code which all honour its mutex: the variable is
  the only register of a device in the sense of `BusLocking`.
*/
module GenVarLocking {
  import opened BusMemory
  import opened BusAccess
  import opened BusRegister
  import opened BusLocking
  import GenVar

  /** What a bo record does to a variable between lock and unlock; an mbbo record has its mask always set. */
  function RecordOp(ty: Access, mask: bv32, rval: bv32): Op {
    Op(Reg(0, ty), mask != 0, mask, rval)
  }

  /** The bytes of a variable and its mutex. */
  predicate IsVariable(s: State, ty: Access) {
    s.devs == [Range(0, Width(ty))]
  }

  /** Reading back and putting are the fetch and the store of the only register. */
  lemma SameSteps(h: Host, data: seq<bv8>, ty: Access, v: bv32)
    requires |data| == Width(ty)
    ensures Fits(data, Reg(0, ty)) && ReadReg(h, data, Reg(0, ty)) == Decode(h, ty, data)
    ensures StoreReg(h, data, Reg(0, ty), v) == Encode(h, ty, v)
  {
    assert Bytes(data, Reg(0, ty)) == data;
    GenVar.OnlyRegister(h, data, ty, v);
  }

  /**
    However the steps of records and low-level code interleave, the store of a record changes the
    variable as `GenVar.OutRecord.WriteBo` says it changes it in one go.
  */
  lemma StoreIsWriteBo(h: Host, data0: seq<bv8>, s: State, i: nat, ty: Access, mask: bv32, rval: bv32)
    requires Reachable(h, data0, s) && IsVariable(s, ty) && |data0| == Width(ty)
    requires i < |s.threads| && s.threads[i].pc.Store? && s.threads[i].pc.op == RecordOp(ty, mask, rval)
    ensures Enabled(s, i, Go)
    ensures Apply(h, s, i, Go).mem
         == MaskedWrite(s.mem, PatchOf(h, Reg(0, ty), if mask != 0 then mask else 0xffffffff, rval))
  {
    ReachableInv(h, data0, s);
    var pc := s.threads[i].pc;
    assert DataOk(h, s.mem, pc);
    StoreIsEffect(h, s.mem, pc.op, pc.data);
  }

  /** Each bit of the variable is what the last write which covers it, of a record or of low-level code, put there. */
  lemma VariableLastWriter(h: Host, data0: seq<bv8>, s: State, ty: Access, k: nat, bit: bv8)
    requires Reachable(h, data0, s) && IsVariable(s, ty) && |data0| == Width(ty) && k < Width(ty) && IsBit(bit)
    ensures AllValid(s.history) && |s.mem| == Width(ty)
    ensures s.mem[k] & bit == LastWriter(data0, s.history, k, bit)
  {
    ReachableInv(h, data0, s);
    LastWriteWins(h, data0, s, k, bit);
  }
}
