/**
  Output records of bit fields (bo, mbbo) on a generic variable: read-modify-write of the
  variable through the conversion to and from RVAL, the hand-over to low-level code and phase 2.
  The methods run between lock and unlock of the variable.
*/
module GenVar {
  import opened BusMemory
  import opened BusAccess
  import opened BusRegister

  /** A severity and a status, as EPICS base numbers them. */
  const INVALID: nat := 3
  const MAJOR: nat := 2
  const READ_ALARM: nat := 1
  const WRITE_ALARM: nat := 2

  class Variable {
    const host: Host
    const ty: Access         // how the variable converts to and from RVAL: one of the `M` methods
    const convertible: bool  // dbr_t is within the conversion tables
    const toField: int       // what the conversion into the field reports; 0 is success
    const toVar: int         // what the conversion into the variable reports
    var evt: bool            // an event is attached
    var data: seq<bv8>
    var full: bool           // the event
    var stat: nat
    var sevr: nat
    var ts: int
    var recP: OutRecord?

    ghost predicate Valid()
      reads this
    {
      |data| == Width(ty)
    }

    constructor (host: Host, ty: Access, convertible: bool, toField: int, toVar: int, evt: bool, data: seq<bv8>)
      requires |data| == Width(ty)
      ensures Valid() && this.data == data && recP == null && !full
      ensures this.host == host && this.ty == ty && this.convertible == convertible && this.evt == evt
      ensures this.toField == toField && this.toVar == toVar
    {
      this.host, this.ty, this.convertible, this.toField, this.toVar := host, ty, convertible, toField, toVar;
      this.evt, this.data := evt, data;
      full, stat, sevr, ts, recP := false, 0, 0, 0, null;
    }

    /** The variable converted to RVAL. */
    function Value(): bv32
      reads this
      requires Valid()
    {
      Decode(host, ty, data)
    }

    /**
      `devGenVarProcComplete`: phase 2 of the record which wrote the variable. The record gets
      its time stamp and severity, the variable is as low-level code has left it, and the next
      asynchronous write finds no record in the way.
    */
    method ProcComplete() returns (r: int)
      requires Valid()
      requires recP != null ==> recP.gv == this && recP.pact
      modifies `data, `full, `stat, `sevr, `recP, recP
      ensures Valid() && recP == null
      ensures data == old(data) && full == old(full) && stat == old(stat) && sevr == old(sevr)
      ensures r == if old(recP) == null then -1 else 0
      ensures old(recP) != null ==> var rec := old(recP);
        && !rec.pact && rec.rval == old(rec.rval) && rec.rbv == old(rec.rbv) && rec.mask == old(rec.mask)
        && rec.udf == old(rec.udf)
        && rec.time == (if rec.deviceTime then ts else old(rec.time))
        && (rec.nsta, rec.nsev) == Raised(old(rec.nsta), old(rec.nsev), old(stat), old(sevr))
    {
      if recP == null {
        return -1;
      }
      recP.Process();
      recP := null;
      return 0;
    }
  }

  /** What `recGblSetSevr` leaves of the pending status and severity. */
  function Raised(nsta: nat, nsev: nat, stat: nat, sevr: nat): (nat, nat) {
    if nsev < sevr then (stat, sevr) else (nsta, nsev)
  }

  datatype Alarm = Alarm(stat: nat, sevr: nat)

  /** The pending status and severity after alarms have been raised one after the other. */
  function AfterAlarms(nsta: nat, nsev: nat, alarms: seq<Alarm>): (nat, nat) {
    if alarms == [] then (nsta, nsev)
    else
      var a := alarms[|alarms| - 1];
      var (stat, sevr) := AfterAlarms(nsta, nsev, alarms[..|alarms| - 1]);
      Raised(stat, sevr, a.stat, a.sevr)
  }

  /**
    The severity which stays is the greatest one, and the status is that of the first alarm which had it;
    alarms no worse than what was pending change nothing.
  */
  lemma {:induction false} WorstAlarmStays(nsta: nat, nsev: nat, alarms: seq<Alarm>)
    ensures var (stat, sevr) := AfterAlarms(nsta, nsev, alarms);
      && sevr >= nsev && (forall a <- alarms :: a.sevr <= sevr)
      && (sevr == nsev ==> stat == nsta)
      && (sevr > nsev ==> exists k :: First(alarms, k, sevr) && alarms[k].stat == stat)
  {
    if alarms != [] {
      var before, a := alarms[..|alarms| - 1], alarms[|alarms| - 1];
      WorstAlarmStays(nsta, nsev, before);
      var (stat, sevr) := AfterAlarms(nsta, nsev, before);
      assert forall x <- alarms :: x in before || x == a;
      if sevr < a.sevr {
        assert forall j | 0 <= j < |before| :: alarms[j] == before[j] && before[j] in before;
        assert First(alarms, |before|, a.sevr);
      } else if sevr > nsev {
        var k :| First(before, k, sevr) && before[k].stat == stat;
        assert First(alarms, k, sevr);
      }
    }
  }

  /** Alarm `k` is the first one with this severity, and those before it were less severe. */
  predicate First(alarms: seq<Alarm>, k: int, sevr: nat) {
    0 <= k < |alarms| && alarms[k].sevr == sevr && forall j | 0 <= j < k :: alarms[j].sevr < sevr
  }

  class OutRecord {
    const gv: Variable
    const async: bool
    const noPost: bool
    const noConv: bool       // values bypass the record's own conversion
    const deviceTime: bool   // TSE is epicsTimeEventDeviceTime
    var pact: bool
    var mask: bv32
    var rval: bv32
    var rbv: bv32
    var udf: bool
    var nsta: nat
    var nsev: nat
    var stat: nat
    var sevr: nat
    var time: int

    constructor (gv: Variable, async: bool, noPost: bool, noConv: bool, deviceTime: bool, mask: bv32, rval: bv32)
      ensures this.gv == gv && this.async == async && this.noPost == noPost && this.noConv == noConv
      ensures this.deviceTime == deviceTime && this.mask == mask && this.rval == rval && !pact
    {
      this.gv, this.async, this.noPost, this.noConv, this.deviceTime := gv, async, noPost, noConv, deviceTime;
      this.mask, this.rval, udf := mask, rval, true;
      pact, rbv, nsta, nsev, stat, sevr, time := false, 0, 0, 0, 0, 0, 0;
    }

    /** `recGblSetSevr`. */
    method SetSevr(newStat: nat, newSevr: nat)
      modifies `nsta, `nsev
      ensures (nsta, nsev) == Raised(old(nsta), old(nsev), newStat, newSevr)
    {
      if nsev < newSevr {
        nsta, nsev := newStat, newSevr;
      }
    }

    /** `devGenVarPhase2`. */
    method Phase2() returns (r: int)
      modifies `time, `nsta, `nsev
      ensures r == if pact then 0 else -1
      ensures !pact ==> time == old(time) && nsta == old(nsta) && nsev == old(nsev)
      ensures pact ==>
        && time == (if deviceTime then gv.ts else old(time))
        && (nsta, nsev) == Raised(old(nsta), old(nsev), gv.stat, gv.sevr)
    {
      if !pact {
        return -1;
      }
      if deviceTime {
        time := gv.ts;
      }
      SetSevr(gv.stat, gv.sevr);
      return 0;
    }

    /** `devGenVarReadback_nolock`; a conversion which fails leaves RVAL alone and alarms record and variable. */
    method Readback() returns (r: int)
      requires gv.Valid()
      modifies `rval, `nsta, `nsev, gv`stat, gv`sevr
      ensures r == if gv.convertible then gv.toField else -1
      ensures rval == if r == 0 then gv.Value() else old(rval)
      ensures if gv.convertible && r != 0
        then (nsta, nsev) == Raised(old(nsta), old(nsev), READ_ALARM, MAJOR) && gv.stat == stat && gv.sevr == sevr
        else nsta == old(nsta) && nsev == old(nsev) && gv.stat == old(gv.stat) && gv.sevr == old(gv.sevr)
    {
      if !gv.convertible {
        return -1;
      }
      r := gv.toField;
      if r == 0 {
        rval := Decode(gv.host, gv.ty, gv.data);
      } else {
        SetSevr(READ_ALARM, MAJOR);
        gv.stat := stat;
        gv.sevr := sevr;
      }
    }

    /** Phase 1 is possible: the types convert, this is not phase 2 and no other record is in the way. */
    predicate CanStart()
      reads this, gv
    {
      gv.convertible && !pact && !(async && gv.recP != null)
    }

    /** `devGenVarPut_nolock`. A conversion which fails leaves the variable alone, but phase 1 takes place. */
    method PutNolock() returns (r: int)
      requires gv.Valid()
      modifies `pact, `time, `nsta, `nsev, gv`data, gv`full, gv`stat, gv`sevr, gv`recP
      ensures gv.Valid()
      ensures !old(CanStart()) ==>
        && r == (if gv.convertible && old(pact) then 0 else -1) && pact == old(pact)
        && gv.data == old(gv.data) && gv.full == old(gv.full) && gv.recP == old(gv.recP)
        && gv.stat == old(gv.stat) && gv.sevr == old(gv.sevr)
      ensures !gv.convertible ==> time == old(time) && nsta == old(nsta) && nsev == old(nsev)
      // phase 2
      ensures gv.convertible && old(pact) ==>
        && time == (if deviceTime then gv.ts else old(time))
        && (nsta, nsev) == Raised(old(nsta), old(nsev), gv.stat, gv.sevr)
      // a second asynchronous record is refused
      ensures gv.convertible && !old(pact) && !old(CanStart()) ==>
        time == old(time) && (nsta, nsev) == Raised(old(nsta), old(nsev), WRITE_ALARM, INVALID)
      // phase 1
      ensures old(CanStart()) ==>
        && r == gv.toVar && pact == async && gv.recP == (if async then this else old(gv.recP))
        && time == old(time)
        && (nsta, nsev) == (if r != 0 then Raised(old(nsta), old(nsev), WRITE_ALARM, INVALID)
                            else (old(nsta), old(nsev)))
        && gv.data == (if r == 0 then Encode(gv.host, gv.ty, rval) else old(gv.data))
        && gv.stat == stat && gv.sevr == sevr
        && gv.full == (old(gv.full) || (gv.evt && !noPost))
    {
      if !gv.convertible {
        return -1;
      }
      r := Phase2();
      if r == 0 {
        return 0;
      }
      if async {
        if gv.recP != null {
          SetSevr(WRITE_ALARM, INVALID);
          return -1;
        }
        gv.recP := this;
        pact := true;
      }
      r := gv.toVar;
      if r == 0 {
        gv.data := Encode(gv.host, gv.ty, rval);
      } else {
        SetSevr(WRITE_ALARM, INVALID);
      }
      gv.stat := stat;
      gv.sevr := sevr;
      if gv.evt && !noPost {
        gv.full := true;
      }
    }

    /** `write_bo`. */
    method WriteBo() returns (r: int)
      requires gv.Valid()
      modifies `pact, `rval, `time, `nsta, `nsev, gv`data, gv`full, gv`stat, gv`sevr, gv`recP
      ensures gv.Valid()
      ensures old(pact) ==>
        && r == 0 && pact && rval == old(rval)
        && gv.data == old(gv.data) && gv.full == old(gv.full) && gv.recP == old(gv.recP)
        && gv.stat == old(gv.stat) && gv.sevr == old(gv.sevr)
        && (nsta, nsev) == Raised(old(nsta), old(nsev), old(gv.stat), old(gv.sevr))
        && time == (if deviceTime then gv.ts else old(time))
      // the variable cannot be read back, or phase 1 is not possible
      ensures !old(pact) && (!old(CanStart()) || (mask != 0 && gv.toField != 0)) ==>
        && r != 0 && !pact && gv.data == old(gv.data) && gv.full == old(gv.full) && gv.recP == old(gv.recP)
      ensures !old(pact) && gv.convertible && mask != 0 && gv.toField != 0 ==>
        && r == gv.toField && rval == old(rval) && gv.stat == stat && gv.sevr == sevr
        && (nsta, nsev) == Raised(old(nsta), old(nsev), READ_ALARM, MAJOR)
      ensures !old(pact) && gv.convertible && !old(CanStart()) && (mask == 0 || gv.toField == 0) ==>
        && gv.stat == old(gv.stat) && gv.sevr == old(gv.sevr)
        && (nsta, nsev) == Raised(old(nsta), old(nsev), WRITE_ALARM, INVALID)
      ensures !old(pact) && !gv.convertible ==>
        rval == old(rval) && (nsta, nsev, gv.stat, gv.sevr) == old((nsta, nsev, gv.stat, gv.sevr))
      ensures !old(pact) ==> time == old(time)
      // RVAL takes over what the variable has outside the mask
      ensures !old(pact) && gv.convertible && (mask == 0 || gv.toField == 0) ==>
        rval == if mask == 0 then old(rval) else Merge(old(gv.Value()), mask, old(rval))
      ensures old(CanStart()) && (mask == 0 || gv.toField == 0) ==>
        && r == gv.toVar && pact == async && gv.recP == (if async then this else old(gv.recP))
        && gv.stat == stat && gv.sevr == sevr
        && (nsta, nsev) == (if r != 0 then Raised(old(nsta), old(nsev), WRITE_ALARM, INVALID)
                            else (old(nsta), old(nsev)))
        && gv.full == (old(gv.full) || (gv.evt && !noPost))
        && gv.data == if r != 0 then old(gv.data)
                      else MaskedWrite(old(gv.data),
                        PatchOf(gv.host, Reg(0, gv.ty), if mask != 0 then mask else 0xffffffff, old(rval)))
    {
      r := Phase2();
      if r == 0 {
        return 0;
      }
      ghost var before, value := gv.data, rval;
      if mask != 0 {
        var rv := rval;
        r := Readback();
        if r != 0 {
          return;
        }
        rval := Merge(rval, mask, rv);
      }
      r := PutNolock();
      MergedVariable(gv.host, gv.ty, before, mask, value);
      WholeVariable(gv.host, gv.ty, before, value);
    }

    /** `process` of a bo record: device support, then, unless phase 1 was started, the forward link. */
    method Process()
      requires gv.Valid()
      modifies `pact, `rval, `time, `nsta, `nsev, gv`data, gv`full, gv`stat, gv`sevr, gv`recP
      ensures gv.Valid()
      ensures old(pact) ==>
        && !pact && rval == old(rval)
        && gv.data == old(gv.data) && gv.full == old(gv.full) && gv.recP == old(gv.recP)
        && gv.stat == old(gv.stat) && gv.sevr == old(gv.sevr)
        && time == (if deviceTime then gv.ts else old(time))
        && (nsta, nsev) == Raised(old(nsta), old(nsev), old(gv.stat), old(gv.sevr))
      ensures !old(pact) ==> pact == (async && old(CanStart()) && (mask == 0 || gv.toField == 0))
      ensures !old(pact) && pact ==> gv.recP == this
      ensures !old(pact) && !pact ==> gv.recP == old(gv.recP)
      ensures !old(pact) && (!old(CanStart()) || (mask != 0 && gv.toField != 0)) ==>
        gv.data == old(gv.data) && gv.full == old(gv.full)
      ensures old(CanStart()) && (mask == 0 || gv.toField == 0) ==>
        && gv.full == (old(gv.full) || (gv.evt && !noPost))
        && gv.data == if gv.toVar != 0 then old(gv.data)
                      else MaskedWrite(old(gv.data),
                        PatchOf(gv.host, Reg(0, gv.ty), if mask != 0 then mask else 0xffffffff, old(rval)))
    {
      var was := pact;
      var _ := WriteBo();
      if !was && pact {
        return;
      }
      pact := true;
      pact := false;
    }

    /** `devGenVarGet_nolock`: 2 tells the record not to convert the value. */
    method GetNolock() returns (r: int)
      requires gv.Valid()
      modifies `rval, `time, `nsta, `nsev, `udf, gv`full
      ensures r == if !gv.convertible then -1 else if gv.toField == 0 && noConv then 2 else gv.toField
      ensures !gv.convertible ==>
        && rval == old(rval) && time == old(time) && nsta == old(nsta) && nsev == old(nsev)
        && udf == old(udf) && gv.full == old(gv.full)
      ensures gv.convertible ==>
        && rval == (if gv.toField == 0 then gv.Value() else old(rval))
        && time == (if deviceTime then gv.ts else old(time))
        && udf == (old(udf) && !(gv.toField == 0 && noConv))
        && (var raised := Raised(old(nsta), old(nsev), gv.stat, gv.sevr);
            (nsta, nsev) == if gv.toField == 0 then raised else Raised(raised.0, raised.1, READ_ALARM, INVALID))
        && gv.full == (old(gv.full) || (gv.evt && !noPost))
    {
      if !gv.convertible {
        return -1;
      }
      r := gv.toField;
      if r == 0 {
        rval := Decode(gv.host, gv.ty, gv.data);
      }
      if deviceTime {
        time := gv.ts;
      }
      SetSevr(gv.stat, gv.sevr);
      if r != 0 {
        SetSevr(READ_ALARM, INVALID);
      } else if noConv {
        udf := false;
        r := 2;
      }
      if gv.evt && !noPost {
        gv.full := true;
      }
    }

    /** The read-back of `devGenVarInitOutRec`: it never posts the event and leaves it attached. */
    method ReadBackAtInit() returns (r: int)
      requires gv.Valid()
      modifies `rval, `time, `nsta, `nsev, `stat, `sevr, `udf, gv`full, gv`evt
      ensures gv.full == old(gv.full) && gv.evt == old(gv.evt)
      ensures r == if !gv.convertible then -1 else if gv.toField == 0 && noConv then 2 else gv.toField
      ensures rval == if gv.convertible && gv.toField == 0 then gv.Value() else old(rval)
      ensures r >= 0 ==> nsta == 0 && nsev == 0
      ensures r >= 0 ==> var raised := Raised(old(nsta), old(nsev), gv.stat, gv.sevr);
        (stat, sevr) == if gv.toField == 0 then raised else Raised(raised.0, raised.1, READ_ALARM, INVALID)
      ensures r < 0 ==> stat == old(stat) && sevr == old(sevr)
    {
      var evt := gv.evt;
      gv.evt := false;
      r := GetNolock();
      gv.evt := evt;
      if r >= 0 {
        stat, sevr, nsta, nsev := nsta, nsev, 0, 0;   // recGblResetAlarms
      }
    }

    /** `write_mbbo`. */
    method WriteMbbo() returns (r: int)
      requires gv.Valid()
      modifies `pact, `rval, `rbv, `time, `nsta, `nsev, gv`data, gv`full, gv`stat, gv`sevr, gv`recP
      ensures gv.Valid()
      ensures old(pact) ==>
        && r == 0 && pact && rval == old(rval) && rbv == old(rbv)
        && gv.data == old(gv.data) && gv.full == old(gv.full) && gv.recP == old(gv.recP)
        && gv.stat == old(gv.stat) && gv.sevr == old(gv.sevr)
        && (nsta, nsev) == Raised(old(nsta), old(nsev), old(gv.stat), old(gv.sevr))
        && time == (if deviceTime then gv.ts else old(time))
      ensures !old(pact) && gv.convertible && gv.toField == 0 ==> rbv == old(gv.Value())
      ensures !old(pact) && (!old(CanStart()) || gv.toField != 0) ==>
        && r != 0 && !pact && gv.data == old(gv.data) && gv.full == old(gv.full) && gv.recP == old(gv.recP)
      ensures !old(pact) && gv.convertible && gv.toField != 0 ==>
        && r == gv.toField && rval == old(rval) && rbv == old(rbv) && gv.stat == stat && gv.sevr == sevr
        && (nsta, nsev) == Raised(old(nsta), old(nsev), READ_ALARM, MAJOR)
      ensures !old(pact) && gv.convertible && !old(CanStart()) && gv.toField == 0 ==>
        && gv.stat == old(gv.stat) && gv.sevr == old(gv.sevr)
        && (nsta, nsev) == Raised(old(nsta), old(nsev), WRITE_ALARM, INVALID)
      ensures !old(pact) && !gv.convertible ==>
        && rval == old(rval) && rbv == old(rbv)
        && (nsta, nsev, gv.stat, gv.sevr) == old((nsta, nsev, gv.stat, gv.sevr))
      ensures !old(pact) ==> time == old(time)
      ensures !old(pact) && gv.convertible && gv.toField == 0 ==>
        rval == Merge(old(gv.Value()), mask, old(rval))
      ensures old(CanStart()) && gv.toField == 0 ==>
        && r == gv.toVar && pact == async && gv.recP == (if async then this else old(gv.recP))
        && gv.stat == stat && gv.sevr == sevr
        && (nsta, nsev) == (if r != 0 then Raised(old(nsta), old(nsev), WRITE_ALARM, INVALID)
                            else (old(nsta), old(nsev)))
        && gv.full == (old(gv.full) || (gv.evt && !noPost))
        && gv.data == if r != 0 then old(gv.data)
                      else MaskedWrite(old(gv.data), PatchOf(gv.host, Reg(0, gv.ty), mask, old(rval)))
    {
      r := Phase2();
      if r == 0 {
        return 0;
      }
      ghost var before, value := gv.data, rval;
      var rv := rval;
      r := Readback();
      if r == 0 {
        rbv := rval;
        rval := Merge(rval, mask, rv);
        MergedVariable(gv.host, gv.ty, before, mask, value);
        r := PutNolock();
      }
    }
  }

  /** Converting, merging and converting back is a masked write to the variable's bytes. */
  lemma MergedVariable(h: Host, ty: Access, data: seq<bv8>, mask: bv32, value: bv32)
    requires |data| == Width(ty)
    ensures Encode(h, ty, Merge(Decode(h, ty, data), mask, value))
         == MaskedWrite(data, PatchOf(h, Reg(0, ty), mask, value))
  {
    var reg := Reg(0, ty);
    assert Bytes(data, reg) == data;
    ReadModifyWrite(h, data, reg, mask, value);
    OnlyRegister(h, data, ty, Merge(Decode(h, ty, data), mask, value));
  }

  lemma WholeVariable(h: Host, ty: Access, data: seq<bv8>, value: bv32)
    requires |data| == Width(ty)
    ensures Encode(h, ty, value) == MaskedWrite(data, PatchOf(h, Reg(0, ty), 0xffffffff, value))
  {
    PlainWrite(h, data, Reg(0, ty), value);
    OnlyRegister(h, data, ty, value);
  }

  lemma OnlyRegister(h: Host, data: seq<bv8>, ty: Access, v: bv32)
    requires |data| == Width(ty)
    ensures StoreReg(h, data, Reg(0, ty), v) == Encode(h, ty, v)
  {
  }
}
