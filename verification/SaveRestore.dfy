/**
  Saving and restoring the buffer of an array output record: the write and read loops over an
  operating system which may do any part of what it is asked, zero padding, and the round trip.
*/
module SaveRestore {

  /** sizeof(float); arrays are kept as bytes, and the float 0.0 is four zero bytes. */
  const ES: nat := 4

  function Min(a: int, b: int): int { if a < b then a else b }

  predicate Zero(s: seq<bv8>) {
    forall k | 0 <= k < |s| :: s[k] == 0
  }

  function Zeros(n: nat): (s: seq<bv8>)
    ensures |s| == n && Zero(s)
  {
    seq(n, k => 0)
  }

  /** `s` cut or padded with zeroes to `n` bytes. */
  function Fit(s: seq<bv8>, n: nat): (r: seq<bv8>)
    ensures |r| == n
  {
    if n <= |s| then s[..n] else s + Zeros(n - |s|)
  }

  lemma FitTwice(s: seq<bv8>, n: nat, m: nat)
    requires |s| <= n
    ensures Fit(Fit(s, n), m) == Fit(s, m)
  {
  }

  /** `s` with `k` bytes at `off` replaced by the first ones of `data`. */
  ghost predicate Overlaid(r: seq<bv8>, s: seq<bv8>, off: nat, data: seq<bv8>, k: int) {
    && 0 <= k <= |data| && off + k <= |s| == |r|
    && r == s[..off] + data[..k] + s[off + k..]
  }

  /** The file system. Every call may fail, and `Write` and `Read` may transfer less than asked. */
  class Disk {
    var files: map<string, seq<bv8>>
    ghost var errors: nat   // how many calls have reported an error

    constructor ()
      ensures files == map[] && errors == 0
    {
      files, errors := map[], 0;
    }

    /** open with O_WRONLY|O_CREAT|O_TRUNC */
    method Create(name: string) returns (ok: bool)
      modifies this
      ensures files == if ok then old(files)[name := []] else old(files)
      ensures errors == old(errors) + if ok then 0 else 1
    {
      ok := *;
      if ok {
        files := files[name := []];
      } else {
        errors := errors + 1;
      }
    }

    /** open with O_RDONLY */
    method Open(name: string) returns (ok: bool)
      modifies `errors
      ensures ok ==> name in files
      ensures errors == old(errors) + if ok then 0 else 1
    {
      ok := *;
      ok := ok && name in files;
      if !ok {
        errors := errors + 1;
      }
    }

    method Write(name: string, buf: array<bv8>, at: nat, n: nat) returns (put: int)
      requires name in files && at + n <= buf.Length
      modifies this
      ensures -1 <= put <= n
      ensures files == if put > 0 then old(files)[name := old(files)[name] + buf[..][at..at + put]] else old(files)
      ensures errors == old(errors) + if put < 0 then 1 else 0
    {
      put :| -1 <= put <= n;
      if put > 0 {
        files := files[name := files[name] + buf[at..at + put]];
      } else if put < 0 {
        errors := errors + 1;
      }
    }

    /** Reads from `pos`; 0 means that there is nothing to read or nothing was asked for. */
    method Read(name: string, pos: nat, buf: array<bv8>, at: nat, n: nat) returns (got: int)
      requires name in files && pos <= |files[name]| && at + n <= buf.Length
      modifies buf, `errors
      ensures -1 <= got <= Min(n, |files[name]| - pos)
      ensures errors == old(errors) + if got < 0 then 1 else 0
      ensures got == 0 ==> n == 0 || pos == |files[name]|
      ensures forall k | 0 <= k < buf.Length ::
        buf[k] == if at <= k < at + got then files[name][pos + k - at] else old(buf[k])
    {
      var limit := Min(n, |files[name]| - pos);
      got :| -1 <= got <= limit && (got == 0 ==> limit == 0);
      if got > 0 {
        var data := files[name];
        forall k | 0 <= k < got {
          buf[at + k] := data[pos + k];
        }
      } else if got < 0 {
        errors := errors + 1;
      }
    }

    method Unlink(name: string) returns (ok: bool)
      modifies this
      ensures files == if ok then old(files) - {name} else old(files)
      ensures errors == old(errors) + if ok then 0 else 1
    {
      ok := *;
      if ok {
        files := files - {name};
      } else {
        errors := errors + 1;
      }
    }
  }

  /**
    `savresDumpData` of the `n` bytes at `off`. Success means that the file holds them, whatever
    partial writes it took; it fails exactly if a call reports an error or `write` gives up early. After
    a failure the file is removed, also if it could not even be created; the old file is still there
    exactly if both the opening and the removal failed. If only the removal failed the file has the first `done` bytes.
  */
  method Dump(disk: Disk, name: string, buf: array<bv8>, off: nat, n: nat)
    returns (rval: int, ghost created: bool, ghost done: nat, ghost removed: bool)
    requires off + n <= buf.Length
    modifies disk
    ensures rval == 0 || rval == -1
    ensures rval == 0 <==> disk.errors == old(disk.errors) && done == n
    ensures rval == 0 ==> created && disk.files == old(disk.files)[name := buf[off..off + n]]
    ensures rval == -1 && removed ==> disk.files == old(disk.files) - {name}
    ensures rval == -1 && !removed && !created ==> disk.files == old(disk.files)
    ensures rval == -1 && !removed && created ==>
      done <= n && disk.files == old(disk.files)[name := buf[off..off + n][..done]]
  {
    rval, done, removed := -1, 0, false;
    ghost var was, data := disk.files, buf[..][off..off + n];
    assert data == buf[off..off + n];
    var fd := disk.Create(name);
    created := fd;
    if fd {
      var left, at := n, 0;
      var put := disk.Write(name, buf, off + at, left);
      done := Written(at, put);
      if put > 0 {
        SubSlice(buf[..], off, n, at, put);
      }
      FirstChunk(was, name, data, put);
      while put > 0
        invariant 0 <= at <= n && left == n - at && -1 <= put <= left
        invariant done == Written(at, put)
        invariant disk.errors == old(disk.errors) + if put < 0 then 1 else 0
        invariant disk.files == was[name := data[..done]]
        decreases left
      {
        left := left - put;
        at := at + put;
        put := disk.Write(name, buf, off + at, left);
        done := Written(at, put);
        if put > 0 {
          SubSlice(buf[..], off, n, at, put);
        }
        NextChunk(was, name, data, at, put);
      }
      if put >= 0 && left <= 0 {
        rval := 0;
        assert data[..done] == data;
      }
    }
    if rval != 0 {
      ghost var before := disk.files;
      var ok := disk.Unlink(name);
      removed := ok;
      assert before - {name} == was - {name};
    }
  }

  lemma SubSlice(s: seq<bv8>, off: nat, n: nat, at: nat, k: nat)
    requires off + n <= |s| && at + k <= n
    ensures s[off..off + n][at..at + k] == s[off + at..off + at + k]
  {
    var part, direct := s[off..off + n][at..at + k], s[off + at..off + at + k];
    forall i | 0 <= i < k
      ensures part[i] == direct[i]
    {
      assert s[off..off + n][at + i] == s[off + at + i];
    }
  }

  /** How far the file has got when `write` at offset `at` has returned `put`. */
  function Written(at: nat, put: int): nat {
    if put > 0 then at + put else at
  }

  lemma FirstChunk(was: map<string, seq<bv8>>, name: string, s: seq<bv8>, put: int)
    requires put <= |s|
    ensures (if put > 0 then was[name := []][name := [] + s[0..put]] else was[name := []])
         == was[name := s[..Written(0, put)]]
  {
    var chunk := if put > 0 then s[0..put] else [];
    assert [] + chunk == chunk == s[..Written(0, put)];
    assert was[name := []][name := chunk] == was[name := chunk];
  }

  lemma NextChunk(was: map<string, seq<bv8>>, name: string, s: seq<bv8>, at: nat, put: int)
    requires at <= |s| && at + put <= |s|
    ensures var files := was[name := s[..at]];
      (if put > 0 then files[name := s[..at] + s[at..at + put]] else files) == was[name := s[..Written(at, put)]]
  {
    if put > 0 {
      assert s[..at] + s[at..at + put] == s[..at + put];
    }
  }

  /**
    `savresRstrData`. Returns how many bytes were restored: all that were asked for or all the
    file has. It fails exactly if a call reports an error. The rest of the buffer is left alone. After an
    error the buffer has some bytes of the beginning of the file.
  */
  method Restore(disk: Disk, name: string, buf: array<bv8>, off: nat, n: nat) returns (rval: int)
    requires off + n <= buf.Length
    modifies buf, disk`errors
    ensures rval >= 0 <==> disk.errors == old(disk.errors)
    ensures rval >= 0 ==> name in disk.files && rval == Min(n, |disk.files[name]|)
    ensures rval >= 0 ==> Overlaid(buf[..], old(buf[..]), off, disk.files[name], rval)
    ensures rval < 0 ==>
      && rval == -1
      && (|| buf[..] == old(buf[..])
          || (name in disk.files
              && exists k | 0 <= k <= n :: Overlaid(buf[..], old(buf[..]), off, disk.files[name], k)))
    ensures forall k | 0 <= k < buf.Length && !(off <= k < off + n) :: buf[k] == old(buf[k])
  {
    rval := -1;
    ghost var was := buf[..];
    var fd := disk.Open(name);
    if fd {
      var left, at := n, 0;
      ghost var data := disk.files[name];
      var got := disk.Read(name, at, buf, off + at, left);
      ghost var done := if got > 0 then at + got else at;
      while got > 0
        invariant 0 <= at <= n && at <= |data| && left == n - at
        invariant got <= Min(left, |data| - at)
        invariant got == 0 ==> left == 0 || at == |data|
        invariant done == if got > 0 then at + got else at
        invariant disk.errors == old(disk.errors) + if got < 0 then 1 else 0
        invariant forall k | 0 <= k < buf.Length :: buf[k] == if off <= k < off + done then data[k - off] else was[k]
        decreases left
      {
        at := at + got;
        left := left - got;
        got := disk.Read(name, at, buf, off + at, left);
        done := if got > 0 then at + got else at;
      }
      assert Overlaid(buf[..], was, off, data, done);
      if got >= 0 {
        rval := at;
      }
    }
  }

  /** The fields of an aao record with array support from a memory buffer: BPTR points to byte `off` of `bptr`. */
  class Aao {
    var bptr: array<bv8>
    var off: nat
    var connected: bool   // BPTR is set
    var nelm: nat
    var nord: nat
    var dpvt: nat         // the original NELM
    var udf: bool
    var pending: bool     // an alarm has been raised
    var current: bool     // the record is in alarm
    var pact: bool

    ghost predicate Valid()
      reads this
    {
      connected && nelm <= dpvt && off + dpvt * ES <= bptr.Length
    }

    /** What the record holds: its first NELM elements. */
    ghost function Data(): seq<bv8>
      reads this, bptr
      requires Valid()
    {
      bptr[off..off + nelm * ES]
    }

    constructor ()
      ensures !connected && udf && !pending && !current && !pact
    {
      bptr := new bv8[0];
      connected, off, nelm, nord, dpvt, udf, pending, current, pact := false, 0, 0, 0, 0, true, false, false, false;
    }

    /**
      `savres_aao_init_record_helper`: the record gets its part of the array of all instances or, if
      there is none, a buffer of its own. Only that part is cleared.
    */
    method InitHelper(shared: array?<bv8>, signal: nat, nelm: nat, ninst: nat, dim: nat, memory: bool) returns (r: int)
      requires nelm <= dim && (shared != null ==> ninst * dim * ES <= shared.Length)
      modifies this, shared
      ensures r == if old(connected) || signal >= ninst || (shared == null && !memory) then -1 else 0
      ensures udf == old(udf) && pending == old(pending) && current == old(current) && this.nelm == nelm
      ensures pact == (old(pact) || (!old(connected) && signal < ninst && shared == null && !memory))
      ensures r != 0 ==>
        && connected == old(connected) && bptr == old(bptr) && off == old(off)
        && nord == old(nord) && dpvt == old(dpvt)
      ensures r != 0 && shared != null ==> shared[..] == old(shared[..])
      ensures r == 0 ==> Valid() && off == (if shared != null then signal * dim * ES else 0) && nord == dpvt == nelm
      ensures r == 0 && shared == null ==> fresh(bptr) && bptr.Length == dim * ES && Zero(bptr[..])
      ensures r == 0 && shared != null ==>
        && bptr == shared && off + dim * ES <= shared.Length
        && forall k | 0 <= k < shared.Length :: shared[k] == if off <= k < off + dim * ES then 0 else old(shared[k])
    {
      this.nelm := nelm;
      if connected {
        return -1;
      }
      if signal >= ninst {
        return -1;
      }
      var buf, at := shared, 0;
      if shared != null {
        at := signal * dim * ES;
        PartFits(signal, ninst, dim);
      } else if !memory {
        pact := true;
        return -1;
      } else {
        buf := new bv8[dim * ES];
      }
      bptr, off, connected := buf, at, true;
      Clear(buf, at, dim * ES);
      nord := this.nelm;
      dpvt := nord;
      return 0;
    }

    /** `aaoRstrData`: data clears UDF and makes pending alarms current. */
    method RestoreFrom(disk: Disk, name: string) returns (r: int)
      requires Valid()
      modifies bptr, `udf, `pending, `current, disk`errors
      ensures r >= 0 <==> disk.errors == old(disk.errors)
      ensures r >= 0 ==> name in disk.files && r == Min(nelm * ES, |disk.files[name]|)
      ensures r >= 0 ==> Overlaid(bptr[..], old(bptr[..]), off, disk.files[name], r)
      ensures forall k | 0 <= k < bptr.Length && !(off <= k < off + nelm * ES) :: bptr[k] == old(bptr[k])
      ensures udf == (old(udf) && r <= 0)
      ensures (current, pending) == if r > 0 then (old(pending), false) else (old(current), old(pending))
    {
      r := Restore(disk, name, bptr, off, nelm * ES);
      if r > 0 {
        udf := false;
        current, pending := pending, false;   // recGblResetAlarms
      }
    }

    /** `write_aao_pad`: the record has been written with NELM elements, which may be fewer than it has room for. */
    method WritePad() returns (r: int)
      requires Valid()
      modifies this`nelm, this`nord, bptr
      ensures r == 0 && Valid() && nord == old(nelm) && nelm == dpvt
      ensures Data() == Fit(old(Data()), dpvt * ES)
      ensures forall k | 0 <= k < bptr.Length && !(off <= k < off + dpvt * ES) :: bptr[k] == old(bptr[k])
    {
      ghost var was := bptr[..];
      Clear(bptr, off + nelm * ES, (dpvt - nelm) * ES);
      Padded(bptr[..], was, off, nelm * ES, dpvt * ES);
      nord := nelm;
      nelm := dpvt;
      return 0;
    }
  }

  lemma Padded(now: seq<bv8>, was: seq<bv8>, off: nat, n: nat, m: nat)
    requires n <= m && off + m <= |now| == |was|
    requires forall k | off <= k < off + m :: now[k] == if k < off + n then was[k] else 0
    ensures now[off..off + m] == Fit(was[off..off + n], m)
  {
  }

  lemma PartFits(signal: nat, ninst: nat, dim: nat)
    requires signal < ninst
    ensures signal * dim * ES + dim * ES <= ninst * dim * ES
  {
    assert (ninst - signal - 1) * dim >= 0;
    assert ninst * dim == signal * dim + dim + (ninst - signal - 1) * dim;
  }

  /** The loops which write zeroes. */
  method Clear(buf: array<bv8>, from: nat, n: nat)
    requires from + n <= buf.Length
    modifies buf
    ensures forall k | 0 <= k < buf.Length :: buf[k] == if from <= k < from + n then 0 else old(buf[k])
  {
    var i := from;
    while i < from + n
      invariant from <= i <= from + n
      invariant forall k | 0 <= k < buf.Length :: buf[k] == if from <= k < i then 0 else old(buf[k])
    {
      buf[i] := 0;
      i := i + 1;
    }
  }

  lemma RestoredData(now: seq<bv8>, was: seq<bv8>, padded: seq<bv8>, n: nat)
    requires Overlaid(now, was, 0, padded, Min(n, |padded|)) && n <= |was| && Zero(was)
    ensures now[..n] == Fit(padded, n)
  {
  }

  /**
    A record is written, padded and dumped; after a restart a record of any other size is
    initialised and restored from the file: it holds what had been written, cut or padded with
    zeroes to its own size.
  */
  method SaveAndRestart(disk: Disk, name: string, rec: Aao, nelm: nat, dim: nat)
    returns (dumped: int, restored: int, next: Aao)
    requires rec.Valid() && nelm <= dim
    modifies disk, rec, rec.bptr
    ensures dumped == 0 && restored >= 0 ==> next.Valid() && next.Data() == Fit(old(rec.Data()), nelm * ES)
  {
    ghost var written := rec.Data();
    var _ := rec.WritePad();
    ghost var padded := rec.Data();
    ghost var created, done, removed;
    dumped, created, done, removed := Dump(disk, name, rec.bptr, rec.off, rec.nelm * ES);
    next := new Aao();
    var _ := next.InitHelper(null, 0, nelm, 1, dim, true);
    ghost var fresh0 := next.bptr[..];
    restored := next.RestoreFrom(disk, name);
    if dumped == 0 && restored >= 0 {
      assert disk.files[name] == padded;
      RestoredData(next.bptr[..], fresh0, padded, nelm * ES);
      FitTwice(written, rec.dpvt * ES, nelm * ES);
    }
  }

  /** A part of a buffer which has not changed. */
  lemma SamePart(now: seq<bv8>, was: seq<bv8>, from: nat, to: nat)
    requires from <= to <= |now| == |was| && forall k | from <= k < to :: now[k] == was[k]
    ensures now[from..to] == was[from..to]
  {
  }

  /** The part of the array one record uses lies outside that of the other. */
  ghost predicate Apart(a: Aao, b: Aao)
    reads a, b
  {
    a != b && a.bptr == b.bptr && (a.off + a.dpvt * ES <= b.off || b.off + b.dpvt * ES <= a.off)
  }

  /** Records of two instances of one array: restoring one leaves the data of the other alone, */
  method RestoreBeside(disk: Disk, name: string, a: Aao, b: Aao)
    requires a.Valid() && b.Valid() && Apart(a, b)
    modifies a`udf, a`pending, a`current, a.bptr, disk`errors
    ensures b.Valid() && b.Data() == old(b.Data())
  {
    ghost var was := b.bptr[..];
    var r := a.RestoreFrom(disk, name);
    SamePart(b.bptr[..], was, b.off, b.off + b.nelm * ES);
  }

  /** and so does padding it. */
  method PadBeside(a: Aao, b: Aao)
    requires a.Valid() && b.Valid() && Apart(a, b)
    modifies a`nelm, a`nord, a.bptr
    ensures b.Valid() && b.Data() == old(b.Data())
  {
    ghost var was := b.bptr[..];
    var _ := a.WritePad();
    SamePart(b.bptr[..], was, b.off, b.off + b.nelm * ES);
  }
}
