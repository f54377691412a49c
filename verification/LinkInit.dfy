/**
  Initialization of a record from its link: `base+offset,method,scan` and the card and signal
  numbers become the address of a register, an access method and a scan list.
*/
module LinkInit {
  import opened Wrappers
  import opened LinkSyntax
  import opened LinkNumbers
  import opened DeviceRegistry
  import opened BusAccess

  /** An access method: a predefined one or one registered by the application. */
  datatype Acc = Predefined(access: Access) | Registered(id: nat)

  // ---------------------------------------------------------------- access methods by name

  predicate NextIs(s: string, k: nat, c: char) {
    k < |s| && s[k] == c
  }

  /** The predefined method a string begins with. */
  function NamedAccess(s: string): Option<Access> {
    if "m32" <= s then Some(M32)
    else if "be32" <= s then Some(Be32)
    else if "le32" <= s then Some(Le32)
    else if "m16" <= s then Some(if NextIs(s, 3, 's') then M16s else M16)
    else if "be16" <= s then Some(if NextIs(s, 4, 's') then Be16s else Be16)
    else if "le16" <= s then Some(if NextIs(s, 4, 's') then Le16s else Le16)
    else if "m8" <= s then Some(if NextIs(s, 2, 's') then M8s else M8)
    else if "be8" <= s then Some(if NextIs(s, 3, 's') then Io8s else Io8)
    else None
  }

  function Name(a: Access): string {
    match a
    case M32 => "m32"
    case Be32 => "be32"
    case Le32 => "le32"
    case M16 => "m16"
    case M16s => "m16s"
    case Be16 => "be16"
    case Be16s => "be16s"
    case Le16 => "le16"
    case Le16s => "le16s"
    case M8 => "m8"
    case M8s => "m8s"
    case Io8 => "be8"
    case Io8s => "be8s"
  }

  /** Whether a trailing `s` turns the method into another one. */
  predicate HasSignedTwin(a: Access) {
    Width(a) < 4 && !(a.M16s? || a.Be16s? || a.Le16s? || a.M8s? || a.Io8s?)
  }

  lemma Begins(s: string, p: string)
    ensures p <= s <==> |p| <= |s| && forall k | 0 <= k < |p| :: s[k] == p[k]
  {
    if |p| <= |s| && forall k | 0 <= k < |p| :: s[k] == p[k] {
      assert s[..|p|] == p;
    }
  }

  lemma Words(s: string)
    ensures "m32" <= s <==> |s| >= 3 && s[0] == 'm' && s[1] == '3' && s[2] == '2'
    ensures "be32" <= s <==> |s| >= 4 && s[0] == 'b' && s[1] == 'e' && s[2] == '3' && s[3] == '2'
    ensures "le32" <= s <==> |s| >= 4 && s[0] == 'l' && s[1] == 'e' && s[2] == '3' && s[3] == '2'
    ensures "m16" <= s <==> |s| >= 3 && s[0] == 'm' && s[1] == '1' && s[2] == '6'
    ensures "m16s" <= s <==> |s| >= 4 && s[0] == 'm' && s[1] == '1' && s[2] == '6' && s[3] == 's'
    ensures "be16" <= s <==> |s| >= 4 && s[0] == 'b' && s[1] == 'e' && s[2] == '1' && s[3] == '6'
    ensures "be16s" <= s <==> |s| >= 5 && s[0] == 'b' && s[1] == 'e' && s[2] == '1' && s[3] == '6' && s[4] == 's'
    ensures "le16" <= s <==> |s| >= 4 && s[0] == 'l' && s[1] == 'e' && s[2] == '1' && s[3] == '6'
    ensures "le16s" <= s <==> |s| >= 5 && s[0] == 'l' && s[1] == 'e' && s[2] == '1' && s[3] == '6' && s[4] == 's'
    ensures "m8" <= s <==> |s| >= 2 && s[0] == 'm' && s[1] == '8'
    ensures "m8s" <= s <==> |s| >= 3 && s[0] == 'm' && s[1] == '8' && s[2] == 's'
    ensures "be8" <= s <==> |s| >= 3 && s[0] == 'b' && s[1] == 'e' && s[2] == '8'
    ensures "be8s" <= s <==> |s| >= 4 && s[0] == 'b' && s[1] == 'e' && s[2] == '8' && s[3] == 's'
  {
    Begins(s, "m32");
    Begins(s, "be32");
    Begins(s, "le32");
    Begins(s, "m16");
    Begins(s, "m16s");
    Begins(s, "be16");
    Begins(s, "be16s");
    Begins(s, "le16");
    Begins(s, "le16s");
    Begins(s, "m8");
    Begins(s, "m8s");
    Begins(s, "be8");
    Begins(s, "be8s");
  }

  /**
    A string selects method `a` exactly if it begins with the method's name, not followed by an `s`
    where that names the signed method. Whatever else follows is ignored.
  */
  lemma NamesExactly(s: string, a: Access)
    ensures NamedAccess(s) == Some(a) <==> Name(a) <= s && !(HasSignedTwin(a) && NextIs(s, |Name(a)|, 's'))
  {
    Words(s);
  }

  // ---------------------------------------------------------------- what a link stands for

  /** The registries, and whether memory for another device is available. */
  datatype World = World(
    devs: map<string, Dev>, ios: map<string, nat>, scans: map<string, nat>, next: nat, memory: bool)

  /** `*plus && !*endp`, or no offset at all. */
  predicate OffsetOk(p: Parts, word: nat)
    requires word >= 1
  {
    p.offset.Some? ==> IsNumber(p.offset.value, word)
  }

  function Offset(p: Parts, word: nat): nat
    requires word >= 1
  {
    if p.offset.Some? then StrToUl(p.offset.value, word).0 else 0
  }

  /** The name a device is looked up under. */
  function Key(base: string, word: nat): string
    requires word >= 1
  {
    if IsNumber(base, word) then HexName(StrToUl(base, word).0) else base
  }

  /** The registry after the look-up: a number which is not there yet is added. */
  function Devices(w: World, base: string, word: nat): map<string, Dev>
    requires word >= 1
  {
    var key := Key(base, word);
    if IsNumber(base, word) && key !in w.devs && w.memory
    then w.devs[key := Dev(w.next, key, StrToUl(base, word).0)]
    else w.devs
  }

  function Method(ios: map<string, nat>, name: Option<string>): Option<Acc> {
    if name.None? then Some(Predefined(Be32))
    else if name.value in ios then Some(Registered(ios[name.value]))
    else if NamedAccess(name.value).Some? then Some(Predefined(NamedAccess(name.value).value))
    else None
  }

  function ScanList(scans: map<string, nat>, name: Option<string>): Option<nat> {
    if name.Some? && name.value in scans then Some(scans[name.value]) else None
  }

  /** Addition of machine words. */
  function Plus(x: nat, y: nat, word: nat): nat
    requires word >= 1
  {
    (x + y) % word
  }

  /** The distance of instance `card`: `card << signal`. */
  function Shifted(card: nat, signal: nat): nat {
    if signal == 0 then card else 2 * Shifted(card, signal - 1)
  }

  /** The address of instance `card` with a spacing of 2^`signal`, before the offset is added. */
  function Instance(d: Option<Dev>, card: nat, signal: nat, word: nat): nat
    requires word >= 1
  {
    if d.Some? then Plus(d.value.base, Shifted(card, signal), word) else 0
  }

  /** The device a link resolves to. */
  function Device(w: World, p: Parts, word: nat): Option<Dev>
    requires word >= 1
  {
    Find(Devices(w, p.base, word), Key(p.base, word))
  }

  /** The address a link resolves to; 0 when it does not. */
  function Address(w: World, p: Parts, card: nat, signal: nat, word: nat): nat
    requires word >= 1
  {
    var r := Instance(Device(w, p, word), card, signal, word);
    if !OffsetOk(p, word) || r == 0 then 0 else Plus(r, Offset(p, word), word)
  }

  /** What a link contributes to the private data of a record, and PACT. */
  datatype Result = Result(error: bool, addr: nat, acc: Acc, scan: Option<nat>, pact: bool)

  /**
    What becomes of a record with a VME link. `scan` and `pact` are as they were before: the scan
    list is assigned only if the access method is known.
  */
  function Outcome(w: World, p: Parts, card: nat, signal: nat, word: nat, scan: Option<nat>, pact: bool): Result
    requires word >= 1
  {
    var addr, acc := Address(w, p, card, signal, word), Method(w.ios, p.acc);
    if OffsetOk(p, word) && acc.Some?
    then Result(addr == 0, addr, acc.value, ScanList(w.scans, p.scan), pact || addr == 0)
    else Result(addr == 0, addr, Predefined(Be32), scan, pact || addr == 0)
  }

  datatype Link = Constant(text: Option<string>) | Vme(parm: string, card: nat, signal: nat) | Other

  const LONG_LONG: nat := 0x1_0000_0000_0000_0000

  /** `strtoull` of a constant link; text behind the number is ignored. */
  function ConstantValue(text: Option<string>, word: nat): nat
    requires word >= 1
  {
    if text.None? || StrToUl(text.value, LONG_LONG).1 == 0 then 0 else StrToUl(text.value, LONG_LONG).0 % word
  }

  // ---------------------------------------------------------------- the C strings

  /** The string up to the NUL. */
  function CStr(buf: seq<char>, at: nat): string
    requires at <= |buf|
    decreases |buf| - at
  {
    if at == |buf| || buf[at] == NUL then [] else [buf[at]] + CStr(buf, at + 1)
  }

  lemma {:induction false} CStrIs(buf: seq<char>, at: nat, s: string)
    requires IsStr(buf, at, s)
    ensures CStr(buf, at) == s
    decreases |s|
  {
    if s != [] {
      assert buf[at] == buf[at..at + |s|][0] == s[0] && s[0] in s;
      assert buf[at + 1..at + 1 + |s[1..]|] == buf[at..at + |s|][1..] == s[1..];
      CStrIs(buf, at + 1, s[1..]);
      assert s == [s[0]] + s[1..];
    } else {
      assert buf[at] == NUL;
    }
  }

  /** The string at a pointer, None for a null pointer. */
  method StringAt(buf: array<char>, at: int, ghost part: Option<string>) returns (s: Option<string>)
    requires PartAt(buf[..], at, part)
    ensures s == part
  {
    if at == -1 {
      s := None;
    } else {
      CStrIs(buf[..], at, part.value);
      s := Some(CStr(buf[..], at));
    }
  }

  /** The part of a link before the `+`, and what its three pointers point at. */
  method Dissect(parm: string)
    returns (base: string, plus: Option<string>, comma: Option<string>, comma1: Option<string>)
    requires NUL !in parm
    ensures Parts(base, plus, comma, comma1) == Split(parm)
  {
    var cp := new char[|parm| + 1](i requires 0 <= i <= |parm| => if i < |parm| then parm[i] else NUL);
    assert cp[..][0..|parm|] == parm;
    var i, j, k := SplitInPlace(cp, parm);
    var start := StringAt(cp, 0, Some(Split(parm).base));
    base := start.value;
    plus := StringAt(cp, i, Split(parm).offset);
    comma := StringAt(cp, j, Split(parm).acc);
    comma1 := StringAt(cp, k, Split(parm).scan);
  }

  // ---------------------------------------------------------------- the routine

  class Registry {
    var devs: map<string, Dev>
    var ios: map<string, nat>
    var scans: map<string, nat>
    var next: nat
    var memory: bool

    constructor ()
      ensures devs == map[] && ios == map[] && scans == map[] && next == 0 && memory
    {
      devs, ios, scans, next, memory := map[], map[], map[], 0, true;
    }

    function View(): World
      reads this
    {
      World(devs, ios, scans, next, memory)
    }

    /** `devBusMappedRegister`: a new entry, unless the name is taken or there is no memory. */
    method Register(name: string, base: nat) returns (d: Option<Dev>)
      modifies `devs, `next
      ensures d == if memory && name !in old(devs) then Some(Dev(old(next), name, base)) else None
      ensures devs == if d.Some? then old(devs)[name := d.value] else old(devs)
      ensures next == old(next) + if memory then 1 else 0
    {
      d := None;
      if memory {
        var made := Dev(next, name, base);
        next := next + 1;
        if name !in devs {
          devs := devs[name := made];
          d := Some(made);
        }
      }
    }
  }

  /** The private data of a record, and its PACT. */
  class Pvt {
    var dev: Option<Dev>
    var acc: Acc
    var scan: Option<nat>
    var addr: nat
    var pact: bool

    constructor ()
      ensures !pact
    {
      dev, acc, scan, addr, pact := None, Predefined(Be32), None, 0, false;
    }

    /** Find, create, find: a number ends up in the registry unless there is no memory. */
    method FindOrCreate(reg: Registry, name: string, base: nat)
      modifies `dev, reg`devs, reg`next
      ensures reg.devs == if name !in old(reg.devs) && reg.memory
                          then old(reg.devs)[name := Dev(old(reg.next), name, base)] else old(reg.devs)
      ensures dev == Find(reg.devs, name)
    {
      var i := 0;
      dev := Find(reg.devs, name);
      while dev.None? && i < 1
        invariant 0 <= i <= 1 && dev == Find(reg.devs, name)
        invariant i == 0 ==> reg.devs == old(reg.devs) && reg.next == old(reg.next)
        invariant i == 1 ==> reg.devs == old(reg.devs) && (name in reg.devs || !reg.memory)
      {
        dev := reg.Register(name, base);
        if dev.Some? {
          break;
        }
        i := i + 1;
        dev := Find(reg.devs, name);
      }
    }

    /** The device of a number or of a name. */
    method FindDevice(reg: Registry, base: string, word: nat) returns (number: nat)
      requires word >= 1 && (IsNumber(base, word) ==> |HexName(StrToUl(base, word).0)| + 1 <= 15)
      modifies `dev, reg`devs, reg`next
      ensures reg.devs == Devices(old(reg.View()), base, word)
      ensures dev == Find(reg.devs, Key(base, word))
    {
      var (v, end) := StrToUl(base, word);
      number := v;
      if base != "" && end == |base| {
        FindOrCreate(reg, HexName(number), number);
      } else {
        dev := Find(reg.devs, base);
      }
    }

    /** The address of an instance of a device, 0 without a device. */
    method Locate(reg: Registry, base: string, card: nat, signal: nat, word: nat) returns (rval: nat)
      requires word >= 1 && (IsNumber(base, word) ==> |HexName(StrToUl(base, word).0)| + 1 <= 15)
      modifies `dev, reg`devs, reg`next
      ensures reg.devs == Devices(old(reg.View()), base, word) && dev == Find(reg.devs, Key(base, word))
      ensures rval == Instance(dev, card, signal, word)
    {
      rval := FindDevice(reg, base, word);
      if dev.Some? {
        rval := Plus(dev.value.base, Shifted(card, signal), word);
      } else {
        rval := 0;
      }
    }

    /** A registered access method, or else a predefined one. */
    method SetAccess(reg: Registry, name: string) returns (known: bool)
      modifies `acc
      ensures var m := Method(reg.ios, Some(name));
        known == m.Some? && acc == if known then m.value else old(acc)
    {
      known := true;
      if name in reg.ios {
        acc := Registered(reg.ios[name]);
      } else if NamedAccess(name).Some? {
        acc := Predefined(NamedAccess(name).value);
      } else {
        known := false;
      }
    }

    method SetScan(reg: Registry, name: string)
      requires scan == None
      modifies `scan
      ensures scan == ScanList(reg.scans, Some(name))
    {
      if name in reg.scans {
        scan := Some(reg.scans[name]);
      }
    }

    /** What follows the splitting of a VME link. */
    method Resolve(reg: Registry, p: Parts, card: nat, signal: nat, word: nat) returns (error: bool)
      requires word >= 1 && Shifted(card, signal) < 0x8000_0000
      requires OffsetOk(p, word) && IsNumber(p.base, word) ==> |HexName(StrToUl(p.base, word).0)| + 1 <= 15
      modifies this, reg`devs, reg`next
      ensures Result(error, addr, acc, scan, pact)
           == Outcome(old(reg.View()), p, card, signal, word, old(scan), old(pact))
      ensures reg.devs == if OffsetOk(p, word) then Devices(old(reg.View()), p.base, word) else old(reg.devs)
      ensures dev == if OffsetOk(p, word) then Device(old(reg.View()), p, word) else old(dev)
    {
      var rval, offset := 0, 0;
      acc := Predefined(Be32);

      label vme: {
        if p.offset.Some? {
          var (v, end) := StrToUl(p.offset.value, word);
          offset := v;
          if p.offset.value == "" || end != |p.offset.value| {
            break vme;
          }
        }

        rval := Locate(reg, p.base, card, signal, word);

        if p.acc.Some? {
          var known := SetAccess(reg, p.acc.value);
          if !known {
            break vme;
          }
        }

        scan := None;
        if p.scan.Some? {
          SetScan(reg, p.scan.value);
        }
      }

      if rval != 0 {
        rval := Plus(rval, offset, word);
      }
      addr := rval;
      if rval == 0 {
        pact := true;
      }
      error := rval == 0;
    }

    method ResolveVme(reg: Registry, parm: string, card: nat, signal: nat, word: nat) returns (error: bool)
      requires NUL !in parm && word >= 1 && Shifted(card, signal) < 0x8000_0000
      requires OffsetOk(Split(parm), word) && IsNumber(Split(parm).base, word) ==>
        |HexName(StrToUl(Split(parm).base, word).0)| + 1 <= 15
      modifies this, reg`devs, reg`next
      ensures Result(error, addr, acc, scan, pact)
           == Outcome(old(reg.View()), Split(parm), card, signal, word, old(scan), old(pact))
      ensures reg.devs ==
        if OffsetOk(Split(parm), word) then Devices(old(reg.View()), Split(parm).base, word) else old(reg.devs)
      ensures dev == if OffsetOk(Split(parm), word) then Device(old(reg.View()), Split(parm), word) else old(dev)
    {
      var base, plus, comma, comma1 := Dissect(parm);
      error := Resolve(reg, Parts(base, plus, comma, comma1), card, signal, word);
    }

    /** `devBusVmeLinkInit`; the result says whether it failed. */
    method LinkInit(reg: Registry, link: Link, word: nat) returns (error: bool)
      requires word >= 1 && (link.Vme? ==> NUL !in link.parm && Shifted(link.card, link.signal) < 0x8000_0000)
      requires link.Vme? && OffsetOk(Split(link.parm), word) && IsNumber(Split(link.parm).base, word) ==>
        |HexName(StrToUl(Split(link.parm).base, word).0)| + 1 <= 15
      modifies this, reg`devs, reg`next
      ensures link.Vme? ==>
        Result(error, addr, acc, scan, pact)
        == Outcome(old(reg.View()), Split(link.parm), link.card, link.signal, word, old(scan), old(pact))
      ensures link.Vme? && OffsetOk(Split(link.parm), word) ==>
        && reg.devs == Devices(old(reg.View()), Split(link.parm).base, word)
        && dev == Device(old(reg.View()), Split(link.parm), word)
      ensures !(link.Vme? && OffsetOk(Split(link.parm), word)) ==> reg.devs == old(reg.devs) && dev == old(dev)
      ensures !link.Vme? ==>
        && addr == (if link.Constant? then ConstantValue(link.text, word) else 0) && error == (addr == 0)
        && acc == Predefined(Be32) && scan == old(scan) && pact == (old(pact) || error)
    {
      acc := Predefined(Be32);
      var rval := 0;
      match link {
        case Constant(text) =>
          if text.Some? {
            var (ull, end) := StrToUl(text.value, LONG_LONG);
            if end > 0 {
              rval := ull % word;
            }
          }
        case Vme(parm, card, signal) =>
          error := ResolveVme(reg, parm, card, signal, word);
          return;
        case Other =>
      }
      addr := rval;
      if rval == 0 {
        pact := true;
      }
      error := rval == 0;
    }
  }
}
