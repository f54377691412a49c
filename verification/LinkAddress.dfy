/** Which links resolve, to which address, and why the registers of two instances of a device do not overlap. */
module LinkAddress {
  import opened Wrappers
  import opened LinkSyntax
  import opened LinkNumbers
  import opened DeviceRegistry
  import opened BusAccess
  import opened BusMemory
  import opened BusRegister
  import opened LinkInit

  lemma Wrap(r: nat, q: nat, word: nat)
    requires word >= 2
    ensures (q * word + r) % word == r % word
  {
    var d, x := r / word, r % word;
    Divide(r, word);
    assert q * word + r == (q + d) * word + x;
    Quotient(q + d, x, word);
  }

  lemma PlusTwice(x: nat, y: nat, z: nat, word: nat)
    requires word >= 2
    ensures Plus(Plus(x, y, word), z, word) == (x + y + z) % word
  {
    var q, r := (x + y) / word, (x + y) % word;
    Divide(x + y, word);
    Wrap(r + z, q, word);
    assert x + y + z == q * word + (r + z);
  }

  /** Shifting is multiplying by a power of two. */
  lemma {:induction false} ShiftMultiplies(card: nat, signal: nat)
    ensures Shifted(card, signal) == card * Pow(2, signal)
  {
    if signal > 0 {
      ShiftMultiplies(card, signal - 1);
      assert card * Pow(2, signal) == card * (Pow(2, signal - 1) * 2) == 2 * (card * Pow(2, signal - 1));
    }
  }

  /** The address with `x` for the distance of the instance. */
  lemma AddressWith(w: World, p: Parts, card: nat, signal: nat, x: nat, word: nat)
    requires word >= 2 && x == Shifted(card, signal)
    ensures var d := Device(w, p, word);
      Address(w, p, card, signal, word) ==
        if OffsetOk(p, word) && d.Some? && (d.value.base + x) % word != 0
        then (d.value.base + x + Offset(p, word)) % word else 0
  {
    var d := Device(w, p, word);
    if d.Some? {
      PlusTwice(d.value.base, x, Offset(p, word), word);
    }
  }

  /**
    A link is refused exactly if its offset is no number, it names no device, or the address is 0
    with or without the offset; otherwise base, instance and offset add up modulo the word size.
  */
  lemma ResolvesExactly(w: World, p: Parts, card: nat, signal: nat, word: nat)
    requires word >= 2
    ensures var d, instance := Device(w, p, word), card * Pow(2, signal);
      Address(w, p, card, signal, word) ==
        if OffsetOk(p, word) && d.Some? && (d.value.base + instance) % word != 0
        then (d.value.base + instance + Offset(p, word)) % word else 0
  {
    ShiftMultiplies(card, signal);
    AddressWith(w, p, card, signal, card * Pow(2, signal), word);
  }

  /** The first instance is at the base, whatever the spacing, */
  lemma FirstInstance(w: World, p: Parts, signal: nat, word: nat)
    requires word >= 2 && OffsetOk(p, word) && Device(w, p, word).Some?
    requires Device(w, p, word).value.base % word != 0
    ensures Address(w, p, 0, signal, word) == (Device(w, p, word).value.base + Offset(p, word)) % word
  {
    ResolvesExactly(w, p, 0, signal, word);
    assert 0 * Pow(2, signal) == 0;
  }

  /** and without a spacing instance `c` is `c` bytes further on. */
  lemma NoSpacing(w: World, p: Parts, c: nat, word: nat)
    requires word >= 2 && OffsetOk(p, word) && Device(w, p, word).Some?
    requires (Device(w, p, word).value.base + c) % word != 0
    ensures Address(w, p, c, 0, word) == (Device(w, p, word).value.base + c + Offset(p, word)) % word
  {
    ResolvesExactly(w, p, c, 0, word);
    assert c * Pow(2, 0) == c;
  }

  lemma NextBlock(c: nat, block: nat)
    ensures (c + 1) * block == c * block + block && c * (block * 2) == (2 * c) * block
  {
  }

  lemma Further(sum: nat, block: nat, word: nat)
    requires word >= 2
    ensures (sum + block) % word == (sum % word + block) % word
  {
    PlusTwice(0, sum, block, word);
  }

  /** Instances follow 2^`signal` apart, */
  lemma NextInstance(w: World, p: Parts, c: nat, signal: nat, word: nat)
    requires word >= 2 && Address(w, p, c, signal, word) != 0 && Address(w, p, c + 1, signal, word) != 0
    ensures Address(w, p, c + 1, signal, word) == (Address(w, p, c, signal, word) + Pow(2, signal)) % word
  {
    ShiftMultiplies(c, signal);
    ShiftMultiplies(c + 1, signal);
    NextBlock(c, Pow(2, signal));
    SumsFollow(w, p, c, signal, Shifted(c, signal), Pow(2, signal), word);
  }

  lemma SumsFollow(w: World, p: Parts, c: nat, signal: nat, x: nat, block: nat, word: nat)
    requires word >= 2 && Address(w, p, c, signal, word) != 0 && Address(w, p, c + 1, signal, word) != 0
    requires x == Shifted(c, signal) && x + block == Shifted(c + 1, signal)
    ensures Address(w, p, c + 1, signal, word) == (Address(w, p, c, signal, word) + block) % word
  {
    AddressWith(w, p, c, signal, x, word);
    AddressWith(w, p, c + 1, signal, x + block, word);
    var sum := Device(w, p, word).value.base + x + Offset(p, word);
    assert Device(w, p, word).value.base + (x + block) + Offset(p, word) == sum + block;
    Further(sum, block, word);
  }

  /** and twice as far with the next signal number. */
  lemma NextSignal(w: World, p: Parts, c: nat, signal: nat, word: nat)
    requires word >= 2
    ensures Address(w, p, c, signal + 1, word) == Address(w, p, 2 * c, signal, word)
  {
    ShiftMultiplies(c, signal);
    ShiftMultiplies(2 * c, signal);
    NextBlock(c, Pow(2, signal));
    AddressWith(w, p, c, signal + 1, Shifted(c, signal + 1), word);
    AddressWith(w, p, 2 * c, signal, Shifted(c, signal + 1), word);
  }

  /**
    A link printed from a base and an offset in any spelling resolves to the sum of the numbers,
    unless the application registered the name of the number for something else.
  */
  lemma PrintedLinkResolves(w: World, p: Parts, n: nat, o: nat, card: nat, signal: nat, word: nat)
    requires Proper(p) && IsSpelling(p.base, n) && n < word && o < word && word >= 2
    requires if p.offset.Some? then IsSpelling(p.offset.value, o) else o == 0
    requires if HexName(n) in w.devs then w.devs[HexName(n)].base == n else w.memory
    requires (n + card * Pow(2, signal)) % word != 0
    ensures Split(Print(p)) == p
    ensures Address(w, Split(Print(p)), card, signal, word) == (n + card * Pow(2, signal) + o) % word
  {
    SplitPrint(p);
    SpelledSum(w, p, n, o, card, signal, word);
  }

  lemma SpelledSum(w: World, p: Parts, n: nat, o: nat, card: nat, signal: nat, word: nat)
    requires IsSpelling(p.base, n) && n < word && o < word && word >= 2
    requires if p.offset.Some? then IsSpelling(p.offset.value, o) else o == 0
    requires if HexName(n) in w.devs then w.devs[HexName(n)].base == n else w.memory
    requires (n + card * Pow(2, signal)) % word != 0
    ensures Address(w, p, card, signal, word) == (n + card * Pow(2, signal) + o) % word
  {
    NumberDevice(w, p, n, word);
    SpelledOffset(p, o, word);
    ShiftMultiplies(card, signal);
    SumOf(w, p, n, o, card, signal, card * Pow(2, signal), word);
  }

  /** A link with the name of a device the application has registered resolves to that device and adds none. */
  lemma NamedLinkResolves(w: World, p: Parts, o: nat, card: nat, signal: nat, word: nat)
    requires word >= 2 && Proper(p) && !IsNumber(p.base, word) && o < word
    requires if p.offset.Some? then IsSpelling(p.offset.value, o) else o == 0
    ensures Split(Print(p)) == p && Devices(w, p.base, word) == w.devs
    ensures var address := Address(w, Split(Print(p)), card, signal, word);
      if p.base !in w.devs || (w.devs[p.base].base + card * Pow(2, signal)) % word == 0 then address == 0
      else address == (w.devs[p.base].base + card * Pow(2, signal) + o) % word
  {
    SplitPrint(p);
    NamedSum(w, p, o, card, signal, word);
  }

  lemma NamedSum(w: World, p: Parts, o: nat, card: nat, signal: nat, word: nat)
    requires word >= 2 && !IsNumber(p.base, word) && o < word
    requires if p.offset.Some? then IsSpelling(p.offset.value, o) else o == 0
    ensures Address(w, p, card, signal, word) ==
      if p.base !in w.devs || (w.devs[p.base].base + card * Pow(2, signal)) % word == 0 then 0
      else (w.devs[p.base].base + card * Pow(2, signal) + o) % word
  {
    SpelledOffset(p, o, word);
    ShiftMultiplies(card, signal);
    AddressWith(w, p, card, signal, card * Pow(2, signal), word);
  }

  lemma SumOf(w: World, p: Parts, n: nat, o: nat, card: nat, signal: nat, x: nat, word: nat)
    requires word >= 2 && Device(w, p, word).Some? && Device(w, p, word).value.base == n
    requires OffsetOk(p, word) && Offset(p, word) == o && x == Shifted(card, signal) && (n + x) % word != 0
    ensures Address(w, p, card, signal, word) == (n + x + o) % word
  {
    AddressWith(w, p, card, signal, x, word);
  }

  lemma NumberDevice(w: World, p: Parts, n: nat, word: nat)
    requires IsSpelling(p.base, n) && n < word
    requires if HexName(n) in w.devs then w.devs[HexName(n)].base == n else w.memory
    ensures Device(w, p, word).Some? && Device(w, p, word).value.base == n
  {
    AnySpelling(p.base, n, word);
  }

  lemma SpelledOffset(p: Parts, o: nat, word: nat)
    requires o < word && if p.offset.Some? then IsSpelling(p.offset.value, o) else o == 0
    ensures OffsetOk(p, word) && Offset(p, word) == o
  {
    if p.offset.Some? {
      AnySpelling(p.offset.value, o, word);
    }
  }

  /** Two spellings of a number lead to one device, and the second one adds nothing to the registry. */
  lemma SpellingsMeet(w: World, p: Parts, q: Parts, n: nat, word: nat)
    requires IsSpelling(p.base, n) && IsSpelling(q.base, n) && n < word && (HexName(n) in w.devs || w.memory)
    ensures var w' := w.(devs := Devices(w, p.base, word), next := w.next + 1);
      Device(w, p, word).Some? && Device(w', q, word) == Device(w, p, word) && Devices(w', q.base, word) == w'.devs
  {
    AnySpelling(p.base, n, word);
    AnySpelling(q.base, n, word);
  }

  // ---------------------------------------------------------------- what else a link decides

  /**
    Which access method a link selects: be32 if it names none; else the one the application registered
    under the name; else the predefined one whose name it begins with.
  */
  lemma MethodExactly(ios: map<string, nat>, name: Option<string>, id: nat, a: Access)
    ensures Method(ios, name) == Some(Registered(id)) <==> name.Some? && name.value in ios && ios[name.value] == id
    ensures Method(ios, name) == Some(Predefined(a)) <==>
      if name.None? then a == Be32
      else name.value !in ios && Name(a) <= name.value && !(HasSignedTwin(a) && NextIs(name.value, |Name(a)|, 's'))
  {
    if name.Some? {
      NamesExactly(name.value, a);
    }
  }

  /**
    A link with a proper offset and a known method: the record uses that method and the scan list
    registered under the third part of the link, none if there is no such list, and is disabled exactly
    if the link does not resolve.
  */
  lemma KnownMethod(w: World, p: Parts, card: nat, signal: nat, word: nat, scan: Option<nat>, pact: bool, id: nat)
    requires word >= 2 && OffsetOk(p, word) && Method(w.ios, p.acc).Some?
    ensures var o, d := Outcome(w, p, card, signal, word, scan, pact), Device(w, p, word);
      && Some(o.acc) == Method(w.ios, p.acc)
      && (o.scan == Some(id) <==> p.scan.Some? && p.scan.value in w.scans && w.scans[p.scan.value] == id)
      && (o.pact <==> pact || o.error)
      && (!o.error <==> d.Some? && (d.value.base + card * Pow(2, signal)) % word != 0
                        && (d.value.base + card * Pow(2, signal) + Offset(p, word)) % word != 0)
      && o.addr == if o.error then 0 else (d.value.base + card * Pow(2, signal) + Offset(p, word)) % word
  {
    ResolvesExactly(w, p, card, signal, word);
  }

  /** After an offset which is no number nothing else is looked at: the record keeps its scan list and is disabled. */
  lemma BadOffset(w: World, p: Parts, card: nat, signal: nat, word: nat, scan: Option<nat>, pact: bool)
    requires word >= 2 && p.offset.Some? && !IsNumber(p.offset.value, word)
    ensures Outcome(w, p, card, signal, word, scan, pact) == Result(true, 0, Predefined(Be32), scan, true)
  {
    ResolvesExactly(w, p, card, signal, word);
  }

  /** A constant link is the address it spells, modulo the word size, whatever comes behind the number. */
  lemma ConstantAddress(t: string, rest: string, n: nat, word: nat)
    requires word >= 1 && IsSpelling(t, n) && n < LONG_LONG
    requires rest == "" || (DigitOf(rest[0]) >= Base(t) && (HexPrefix(t + rest) <==> HexPrefix(t)))
    ensures ConstantValue(Some(t + rest), word) == n % word
  {
    SpellingFirst(t, rest, n, LONG_LONG);
  }

  /** One which does not begin with a number, behind blanks and a sign, stands for the address 0, which is refused. */
  lemma NoConstant(text: string, word: nat)
    requires word >= 1
    requires var t := LinkNumbers.Unsigned(Trimmed(text)); t == "" || !('0' <= t[0] <= '9')
    ensures ConstantValue(Some(text), word) == 0 == ConstantValue(None, word)
  {
    var t := LinkNumbers.Unsigned(Trimmed(text));
    if Span(Body(t), LinkNumbers.Base(t)) > 0 {
      BeginsWithDigit(t);
    }
  }

  // ---------------------------------------------------------------- a method nobody knows

  /** A method name is rejected exactly if it is not registered and begins with no predefined name. */
  lemma UnknownExactly(ios: map<string, nat>, name: string)
    ensures Method(ios, Some(name)).None? <==> name !in ios && forall a: Access :: !(Name(a) <= name)
  {
    if NamedAccess(name).Some? {
      NamesExactly(name, NamedAccess(name).value);
    } else {
      forall a: Access ensures !(Name(a) <= name) {
        NamesExactly(name, a);
        if a.M16? {
          NamesExactly(name, M16s);
        } else if a.Be16? {
          NamesExactly(name, Be16s);
        } else if a.Le16? {
          NamesExactly(name, Le16s);
        } else if a.M8? {
          NamesExactly(name, M8s);
        } else if a.Io8? {
          NamesExactly(name, Io8s);
        }
      }
    }
  }

  /**
    A link with such a name is accepted all the same. It fails exactly if it would fail without the
    name, resolves to the same address, is accessed as `be32`, and its scan list, if it names one, is
    never looked up: the record keeps whatever was in the field.
  */
  lemma UnknownMethodIsAccepted(w: World, p: Parts, card: nat, signal: nat, word: nat, scan: Option<nat>, pact: bool)
    requires word >= 2 && p.acc.Some? && Method(w.ios, p.acc).None?
    ensures var o, d := Outcome(w, p, card, signal, word, scan, pact), Device(w, p, word);
      && !o.error == (OffsetOk(p, word) && d.Some?
                      && (d.value.base + card * Pow(2, signal)) % word != 0
                      && (d.value.base + card * Pow(2, signal) + Offset(p, word)) % word != 0)
      && (o.error || o.addr == (d.value.base + card * Pow(2, signal) + Offset(p, word)) % word)
      && o.acc == Predefined(Be32) && o.scan == scan
    ensures var o := Outcome(w, p, card, signal, word, scan, pact);
      var plain := Outcome(w, p.(acc := Some("be32")), card, signal, word, scan, pact);
      Method(w.ios, Some("be32")) == Some(Predefined(Be32)) && !plain.error ==>
        !o.error && o.addr == plain.addr && o.acc == plain.acc && (o == plain <==> scan == ScanList(w.scans, p.scan))
  {
    ResolvesExactly(w, p, card, signal, word);
    SameDevice(w, p, p.(acc := Some("be32")), card, signal, word);
  }

  lemma SameDevice(w: World, p: Parts, q: Parts, card: nat, signal: nat, word: nat)
    requires word >= 2 && q.base == p.base && q.offset == p.offset
    ensures Device(w, p, word) == Device(w, q, word)
    ensures Address(w, p, card, signal, word) == Address(w, q, card, signal, word)
  {
  }

  /** Names of this kind exist. */
  lemma SomeUnknownMethod(ios: map<string, nat>)
    requires "be99" !in ios
    ensures Method(ios, Some("be99")).None?
  {
    Words("be99");
  }

  // ---------------------------------------------------------------- instances

  lemma Next(c: nat, k: nat, signal: nat)
    requires c < k
    ensures Shifted(c, signal) + Pow(2, signal) <= Shifted(k, signal)
  {
    ShiftMultiplies(c, signal);
    ShiftMultiplies(k, signal);
    assert (k - c - 1) * Pow(2, signal) >= 0;
    assert k * Pow(2, signal) == c * Pow(2, signal) + Pow(2, signal) + (k - c - 1) * Pow(2, signal);
  }

  /** A link to a register in the block of its instance, at addresses which do not wrap around. */
  predicate InBlock(w: World, p: Parts, card: nat, signal: nat, width: nat, word: nat)
    requires word >= 1
  {
    var d := Device(w, p, word);
    && Address(w, p, card, signal, word) != 0
    && d.Some?
    && Offset(p, word) + width <= Pow(2, signal)
    && d.value.base + Shifted(card, signal) + Offset(p, word) + width <= word
  }

  lemma BlockAddress(w: World, p: Parts, card: nat, signal: nat, width: nat, word: nat)
    requires word >= 2 && width >= 1 && InBlock(w, p, card, signal, width, word)
    ensures Address(w, p, card, signal, word) == Device(w, p, word).value.base + Shifted(card, signal) + Offset(p, word)
  {
    ShiftMultiplies(card, signal);
    ResolvesExactly(w, p, card, signal, word);
    SmallSum(Device(w, p, word).value.base + Shifted(card, signal) + Offset(p, word), word);
  }

  lemma SmallSum(x: nat, word: nat)
    requires x < word
    ensures x % word == x
  {
  }

  /** Registers in the blocks of two instances of one device do not overlap. */
  lemma InstancesApart(w: World, p: Parts, c: nat, a: Access, q: Parts, k: nat, b: Access, signal: nat, word: nat)
    requires word >= 2 && c != k && Device(w, p, word) == Device(w, q, word)
    requires InBlock(w, p, c, signal, Width(a), word) && InBlock(w, q, k, signal, Width(b), word)
    ensures var x, y := Address(w, p, c, signal, word), Address(w, q, k, signal, word);
      x + Width(a) <= y || y + Width(b) <= x
  {
    BlockAddress(w, p, c, signal, Width(a), word);
    BlockAddress(w, q, k, signal, Width(b), word);
    if c < k {
      Next(c, k, signal);
    } else {
      Next(k, c, signal);
    }
  }

  lemma AllBits(x: bv8)
    ensures x & 0xff == x && 0 & x == 0
  {
  }

  /** Writes through registers which do not overlap this one. */
  lemma UntouchedBytes(mem: seq<bv8>, ps: seq<Patch>, reg: Reg)
    requires Fits(mem, reg) && AllValid(ps)
    requires forall q <- ps :: q.addr + |q.mask| <= reg.addr || reg.addr + Width(reg.acc) <= q.addr
    ensures Bytes(Replay(mem, ps), reg) == Bytes(mem, reg)
  {
    forall i | reg.addr <= i < reg.addr + Width(reg.acc)
      ensures Replay(mem, ps)[i] == mem[i]
    {
      AllBits(0xff);
      Untouched(mem, ps, i, 0xff);
      AllBits(Replay(mem, ps)[i]);
      AllBits(mem[i]);
    }
  }

  /** A write through any register in the block of instance `c`, by any method, under any mask. */
  ghost predicate WritesBlock(h: Host, e: Patch, d: Dev, c: nat, signal: nat) {
    exists reg: Reg, mask, value ::
      && e == PatchOf(h, reg, mask, value)
      && d.base + Shifted(c, signal) <= reg.addr
      && reg.addr + Width(reg.acc) <= d.base + Shifted(c, signal) + Pow(2, signal)
  }

  /** Whatever is written to the registers of one instance, the registers of another one read the same. */
  lemma OtherInstanceUnchanged(h: Host, mem: seq<bv8>, w: World, c: nat, ps: seq<Patch>, q: Parts, k: nat, b: Access,
                               signal: nat, word: nat)
    requires word >= 2 && c != k && InBlock(w, q, k, signal, Width(b), word) && AllValid(ps)
    requires forall e <- ps :: WritesBlock(h, e, Device(w, q, word).value, c, signal)
    requires Fits(mem, Reg(Address(w, q, k, signal, word), b))
    ensures ReadReg(h, Replay(mem, ps), Reg(Address(w, q, k, signal, word), b))
         == ReadReg(h, mem, Reg(Address(w, q, k, signal, word), b))
  {
    var d, x := Device(w, q, word).value, Address(w, q, k, signal, word);
    BlockAddress(w, q, k, signal, Width(b), word);
    BlocksApart(c, k, signal);
    forall e | e in ps ensures e.addr + |e.mask| <= x || x + Width(b) <= e.addr {
      assert WritesBlock(h, e, d, c, signal);
      var reg: Reg, mask, value :|
        && e == PatchOf(h, reg, mask, value)
        && d.base + Shifted(c, signal) <= reg.addr
        && reg.addr + Width(reg.acc) <= d.base + Shifted(c, signal) + Pow(2, signal);
    }
    UntouchedBytes(mem, ps, Reg(x, b));
  }

  lemma BlocksApart(c: nat, k: nat, signal: nat)
    requires c != k
    ensures || Shifted(c, signal) + Pow(2, signal) <= Shifted(k, signal)
            || Shifted(k, signal) + Pow(2, signal) <= Shifted(c, signal)
  {
    if c < k {
      Next(c, k, signal);
    } else {
      Next(k, c, signal);
    }
  }

  /** A register beyond the end of its block is one of the next instance: the bound is needed. */
  lemma BeyondTheBlock(base: nat, c: nat, signal: nat, o: nat, word: nat)
    requires word >= 2
    ensures Plus(Plus(base, Shifted(c, signal), word), Pow(2, signal) + o, word)
         == Plus(Plus(base, Shifted(c + 1, signal), word), o, word)
  {
    PlusTwice(base, Shifted(c, signal), Pow(2, signal) + o, word);
    PlusTwice(base, Shifted(c + 1, signal), o, word);
    ShiftMultiplies(c, signal);
    ShiftMultiplies(c + 1, signal);
    assert (c + 1) * Pow(2, signal) == c * Pow(2, signal) + Pow(2, signal);
  }

  lemma PowPositive(k: nat)
    ensures Pow(2, k) >= 1
  {
    if k > 0 {
      PowPositive(k - 1);
    }
  }

  lemma SmallSums(x: nat, y: nat, z: nat, word: nat)
    requires word >= 2 && x + y + z < word
    ensures Plus(Plus(x, y, word), z, word) == x + y + z
  {
    PlusTwice(x, y, z, word);
    SmallSum(x + y + z, word);
  }

  /**
    The bound on offset and width is exactly what registers of different instances need: a register
    which goes beyond the block of its instance, wherever it begins, overlaps one which begins in the
    block of another instance.
  */
  lemma BoundIsNeeded(base: nat, c: nat, signal: nat, o: nat, width: nat, word: nat) returns (k: nat, p: nat)
    requires word >= 2 && width >= 1 && base + Shifted(c, signal) + o + width <= word
    requires o + width > Pow(2, signal)
    ensures k != c && p < Pow(2, signal)
    ensures var x := Plus(Plus(base, Shifted(c, signal), word), o, word);
      var y := Plus(Plus(base, Shifted(k, signal), word), p, word);
      x <= y < x + width
  {
    var block := Pow(2, signal);
    PowPositive(signal);
    if o < block {
      k, p := c + 1, 0;
      assert (c + 1) * block == c * block + block;
    } else {
      k, p := c + o / block, o % block;
      WholeBlocks(c, o, block);
    }
    ShiftMultiplies(c, signal);
    ShiftMultiplies(k, signal);
    SmallSums(base, Shifted(c, signal), o, word);
    SmallSums(base, Shifted(k, signal), p, word);
  }

  lemma WholeBlocks(c: nat, o: nat, block: nat)
    requires block >= 1 && o >= block
    ensures o / block >= 1 && (c + o / block) * block + o % block == c * block + o
  {
    assert o == (o / block) * block + o % block;
    assert (c + o / block) * block == c * block + (o / block) * block;
  }
}
