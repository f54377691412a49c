/**
  The syntax of a link, `base+offset,method,scan`: what splitting it in place yields, and that
  splitting and printing are inverse to each other.
*/
module LinkSyntax {
  import opened Wrappers

  datatype Parts = Parts(base: string, offset: Option<string>, acc: Option<string>, scan: Option<string>)

  /** The text before and after the first `c`. */
  function CutAt(s: string, c: char): (string, Option<string>) {
    if s == [] then ([], None)
    else if s[0] == c then ([], Some(s[1..]))
    else
      var (before, after) := CutAt(s[1..], c);
      ([s[0]] + before, after)
  }

  function Suffix(c: char, s: Option<string>): string {
    if s.Some? then [c] + s.value else []
  }

  /** `first,method,scan`: the part of a link behind the `+`, or all of it when there is none. */
  datatype Fields = Fields(first: string, acc: Option<string>, scan: Option<string>)

  function SplitFields(s: string): Fields {
    var (first, comma) := CutAt(s, ',');
    if comma.None? then Fields(first, None, None)
    else
      var (acc, comma1) := CutAt(comma.value, ',');
      Fields(first, Some(acc), comma1)
  }

  function PrintFields(f: Fields): string {
    f.first + (Suffix(',', f.acc) + Suffix(',', f.scan))
  }

  function Split(s: string): Parts {
    var (base, plus) := CutAt(s, '+');
    var f := SplitFields(if plus.Some? then plus.value else s);
    if plus.Some? then Parts(base, Some(f.first), f.acc, f.scan) else Parts(f.first, None, f.acc, f.scan)
  }

  function Print(p: Parts): string {
    if p.offset.Some? then p.base + Suffix('+', Some(PrintFields(Fields(p.offset.value, p.acc, p.scan))))
    else PrintFields(Fields(p.base, p.acc, p.scan))
  }

  predicate ProperFields(f: Fields) {
    && ',' !in f.first
    && (f.acc.Some? ==> ',' !in f.acc.value)
    && (f.scan.Some? ==> f.acc.Some?)
  }

  /** Which parts can be told apart in a link: separators only where they are not taken for one. */
  predicate Proper(p: Parts) {
    if p.offset.Some? then '+' !in p.base && ProperFields(Fields(p.offset.value, p.acc, p.scan))
    else ProperFields(Fields(p.base, p.acc, p.scan)) && '+' !in PrintFields(Fields(p.base, p.acc, p.scan))
  }

  lemma {:induction false} CutAtParts(s: string, c: char)
    ensures var (before, after) := CutAt(s, c); s == before + Suffix(c, after) && c !in before
  {
    if s != [] && s[0] != c {
      CutAtParts(s[1..], c);
      var (before, after) := CutAt(s[1..], c);
      assert s == [s[0]] + s[1..] == ([s[0]] + before) + Suffix(c, after);
    }
  }

  lemma {:induction false} CutAtFirst(before: string, after: Option<string>, c: char)
    requires c !in before
    ensures CutAt(before + Suffix(c, after), c) == (before, after)
  {
    var s := before + Suffix(c, after);
    if before == [] {
      if after.Some? {
        assert s == [c] + after.value;
      }
    } else {
      assert s[0] == before[0] && s[0] in before;
      assert s[1..] == before[1..] + Suffix(c, after);
      assert c !in before[1..];
      CutAtFirst(before[1..], after, c);
      assert [before[0]] + before[1..] == before;
    }
  }

  lemma FieldsPrinted(s: string)
    ensures PrintFields(SplitFields(s)) == s && ProperFields(SplitFields(s))
  {
    var (first, comma) := CutAt(s, ',');
    CutAtParts(s, ',');
    if comma.Some? {
      var (acc, comma1) := CutAt(comma.value, ',');
      CutAtParts(comma.value, ',');
      assert Suffix(',', comma) == Suffix(',', Some(acc)) + Suffix(',', comma1);
    }
  }

  lemma FieldsSplit(f: Fields)
    requires ProperFields(f)
    ensures SplitFields(PrintFields(f)) == f
  {
    if f.acc.Some? {
      var last := f.acc.value + Suffix(',', f.scan);
      assert Suffix(',', Some(last)) == Suffix(',', f.acc) + Suffix(',', f.scan);
      CutAtFirst(f.first, Some(last), ',');
      CutAtFirst(f.acc.value, f.scan, ',');
    } else {
      assert Suffix(',', f.acc) + Suffix(',', f.scan) == Suffix(',', None);
      CutAtFirst(f.first, None, ',');
    }
  }

  /** Every link is the print of its parts. */
  lemma PrintSplit(s: string)
    ensures Proper(Split(s)) && Print(Split(s)) == s
  {
    var (base, plus) := CutAt(s, '+');
    CutAtParts(s, '+');
    FieldsPrinted(if plus.Some? then plus.value else s);
  }

  /** Parts come back from the link they were printed to, whichever suffixes are left out. */
  lemma SplitPrint(p: Parts)
    requires Proper(p)
    ensures Split(Print(p)) == p
  {
    if p.offset.Some? {
      var f := Fields(p.offset.value, p.acc, p.scan);
      CutAtFirst(p.base, Some(PrintFields(f)), '+');
      FieldsSplit(f);
    } else {
      var f := Fields(p.base, p.acc, p.scan);
      assert PrintFields(f) + Suffix('+', None) == PrintFields(f);
      CutAtFirst(PrintFields(f), None, '+');
      FieldsSplit(f);
    }
  }

  /** Parts survive printing and splitting exactly when they are proper. */
  lemma RoundTripExactly(p: Parts)
    ensures Split(Print(p)) == p <==> Proper(p)
  {
    PrintSplit(Print(p));
    if Proper(p) {
      SplitPrint(p);
    }
  }

  /** In particular: any parts free of separators, a scan name only behind an access method. */
  lemma PlainParts(p: Parts)
    requires '+' !in p.base && ',' !in p.base
    requires p.offset.Some? ==> '+' !in p.offset.value && ',' !in p.offset.value
    requires p.acc.Some? ==> '+' !in p.acc.value && ',' !in p.acc.value
    requires p.scan.Some? ==> p.acc.Some? && '+' !in p.scan.value && ',' !in p.scan.value
    ensures Split(Print(p)) == p
  {
    SplitPrint(p);
  }

  // ---------------------------------------------------------------- splitting in place

  const NUL: char := '\0'

  /** A C string. */
  predicate IsStr(buf: seq<char>, at: int, s: string) {
    && 0 <= at && at + |s| < |buf|
    && NUL !in s && buf[at..at + |s|] == s && buf[at + |s|] == NUL
  }

  /** `strchr`; -1 stands for a null pointer. */
  method StrChr(buf: array<char>, at: nat, ghost s: string, c: char) returns (i: int)
    requires IsStr(buf[..], at, s) && c != NUL
    ensures var (before, after) := CutAt(s, c); i == if after.Some? then at + |before| else -1
  {
    i := at;
    ghost var rest := s;
    while buf[i] != NUL && buf[i] != c
      invariant at <= i && IsStr(buf[..], i, rest) && i - at + |rest| == |s|
      invariant CutAt(s, c).1 == CutAt(rest, c).1 && |CutAt(s, c).0| == i - at + |CutAt(rest, c).0|
      decreases |rest|
    {
      assert buf[..][i..i + |rest|] == rest;
      rest := rest[1..];
      i := i + 1;
    }
    assert buf[..][i..i + |rest|] == rest;
    if buf[i] == NUL {
      i := -1;
    }
  }

  /** A part of the link where the pointer to it says, -1 standing for a null pointer. */
  predicate PartAt(buf: seq<char>, at: int, part: Option<string>) {
    if part.Some? then IsStr(buf, at, part.value) else at == -1
  }

  lemma PartStays(before: seq<char>, after: seq<char>, at: int, part: Option<string>, from: nat)
    requires PartAt(before, at, part) && |before| == |after|
    requires part.Some? ==> at + |part.value| < from
    requires forall k :: 0 <= k < from && k < |before| ==> before[k] == after[k]
    ensures PartAt(after, at, part)
  {
    if part.Some? {
      assert before[at..at + |part.value|] == after[at..at + |part.value|];
    }
  }

  /** A string cut in two by a NUL at its `n`-th character. */
  lemma CutString(was: seq<char>, at: nat, s: string, n: nat)
    requires IsStr(was, at, s) && n < |s|
    ensures IsStr(was[at + n := NUL], at, s[..n])
    ensures IsStr(was[at + n := NUL], at + n + 1, s[n + 1..])
  {
    var now := was[at + n := NUL];
    forall k | 0 <= k < |s| ensures s[k] == was[at + k] {
      assert was[at..at + |s|][k] == was[at + k];
    }
    assert now[at..at + n] == s[..n];
    assert now[at + n + 1..at + |s|] == s[n + 1..];
  }

  lemma {:induction false} CutAtSlices(s: string, c: char)
    ensures var (before, after) := CutAt(s, c);
      if after.None? then before == s
      else |before| < |s| && before == s[..|before|] && after.value == s[|before| + 1..]
  {
    if s != [] && s[0] != c {
      CutAtSlices(s[1..], c);
    }
  }

  lemma CutHere(was: seq<char>, at: nat, s: string, c: char)
    requires IsStr(was, at, s)
    ensures var (before, after) := CutAt(s, c);
      if after.None? then before == s
      else
        && |before| < |s|
        && IsStr(was[at + |before| := NUL], at, before)
        && IsStr(was[at + |before| := NUL], at + |before| + 1, after.value)
  {
    var (before, after) := CutAt(s, c);
    CutAtSlices(s, c);
    if after.Some? {
      CutString(was, at, s, |before|);
    }
  }

  /** Ends the string at `at` at the first `c` in it; what follows starts at the result. */
  method CutInPlace(buf: array<char>, at: nat, ghost s: string, c: char) returns (rest: int)
    requires IsStr(buf[..], at, s) && c != NUL
    modifies buf
    ensures PartAt(buf[..], at, Some(CutAt(s, c).0)) && PartAt(buf[..], rest, CutAt(s, c).1)
    ensures rest == if CutAt(s, c).1.Some? then at + |CutAt(s, c).0| + 1 else -1
    ensures forall k :: 0 <= k < at ==> buf[k] == old(buf[k])
  {
    rest := StrChr(buf, at, s, c);
    CutHere(buf[..], at, s, c);
    if rest >= 0 {
      ghost var was := buf[..];
      buf[rest] := NUL;
      assert buf[..] == was[rest := NUL];
      rest := rest + 1;
    }
  }

  /** Overwrites the separators of a link and points at its parts. */
  method SplitInPlace(buf: array<char>, ghost s: string) returns (plus: int, comma: int, comma1: int)
    requires IsStr(buf[..], 0, s)
    modifies buf
    ensures PartAt(buf[..], 0, Some(Split(s).base)) && PartAt(buf[..], plus, Split(s).offset)
    ensures PartAt(buf[..], comma, Split(s).acc) && PartAt(buf[..], comma1, Split(s).scan)
  {
    var cp := 0;
    plus := CutInPlace(buf, cp, s, '+');
    ghost var (base, offset) := CutAt(s, '+');
    ghost var rest := if offset.Some? then offset.value else s;
    if plus != -1 {
      cp := plus;
    }
    assert IsStr(buf[..], cp, rest) by { CutAtParts(s, '+'); }
    ghost var was := buf[..];
    comma := CutInPlace(buf, cp, rest, ',');
    ghost var (first, acc) := CutAt(rest, ',');
    if plus != -1 {
      PartStays(was, buf[..], 0, Some(base), cp);
    }
    was := buf[..];
    if comma == -1 {
      CutAtParts(rest, ',');
      CutAtFirst(first, None, ',');
      assert first + Suffix(',', None) == first;
      comma1 := CutInPlace(buf, cp, first, ',');
    } else {
      comma1 := CutInPlace(buf, comma, acc.value, ',');
      PartStays(was, buf[..], cp, Some(first), comma);
    }
    if plus != -1 {
      PartStays(was, buf[..], 0, Some(base), cp);
    }
  }
}
