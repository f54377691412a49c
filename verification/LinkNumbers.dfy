/**
  Numbers in a link: what `strtoul` with base 0 makes of them (section 7.22.1.4 of ISO/IEC
  9899:2011), all the ways to spell a number, and the canonical name a device is registered under.
*/
module LinkNumbers {

  // ---------------------------------------------------------------- numbers and their digits

  function Value(ds: seq<nat>, b: nat): nat {
    if ds == [] then 0 else Value(ds[..|ds| - 1], b) * b + ds[|ds| - 1]
  }

  /** The digits of `n`, most significant first, without superfluous zeros. */
  function Digits(n: nat, b: nat): (ds: seq<nat>)
    requires b >= 2
    ensures ds != [] && forall d <- ds :: d < b
    decreases n
  {
    if n < b then [n] else (Divide(n, b); Digits(n / b, b) + [n % b])
  }

  function Zeros(k: nat): (ds: seq<nat>)
    ensures |ds| == k
  {
    seq(k, _ => 0)
  }

  function Pow(b: nat, k: nat): nat {
    if k == 0 then 1 else Pow(b, k - 1) * b
  }

  lemma ValueAppend(ds: seq<nat>, d: nat, b: nat)
    ensures Value(ds + [d], b) == Value(ds, b) * b + d
  {
    assert (ds + [d])[..|ds|] == ds;
  }

  lemma Divide(n: nat, b: nat)
    requires b >= 2
    ensures n == (n / b) * b + n % b && (n >= 1 ==> n / b < n)
  {
  }

  lemma DigitsStep(n: nat, b: nat)
    requires n >= b >= 2
    ensures Digits(n, b) == Digits(n / b, b) + [n % b]
  {
  }

  lemma ValueStep(n: nat, q: nat, r: nat, ds: seq<nat>, b: nat)
    requires Value(ds, b) == q && n == q * b + r
    ensures Value(ds + [r], b) == n
  {
    ValueAppend(ds, r, b);
  }

  lemma {:induction false} ValueOfDigits(n: nat, b: nat)
    requires b >= 2
    ensures Value(Digits(n, b), b) == n
    decreases n
  {
    if n >= b {
      Divide(n, b);
      var q := n / b;
      ValueOfDigits(q, b);
      ValueStep(n, q, n % b, Digits(q, b), b);
      DigitsStep(n, b);
    } else {
      assert Digits(n, b) == [] + [n];
      ValueStep(n, 0, n, [], b);
    }
  }

  lemma {:induction false} LeadingZeros(k: nat, ds: seq<nat>, b: nat)
    ensures Value(Zeros(k) + ds, b) == Value(ds, b)
  {
    if ds == [] {
      assert Zeros(k) + ds == Zeros(k);
      if k > 0 {
        assert Zeros(k)[..k - 1] == Zeros(k - 1) + [];
        LeadingZeros(k - 1, [], b);
        assert Value(Zeros(k - 1) + [], b) == 0;
      }
    } else {
      var s := Zeros(k) + ds;
      assert s[..|s| - 1] == Zeros(k) + ds[..|ds| - 1];
      LeadingZeros(k, ds[..|ds| - 1], b);
    }
  }

  lemma AwayFromZero(k: int, b: int)
    requires k != 0 && b > 0
    ensures k * b >= b || k * b <= -b
  {
    assert k > 0 ==> (k - 1) * b >= 0;
    assert k < 0 ==> (-k - 1) * b >= 0;
  }

  lemma Quotient(q: nat, r: nat, b: nat)
    requires r < b && b >= 2
    ensures (q * b + r) / b == q && (q * b + r) % b == r
  {
    var n := q * b + r;
    Divide(n, b);
    assert (q - n / b) * b == q * b - (n / b) * b;
    if q != n / b {
      AwayFromZero(q - n / b, b);
    }
  }

  /** `ds` consists of the digits of `n` and leading zeros. */
  predicate Writes(ds: seq<nat>, n: nat, b: nat)
    requires b >= 2
  {
    |ds| >= |Digits(n, b)| && ds == Zeros(|ds| - |Digits(n, b)|) + Digits(n, b)
  }

  lemma WritesMore(ds: seq<nat>, n: nat, q: nat, r: nat, b: nat)
    requires b >= 2 && Writes(ds, q, b) && q == n / b && r == n % b
    ensures Writes(ds + [r], n, b)
  {
    if n >= b {
      DigitsStep(n, b);
      assert ds + [r] == Zeros(|ds| - |Digits(q, b)|) + (Digits(q, b) + [r]);
    } else {
      assert q == 0 && r == n;
      assert Digits(0, b) == [0] && Digits(n, b) == [r];
      assert ds == Zeros(|ds| - 1) + [0] == Zeros(|ds|);
    }
  }

  /** A value has one sequence of digits, apart from leading zeros. */
  lemma {:induction false} ValueDetermines(ds: seq<nat>, b: nat)
    requires b >= 2 && ds != [] && forall d <- ds :: d < b
    ensures Writes(ds, Value(ds, b), b)
  {
    var front, last := ds[..|ds| - 1], ds[|ds| - 1];
    assert last in ds && forall d <- front :: d in ds;
    if front == [] {
      assert ds == [last];
      OneDigit(last, b);
    } else {
      ValueDetermines(front, b);
      assert front + [last] == ds;
      ValueAppend(front, last, b);
      Quotient(Value(front, b), last, b);
      WritesMore(front, Value(ds, b), Value(front, b), last, b);
    }
  }

  lemma OneDigit(d: nat, b: nat)
    requires b >= 2 && d < b
    ensures Writes([d], Value([d], b), b)
  {
    assert [d] == [] + [d];
    ValueAppend([], d, b);
    assert Digits(d, b) == [d] == Zeros(0) + [d];
  }

  /** And those digits have that value. */
  lemma WrittenValue(ds: seq<nat>, n: nat, b: nat)
    requires b >= 2 && Writes(ds, n, b)
    ensures Value(ds, b) == n
  {
    LeadingZeros(|ds| - |Digits(n, b)|, Digits(n, b), b);
    ValueOfDigits(n, b);
  }

  lemma {:induction false} DigitCount(n: nat, b: nat, k: nat)
    requires b >= 2 && k >= 1
    ensures |Digits(n, b)| <= k <==> n < Pow(b, k)
    decreases k
  {
    if k == 1 {
      assert Pow(b, 1) == Pow(b, 0) * b == b;
    } else {
      PowAtLeast(b, k);
      if n >= b {
        DigitCount(n / b, b, k - 1);
        DivideBelow(n, b, Pow(b, k - 1));
      }
    }
  }

  lemma {:induction false} PowAtLeast(b: nat, k: nat)
    requires b >= 2 && k >= 1
    ensures Pow(b, k) >= b
  {
    if k > 1 {
      PowAtLeast(b, k - 1);
    }
  }

  lemma DivideBelow(n: nat, b: nat, p: nat)
    requires b >= 1
    ensures n / b < p <==> n < p * b
  {
    assert n == (n / b) * b + n % b;
    if n / b < p {
      assert (n / b + 1) * b <= p * b;
    } else {
      assert (n / b) * b >= p * b;
    }
  }

  // ---------------------------------------------------------------- strtoul

  predicate IsSpace(c: char) {
    c == ' ' || '\t' <= c <= '\r'
  }

  /** The white-space characters of the C locale. */
  predicate Blank(c: char) {
    c in " \t\n\U{0B}\U{0C}\r"
  }

  lemma BlankIsSpace(c: char)
    ensures Blank(c) <==> IsSpace(c)
  {
    assert " \t\n\U{0B}\U{0C}\r"[1..] == "\t\n\U{0B}\U{0C}\r";
  }

  lemma AllBlank(ws: string)
    ensures (forall c <- ws :: Blank(c)) <==> forall c <- ws :: IsSpace(c)
  {
    forall c ensures Blank(c) <==> IsSpace(c) {
      BlankIsSpace(c);
    }
  }

  /** What a digit or letter counts; 36 for any other character. */
  function DigitOf(c: char): (d: nat) {
    if '0' <= c <= '9' then c as int - '0' as int
    else if 'a' <= c <= 'z' then c as int - 'a' as int + 10
    else if 'A' <= c <= 'Z' then c as int - 'A' as int + 10
    else 36
  }

  function DigitsOf(s: string): (ds: seq<nat>)
    ensures |ds| == |s|
  {
    seq(|s|, k requires 0 <= k < |s| => DigitOf(s[k]))
  }

  predicate AllDigits(s: string, b: nat) {
    forall c <- s :: DigitOf(c) < b
  }

  /** `s` without the blanks it begins with. */
  function Trimmed(s: string): (r: string)
    ensures |r| <= |s|
  {
    if s != [] && IsSpace(s[0]) then Trimmed(s[1..]) else s
  }

  /** The length of the longest beginning of `s` which consists of digits. */
  function Span(s: string, b: nat): (k: nat)
    ensures k <= |s|
  {
    if s != [] && DigitOf(s[0]) < b then 1 + Span(s[1..], b) else 0
  }

  predicate HexPrefix(s: string) {
    |s| >= 3 && s[0] == '0' && (s[1] == 'x' || s[1] == 'X') && DigitOf(s[2]) < 16
  }

  function Base(s: string): (b: nat)
    ensures b == 16 || b == 8 || b == 10
  {
    if HexPrefix(s) then 16 else if s != [] && s[0] == '0' then 8 else 10
  }

  /** The digits of a number, behind the prefix of a hexadecimal one. */
  function Body(s: string): string {
    if HexPrefix(s) then s[2..] else s
  }

  function Unsigned(s: string): (t: string)
    ensures |t| <= |s|
  {
    if s != [] && (s[0] == '+' || s[0] == '-') then s[1..] else s
  }

  function Saturated(v: nat, negative: bool, word: nat): nat
    requires word >= 1
  {
    if v >= word then word - 1 else if negative && v > 0 then word - v else v
  }

  /** The number an unsigned string begins with and how many characters it takes, 0 if there is none. */
  function Number(t: string, negative: bool, word: nat): (nat, nat)
    requires word >= 1
  {
    var k := Span(Body(t), Base(t));
    if k == 0 then (0, 0)
    else (Saturated(Value(DigitsOf(Body(t)[..k]), Base(t)), negative, word), |t| - |Body(t)| + k)
  }

  /**
    `strtoul(s, &endp, 0)` for words of `word` values: the number and the index `endp` is left at,
    0 when `s` does not begin with a number.
  */
  function StrToUl(s: string, word: nat): (nat, nat)
    requires word >= 1
  {
    var r := Trimmed(s);
    var t := Unsigned(r);
    var (v, used) := Number(t, r != [] && r[0] == '-', word);
    if used == 0 then (0, 0) else (v, |s| - |t| + used)
  }

  /** The whole of `s` is a number. */
  predicate IsNumber(s: string, word: nat)
    requires word >= 1
  {
    s != [] && StrToUl(s, word).1 == |s|
  }

  // ---------------------------------------------------------------- spellings

  /** `s` is a decimal, octal or hexadecimal numeral for `n`, in either case of letters. */
  predicate IsSpelling(s: string, n: nat) {
    AllDigits(Body(s), Base(s)) && Writes(DigitsOf(Body(s)), n, Base(s))
  }

  lemma {:induction false} SpanAll(s: string, b: nat)
    ensures Span(s, b) == |s| <==> AllDigits(s, b)
  {
    if s != [] {
      SpanAll(s[1..], b);
      assert s == [s[0]] + s[1..];
    }
  }

  lemma {:induction false} SkipSpaces(ws: string, t: string)
    requires forall c <- ws :: IsSpace(c)
    requires t != [] && !IsSpace(t[0])
    ensures Trimmed(ws + t) == t
  {
    if ws == [] {
      assert ws + t == t;
    } else {
      assert (ws + t)[1..] == ws[1..] + t;
      SkipSpaces(ws[1..], t);
    }
  }

  lemma DigitsBelow(s: string, b: nat)
    requires AllDigits(s, b)
    ensures forall d <- DigitsOf(s) :: d < b
  {
  }

  lemma Behind(ws: string, sign: string, t: string)
    requires forall c <- ws :: IsSpace(c)
    requires (sign == "" || sign == "+" || sign == "-") && t != [] && '0' <= t[0] <= '9'
    ensures var s := ws + sign + t;
      Trimmed(s) == sign + t && Unsigned(sign + t) == t && ((sign + t)[0] == '-' <==> sign == "-")
  {
    var r := sign + t;
    assert ws + sign + t == ws + r;
    assert r[0] == if sign == "" then t[0] else sign[0];
    SkipSpaces(ws, r);
    assert sign != "" ==> r[1..] == t;
    assert sign == "" ==> r == t;
  }

  lemma SpanOfNumber(t: string)
    requires t != [] && '0' <= t[0] <= '9'
    ensures 1 <= Span(Body(t), Base(t)) <= |Body(t)|
  {
    if HexPrefix(t) {
      assert Body(t)[0] == t[2];
    } else {
      assert Body(t) == t && DigitOf(t[0]) < Base(t) by {
        assert DigitOf('0') == 0;
      }
    }
  }

  lemma SomeUsed(t: string, negative: bool, word: nat)
    requires word >= 1 && t != [] && '0' <= t[0] <= '9'
    ensures Number(t, negative, word).1 > 0
  {
    SpanOfNumber(t);
  }

  /** What `strtoul` sees of blanks, a sign and the rest. */
  lemma Pieces(ws: string, sign: string, t: string, word: nat)
    requires forall c <- ws :: IsSpace(c)
    requires (sign == "" || sign == "+" || sign == "-") && t != [] && '0' <= t[0] <= '9' && word >= 1
    ensures var (v, used) := Number(t, sign == "-", word);
      && used > 0
      && StrToUl(ws + sign + t, word) == (v, |ws + sign| + used)
  {
    Behind(ws, sign, t);
    SomeUsed(t, sign == "-", word);
    assert |ws + sign + t| == |ws + sign| + |t|;
  }

  /** An unsigned string is taken as a whole if it has nothing but digits; then its value counts. */
  lemma WholeNumber(t: string, negative: bool, word: nat)
    requires t != [] && '0' <= t[0] <= '9' && word >= 1
    ensures Number(t, negative, word).1 == |t| <==> AllDigits(Body(t), Base(t))
    ensures AllDigits(Body(t), Base(t)) ==>
      Number(t, negative, word).0 == Saturated(Value(DigitsOf(Body(t)), Base(t)), negative, word)
  {
    SpanAll(Body(t), Base(t));
    SpanOfNumber(t);
    assert Body(t)[..|Body(t)|] == Body(t);
  }

  /** A numeral is a spelling of its value and of nothing else. */
  lemma OneValue(t: string, m: nat)
    requires AllDigits(Body(t), Base(t)) && Body(t) != []
    ensures IsSpelling(t, m) <==> m == Value(DigitsOf(Body(t)), Base(t))
  {
    var ds, b := DigitsOf(Body(t)), Base(t);
    DigitsBelow(Body(t), b);
    ValueDetermines(ds, b);
    if Writes(ds, m, b) {
      WrittenValue(ds, m, b);
    }
  }

  lemma BodyNotEmpty(t: string)
    requires t != []
    ensures Body(t) != []
  {
  }

  /** A numeral for `m` behind a sign counts `n`: too large ones saturate, a minus sign negates modulo the word size. */
  predicate Counts(m: nat, sign: string, n: nat, word: nat)
    requires word >= 1
  {
    if m >= word then n == word - 1
    else if sign == "-" then n < word && (n + m) % word == 0
    else n == m
  }

  lemma SaturatedCounts(m: nat, sign: string, word: nat)
    requires word >= 1
    ensures forall n: nat :: Counts(m, sign, n, word) <==> n == Saturated(m, sign == "-", word)
  {
    forall n: nat ensures Counts(m, sign, n, word) <==> n == Saturated(m, sign == "-", word) {
      if m < word && n < word {
        Opposite(m, n, word);
      }
    }
  }

  lemma Opposite(m: nat, n: nat, word: nat)
    requires m < word && n < word
    ensures (n + m) % word == 0 <==> n + m == 0 || n + m == word
  {
    if n + m >= word {
      assert (n + m) % word == n + m - word;
    } else {
      assert (n + m) % word == n + m;
    }
  }

  /**
    The strings taken for the number `n` as a whole are exactly the numerals which count `n`, behind blanks
    and a sign.
  */
  lemma SpellingExactly(ws: string, sign: string, t: string, n: nat, word: nat)
    requires forall c <- ws :: Blank(c)
    requires (sign == "" || sign == "+" || sign == "-") && t != [] && '0' <= t[0] <= '9' && word >= 1
    ensures var s := ws + sign + t;
      IsNumber(s, word) && StrToUl(s, word).0 == n <==> exists m :: IsSpelling(t, m) && Counts(m, sign, n, word)
  {
    AllBlank(ws);
    Pieces(ws, sign, t, word);
    WholeNumber(t, sign == "-", word);
    BodyNotEmpty(t);
    var v := Value(DigitsOf(Body(t)), Base(t));
    SaturatedCounts(v, sign, word);
    if AllDigits(Body(t), Base(t)) {
      OneValue(t, v);
      forall m | IsSpelling(t, m) ensures m == v {
        OneValue(t, m);
      }
    }
  }

  lemma {:induction false} TrimmedOff(s: string) returns (ws: string)
    ensures s == ws + Trimmed(s) && forall c <- ws :: IsSpace(c)
  {
    if s != [] && IsSpace(s[0]) {
      var rest := TrimmedOff(s[1..]);
      ws := [s[0]] + rest;
      assert forall c <- ws :: c == s[0] || c in rest;
      assert ws + Trimmed(s[1..]) == [s[0]] + (rest + Trimmed(s[1..]));
    } else {
      ws := [];
    }
  }

  lemma BeginsWithDigit(t: string)
    requires Span(Body(t), Base(t)) > 0
    ensures t != [] && '0' <= t[0] <= '9'
  {
  }

  /** Every string taken for a number consists of blanks, a sign and a numeral. */
  lemma NumberForm(s: string, word: nat) returns (ws: string, sign: string, t: string)
    requires word >= 1 && IsNumber(s, word)
    ensures s == ws + sign + t && (forall c <- ws :: Blank(c)) && (sign == "" || sign == "+" || sign == "-")
    ensures t != [] && '0' <= t[0] <= '9' && AllDigits(Body(t), Base(t))
  {
    ws := TrimmedOff(s);
    AllBlank(ws);
    var r := Trimmed(s);
    t := Unsigned(r);
    if t == r {
      sign := "";
      assert s == ws + sign + t;
    } else {
      sign := [r[0]];
      assert r == sign + t;
      assert s == ws + sign + t;
    }
    assert Number(t, r != [] && r[0] == '-', word).1 > 0;
    BeginsWithDigit(t);
    Pieces(ws, sign, t, word);
    WholeNumber(t, sign == "-", word);
  }

  /** All spellings of a number are taken for it. */
  lemma AnySpelling(t: string, n: nat, word: nat)
    requires IsSpelling(t, n) && n < word
    ensures IsNumber(t, word) && StrToUl(t, word) == (n, |t|)
  {
    var ds, b := Body(t), Base(t);
    assert ds != [];
    assert t[0] in t;
    assert '0' <= t[0] <= '9' by {
      assert !HexPrefix(t) ==> DigitOf(t[0]) < 10;
    }
    Pieces("", "", t, word);
    assert "" + "" + t == t;
    SpanAll(ds, b);
    assert ds[..|ds|] == ds;
    WrittenValue(DigitsOf(ds), n, b);
  }

  lemma {:induction false} SpanStops(s: string, rest: string, b: nat)
    requires AllDigits(s, b) && (rest == "" || DigitOf(rest[0]) >= b)
    ensures Span(s + rest, b) == |s|
  {
    if s == "" {
      assert s + rest == rest;
    } else {
      assert (s + rest)[0] == s[0] && s[0] in s;
      assert (s + rest)[1..] == s[1..] + rest;
      SpanStops(s[1..], rest, b);
    }
  }

  lemma SpellingHead(t: string, n: nat)
    requires IsSpelling(t, n)
    ensures t != "" && '0' <= t[0] <= '9' && Body(t) != ""
  {
    assert Body(t) != "" && t[0] in t;
    assert !HexPrefix(t) ==> DigitOf(t[0]) < 10;
  }

  lemma SameBase(t: string, rest: string)
    requires t != "" && (HexPrefix(t + rest) <==> HexPrefix(t))
    ensures Base(t + rest) == Base(t) && Body(t + rest) == Body(t) + rest
  {
    assert (t + rest)[0] == t[0];
  }

  /** A spelling is taken as far as it goes, whatever follows it. */
  lemma SpellingFirst(t: string, rest: string, n: nat, word: nat)
    requires IsSpelling(t, n) && n < word
    requires rest == "" || (DigitOf(rest[0]) >= Base(t) && (HexPrefix(t + rest) <==> HexPrefix(t)))
    ensures StrToUl(t + rest, word) == (n, |t|)
  {
    SpellingHead(t, n);
    if rest == "" {
      assert t + rest == t;
    }
    SameBase(t, rest);
    NumberFirst(t, rest, n, word);
    Pieces("", "", t + rest, word);
    assert "" + "" + (t + rest) == t + rest;
  }

  lemma NumberFirst(t: string, rest: string, n: nat, word: nat)
    requires IsSpelling(t, n) && n < word && Body(t) != ""
    requires Base(t + rest) == Base(t) && Body(t + rest) == Body(t) + rest
    requires rest == "" || DigitOf(rest[0]) >= Base(t)
    ensures Number(t + rest, false, word) == (n, |t|)
  {
    SpanStops(Body(t), rest, Base(t));
    assert (Body(t) + rest)[..|Body(t)|] == Body(t);
    WrittenValue(DigitsOf(Body(t)), n, Base(t));
  }

  /** Character `c` is the digit `d` in either case of letters. */
  predicate Stands(c: char, d: nat) {
    d < 16 && (c == "0123456789abcdef"[d] || c == "0123456789ABCDEF"[d])
  }

  lemma DigitStands(c: char, d: nat)
    requires Stands(c, d)
    ensures DigitOf(c) == d
  {
  }

  /** `0x` or `0X` and hexadecimal digits, `0` and octal digits, or decimal digits of which the first is not 0. */
  predicate Numeral(t: string, cs: string, b: nat) {
    || (b == 16 && cs != "" && (t == "0x" + cs || t == "0X" + cs))
    || (b == 8 && t == "0" + cs)
    || (b == 10 && cs != "" && t == cs && cs[0] != '0')
  }

  lemma NumeralBase(t: string, cs: string, ds: seq<nat>, b: nat)
    requires Numeral(t, cs, b) && |cs| == |ds|
    requires forall k | 0 <= k < |cs| :: Stands(cs[k], ds[k]) && ds[k] < b
    ensures t != "" && Base(t) == b && Body(t) == (if b == 8 then "0" + cs else cs)
    ensures DigitsOf(cs) == ds && AllDigits(cs, b)
  {
    forall k | 0 <= k < |cs| ensures DigitOf(cs[k]) == ds[k] {
      DigitStands(cs[k], ds[k]);
    }
    assert b == 8 ==> !HexPrefix(t);
    assert b == 16 ==> t[2..] == cs && t[2] == cs[0];
  }

  /** The numerals of C: the prefix says which base, and the digits count what they stand for there. */
  lemma Numerals(t: string, cs: string, ds: seq<nat>, b: nat, word: nat)
    requires Numeral(t, cs, b) && |cs| == |ds| && Value(ds, b) < word
    requires forall k | 0 <= k < |cs| :: Stands(cs[k], ds[k]) && ds[k] < b
    ensures IsNumber(t, word) && StrToUl(t, word) == (Value(ds, b), |t|)
    ensures IsSpelling(t, Value(ds, b))
  {
    NumeralBase(t, cs, ds, b);
    if b == 8 {
      assert DigitsOf("0" + cs) == Zeros(1) + ds;
      LeadingZeros(1, ds, 8);
    }
    OneValue(t, Value(ds, b));
    AnySpelling(t, Value(ds, b), word);
  }

  // ---------------------------------------------------------------- canonical names

  function HexChar(d: nat): (c: char)
    requires d < 16
    ensures DigitOf(c) == d && !('a' <= c <= 'z')
  {
    if d < 10 then '0' + d as char else 'A' + (d - 10) as char
  }

  function HexString(ds: seq<nat>): (s: string)
    requires forall d <- ds :: d < 16
    ensures DigitsOf(s) == ds && AllDigits(s, 16)
  {
    var s := seq(|ds|, k requires 0 <= k < |ds| => assert ds[k] in ds; HexChar(ds[k]));
    assert forall k | 0 <= k < |ds| :: ds[k] in ds && DigitOf(s[k]) == ds[k];
    s
  }

  /** `sprintf(buf, "0x%"PRIXPTR, n)` */
  function HexName(n: nat): (s: string)
    ensures |s| == 2 + |Digits(n, 16)|
  {
    "0x" + HexString(Digits(n, 16))
  }

  lemma NameBody(n: nat)
    ensures HexPrefix(HexName(n)) && Body(HexName(n)) == HexString(Digits(n, 16))
  {
    var s, hex := HexName(n), HexString(Digits(n, 16));
    assert s[2..] == hex && s[2] == hex[0] && hex[0] in hex;
  }

  lemma DigitsWrite(n: nat, b: nat)
    requires b >= 2
    ensures Writes(Digits(n, b), n, b)
  {
    assert Zeros(0) + Digits(n, b) == Digits(n, b);
  }

  /** The name of a number is a spelling of it. */
  lemma NameIsSpelling(n: nat)
    ensures IsSpelling(HexName(n), n)
  {
    NameBody(n);
    DigitsWrite(n, 16);
  }

  /** Different numbers have different names. */
  lemma NamesDiffer(m: nat, n: nat)
    requires HexName(m) == HexName(n)
    ensures m == n
  {
    NameIsSpelling(m);
    NameIsSpelling(n);
    WrittenValue(DigitsOf(Body(HexName(m))), m, 16);
    WrittenValue(DigitsOf(Body(HexName(m))), n, 16);
  }

  /** The name and its terminator fit the buffer of 15 characters exactly for numbers below 2^48. */
  lemma NameFits(n: nat)
    ensures |HexName(n)| + 1 <= 15 <==> n < 0x1_0000_0000_0000
  {
    DigitCount(n, 16, 12);
    assert Pow(16, 12) == 0x1_0000_0000_0000 by {
      assert Pow(16, 4) == 0x1_0000;
      assert Pow(16, 8) == Pow(16, 7) * 16 == Pow(16, 6) * 256 == Pow(16, 5) * 4096;
      assert Pow(16, 12) == Pow(16, 11) * 16 == Pow(16, 10) * 256 == Pow(16, 9) * 4096;
    }
  }
}
