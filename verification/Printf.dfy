/**
 Number printing and reading (os161-1.11/lib/libc/__printf.c and atoi.c).
 */
module Numerals {
  import opened Prelude

  const DIGITS := "0123456789abcdef"

  function Pow(b: nat, k: nat): (p: nat)
    ensures b > 0 ==> p > 0
  {
    if k == 0 then 1 else b * Pow(b, k - 1)
  }

  /** The digits of n, most significant first, no leading zeros. */
  function Numeral(n: nat, base: nat): (s: string)
    requires 2 <= base <= 16
    ensures s != []
  {
    if n < base then [DIGITS[n]]
    else
      Quotient(n, base);
      Numeral(n / base, base) + [DIGITS[n % base]]
  }

  lemma Quotient(n: nat, base: nat)
    requires 2 <= base <= n
    ensures 0 < n / base < n && 0 <= n % base < base
  {
    var q, r := n / base, n % base;
    assert n == q * base + r;
    if q > 0 {
      assert q * base >= 2 * q;
    }
  }

  predicate IsDigit(c: char) { '0' <= c <= '9' }

  function DigitValue(c: char): nat
    requires IsDigit(c)
  {
    c as int - '0' as int
  }

  lemma DigitAt(d: nat)
    requires d < 10
    ensures IsDigit(DIGITS[d]) && DigitValue(DIGITS[d]) == d
  {
  }

  /** The value of a string of digits in a base, most significant first, if it is one. */
  function ValueIn(s: string, base: nat): Option<nat> {
    if s == [] then Some(0)
    else
      var n := |s| - 1;
      var high, low := ValueIn(s[..n], base), DigitIn(s[n], base);
      if high.Some? && low.Some? then Some(high.value * base + low.value) else None
  }

  function DigitIn(c: char, base: nat): Option<nat> {
    var d := if '0' <= c <= '9' then c as int - '0' as int else if 'a' <= c <= 'f' then c as int - 'a' as int + 10 else 16;
    if d < base && d < 16 then Some(d) else None
  }

  /** Numeral is the string of digits that has the value in that base. */
  lemma {:induction false} NumeralValue(n: nat, base: nat)
    requires 2 <= base <= 16
    ensures ValueIn(Numeral(n, base), base) == Some(n)
    decreases n
  {
    if n < base {
      DigitInBase(n, base);
      LowDigit("", DIGITS[n], n, base);
    } else {
      var q, r := NumeralParts(n, base);
      NumeralValue(q, base);
      DigitInBase(r, base);
      LowDigit(Numeral(q, base), DIGITS[r], r, base);
    }
  }

  lemma NumeralParts(n: nat, base: nat) returns (q: nat, r: nat)
    requires 2 <= base <= 16 && base <= n
    ensures q < n && r < base && q * base + r == n && Numeral(n, base) == Numeral(q, base) + [DIGITS[r]]
  {
    Quotient(n, base);
    q, r := n / base, n % base;
  }

  lemma LowDigit(s: string, c: char, d: nat, base: nat)
    requires DigitIn(c, base) == Some(d) && ValueIn(s, base).Some?
    ensures ValueIn(s + [c], base) == Some(ValueIn(s, base).value * base + d)
  {
    var t := s + [c];
    assert t[..|t| - 1] == s && t[|t| - 1] == c;
  }

  lemma DigitInBase(d: nat, base: nat)
    requires d < base <= 16
    ensures DigitIn(DIGITS[d], base) == Some(d)
  {
  }

  /** All characters of a decimal numeral are digits. */
  lemma {:induction false} NumeralDigits(n: nat)
    ensures forall k :: 0 <= k < |Numeral(n, 10)| ==> IsDigit(Numeral(n, 10)[k])
  {
    if n < 10 {
      DigitAt(n);
    } else {
      NumeralDigits(n / 10);
      DigitAt(n % 10);
    }
  }

  /** A decimal numeral starts with zero only if it is zero. */
  lemma {:induction false} NumeralStart(n: nat)
    ensures Numeral(n, 10)[0] == '0' <==> n == 0
  {
    if n < 10 {
      DigitAt(n);
    } else {
      NumeralStart(n / 10);
    }
  }

  /** Where atoi's digit loop stops, and with what value, starting from val. */
  function Accumulate(val: nat, s: string): nat
    decreases |s|
  {
    if s == [] || !IsDigit(s[0]) then val else Accumulate((val * 10 + DigitValue(s[0])) % WORD, s[1..])
  }

  ghost predicate AllDigits(s: string) {
    forall k :: 0 <= k < |s| ==> IsDigit(s[k])
  }

  /** Reading digits and then more is reading the digits first. */
  lemma {:induction false} AccumulateSplit(val: nat, s: string, t: string)
    requires AllDigits(s)
    ensures Accumulate(val, s + t) == Accumulate(Accumulate(val, s), t)
    decreases |s|
  {
    if s == [] {
      assert s + t == t;
    } else {
      assert (s + t)[0] == s[0] && (s + t)[1..] == s[1..] + t;
      AccumulateSplit((val * 10 + DigitValue(s[0])) % WORD, s[1..], t);
    }
  }

  /** atoi's loop undoes the printing of any number that fits a word. */
  lemma {:induction false} ReadsNumeral(n: nat)
    requires n < WORD
    ensures AllDigits(Numeral(n, 10)) && Accumulate(0, Numeral(n, 10)) == n
  {
    NumeralDigits(n);
    if n < 10 {
      DigitAt(n);
      OneDigit(0, n);
    } else {
      ReadsNumeral(n / 10);
      DigitAt(n % 10);
      AccumulateSplit(0, Numeral(n / 10, 10), [DIGITS[n % 10]]);
      OneDigit(n / 10, n % 10);
    }
  }

  lemma OneDigit(val: nat, d: nat)
    requires d < 10 && val * 10 + d < WORD
    ensures Accumulate(val, [DIGITS[d]]) == val * 10 + d
  {
    DigitAt(d);
    var s := [DIGITS[d]];
    assert s[1..] == [];
  }

  /** What is not a digit ends the number. */
  lemma StopsAt(val: nat, s: string)
    requires s != [] ==> !IsDigit(s[0])
    ensures Accumulate(val, s) == val
  {
  }

  function Fill(c: char, n: nat): (s: string)
    ensures |s| == n && forall k :: 0 <= k < n ==> s[k] == c
  {
    if n == 0 then [] else [c] + Fill(c, n - 1)
  }

  /** Leading zeros do not matter. */
  lemma {:induction false} LeadingZeros(k: nat, s: string)
    ensures Accumulate(0, Fill('0', k) + s) == Accumulate(0, s)
  {
    if k == 0 {
      assert Fill('0', 0) + s == s;
    } else {
      var f := Fill('0', k) + s;
      assert f[0] == '0' && f[1..] == Fill('0', k - 1) + s;
      LeadingZeros(k - 1, s);
    }
  }

  /** Trailing zeros multiply. */
  lemma {:induction false} TrailingZeros(val: nat, k: nat)
    requires val < WORD
    ensures Accumulate(val, Fill('0', k)) == val * Pow(10, k) % WORD
    decreases k
  {
    if k > 0 {
      var s := Fill('0', k);
      assert s[0] == '0' && s[1..] == Fill('0', k - 1);
      var next := val * 10 % WORD;
      TrailingZeros(next, k - 1);
      ModTimes(val * 10, Pow(10, k - 1));
      Associate(val, 10, Pow(10, k - 1));
    } else {
      assert Fill('0', 0) == [];
    }
  }

  lemma ModTimes(a: nat, m: nat)
    ensures (a % WORD) * m % WORD == a * m % WORD
  {
    var q := a / WORD;
    assert a == q * WORD + a % WORD;
    assert a * m == (a % WORD) * m + (q * m) * WORD;
    ModShift((a % WORD) * m, q * m);
  }

  lemma ModShift(a: nat, k: nat)
    ensures (a + k * WORD) % WORD == a % WORD
  {
    var q, r := a / WORD, a % WORD;
    assert a + k * WORD == (q + k) * WORD + r;
    RemainderIs(a + k * WORD, WORD, q + k, r);
  }

  /** An odd factor cancels against a power of two. */
  lemma {:induction false} OddCancels(a: nat, m: nat, j: nat, t: nat) returns (s: nat)
    requires m % 2 == 1 && a * m == Pow(2, j) * t
    ensures a == Pow(2, j) * s
    decreases j
  {
    if j == 0 {
      s := a;
    } else {
      var p := Pow(2, j - 1);
      assert a * m == 2 * (p * t);
      var b := Half(a, m, p * t);
      assert 2 * (b * m) == 2 * (p * t);
      s := OddCancels(b, m, j - 1, t);
      assert 2 * (p * s) == Pow(2, j) * s;
    }
  }

  /** If the product with an odd number is even, so is the other factor. */
  lemma Half(a: nat, m: nat, t: nat) returns (b: nat)
    requires m % 2 == 1 && a * m == 2 * t
    ensures a == 2 * b
  {
    var k := m / 2;
    assert a * m == 2 * (a * k) + a;
    b := t - a * k;
  }

  lemma {:induction false} TenPowersEven(k: nat)
    requires k > 0
    ensures Pow(10, k) % 2 == 0
  {
    assert Pow(10, k) == 2 * (5 * Pow(10, k - 1));
  }

  lemma WordIsPower()
    ensures Pow(2, 32) == WORD && Pow(8, 11) >= WORD
  {
    PowAdd(2, 8, 8);
    PowAdd(2, 16, 16);
    assert Pow(2, 8) == 256;
    PowAdd(8, 5, 6);
    assert Pow(8, 5) == 32768 && Pow(8, 6) == 262144;
  }

  lemma {:induction false} PowAdd(b: nat, j: nat, k: nat)
    ensures Pow(b, j + k) == Pow(b, j) * Pow(b, k)
  {
    if j > 0 {
      PowAdd(b, j - 1, k);
      Associate(b, Pow(b, j - 1), Pow(b, k));
    }
  }

  lemma Associate(a: nat, b: nat, c: nat)
    ensures a * (b * c) == a * b * c
  {
  }

  /** No number but zero is fixed, modulo a word, by an even factor. */
  lemma FixedIsZero(a: nat, p: nat, t: nat)
    requires p > 0 && p % 2 == 0 && a < WORD && a * p == t * WORD + a
    ensures a == 0
  {
    var m := p - 1;
    assert a * m == a * p - a;
    WordIsPower();
    var s := OddCancels(a, m, 32, t);
  }

  /** Shifting a number left by decimal zeros changes it modulo a word, unless it is zero. */
  lemma ZerosChange(a: nat, k: nat)
    requires a < WORD && k > 0
    ensures a * Pow(10, k) % WORD == a <==> a == 0
  {
    var p := Pow(10, k);
    TenPowersEven(k);
    if a * p % WORD == a {
      FixedIsZero(a, p, a * p / WORD);
    }
  }
}

module Atoi {
  import opened Prelude
  import opened Numerals

  function Signed(w: int): int {
    if w < 0x8000_0000 then w else w - WORD
  }

  function SkipBlanks(s: string): string
    decreases |s|
  {
    if s != [] && (s[0] == ' ' || s[0] == '\t') then SkipBlanks(s[1..]) else s
  }

  /** The int that atoi reads. */
  function Value(s: string): int {
    var t := SkipBlanks(s);
    if t != [] && t[0] == '-' then Signed((WORD - Accumulate(0, t[1..])) % WORD)
    else if t != [] && t[0] == '+' then Signed(Accumulate(0, t[1..]))
    else Signed(Accumulate(0, t))
  }

  /** atoi's digit loop, from index i. */
  method ReadDigits(s: string, i: nat) returns (val: nat)
    requires i <= |s|
    ensures val < WORD && val == Accumulate(0, s[i..])
  {
    var k := i;
    val := 0;
    while k < |s| && IsDigit(s[k])
      invariant i <= k <= |s| && val < WORD
      invariant Accumulate(val, s[k..]) == Accumulate(0, s[i..])
    {
      val := (val * 10 + DigitValue(s[k])) % WORD;
      k := k + 1;
    }
  }

  /** atoi; the end of the sequence stands for the terminating NUL. */
  method Read(s: string) returns (r: int)
    ensures r == Value(s)
  {
    var i := 0;
    while i < |s| && (s[i] == ' ' || s[i] == '\t')
      invariant 0 <= i <= |s| && SkipBlanks(s[i..]) == SkipBlanks(s)
    {
      i := i + 1;
    }
    var neg := false;
    if i < |s| && s[i] == '-' {
      neg := true;
      i := i + 1;
    } else if i < |s| && s[i] == '+' {
      i := i + 1;
    }
    var val := ReadDigits(s, i);
    if neg {
      return Signed((WORD - val) % WORD);
    }
    return Signed(val);
  }

  /** Blanks before a number are skipped. */
  lemma {:induction false} BlanksSkipped(k: nat, s: string)
    requires s != [] && s[0] != ' ' && s[0] != '\t'
    ensures SkipBlanks(Fill(' ', k) + s) == s
  {
    if k == 0 {
      assert Fill(' ', 0) + s == s;
    } else {
      var f := Fill(' ', k) + s;
      assert f[0] == ' ' && f[1..] == Fill(' ', k - 1) + s;
      BlanksSkipped(k - 1, s);
    }
  }
}

module Printf {
  import opened Prelude
  import opened Numerals
  import Atoi

  /** 32 bits in octal, a NUL and one for slop. */
  const NUMBER_BUF_SIZE := 12

  /** Arguments of a printf call, in order. */
  datatype Arg = Word(w: int) | Text(s: string) | NullText

  function WordArg(args: seq<Arg>): (w: int)
    ensures 0 <= w < WORD
  {
    if args != [] && args[0].Word? then args[0].w % WORD else 0
  }

  function TextArg(args: seq<Arg>): string {
    if args != [] && args[0].Text? then args[0].s else "(null)"
  }

  function Rest(args: seq<Arg>): seq<Arg> {
    if args == [] then [] else args[1..]
  }

  /** What a field's modifiers have said so far. */
  datatype Field = Field(spacing: nat, rightspc: bool, fillchar: char, altformat: bool, long: bool)

  const PLAIN := Field(0, false, ' ', false, false)

  /** Text printed, arguments left, and the field being read, if any. */
  datatype State = State(out: string, args: seq<Arg>, inPct: bool, field: Field)

  predicate IsModifier(c: char) { c == '#' || c == '-' || c == 'q' || c == 'l' || IsDigit(c) }
  predicate IsInteger(c: char) { c == 'd' || c == 'o' || c == 'u' || c == 'p' || c == 'x' }

  /** __pf_modifier */
  function Modified(f: Field, c: char): Field
    requires IsModifier(c)
  {
    if c == '#' then f.(altformat := true)
    else if c == '-' then f.(rightspc := true)
    else if c == 'l' || c == 'q' then f.(long := true)
    else if c == '0' then (if f.spacing > 0 then f.(spacing := f.spacing * 10) else f.(fillchar := '0'))
    else f.(spacing := f.spacing * 10 + DigitValue(c))
  }

  /** __pf_printstuff: the text of a field with its padding. */
  function Padded(f: Field, prefix: string, prefix2: string, stuff: string): string {
    var len := |prefix| + |prefix2| + |stuff|;
    var spc := if f.spacing > len then f.spacing - len else 0;
    if f.rightspc then prefix + prefix2 + stuff + Fill(f.fillchar, spc)
    else if f.fillchar == '0' then prefix + prefix2 + Fill('0', spc) + stuff
    else Fill(f.fillchar, spc) + prefix + prefix2 + stuff
  }

  function Base(c: char): nat {
    if c == 'd' || c == 'u' then 10 else if c == 'o' then 8 else 16
  }

  /** __pf_getnum: magnitude and sign of the argument. */
  function Magnitude(c: char, w: int): (int, bool)
    requires 0 <= w < WORD
  {
    if c == 'd' && Atoi.Signed(w) < 0 then (-Atoi.Signed(w) % WORD, true) else (w, false)
  }

  function BasePrefix(f: Field, c: char): string {
    if !(f.altformat || c == 'p') then "" else if Base(c) == 16 then "0x" else if Base(c) == 8 then "0" else ""
  }

  function Number(f: Field, c: char, w: int): string
    requires 0 <= w < WORD
  {
    var (num, negative) := Magnitude(c, w);
    Padded(f, if negative then "-" else "", BasePrefix(f, c), Numeral(num, Base(c)))
  }

  lemma NumberIs(f: Field, c: char, w: int, num: int, negative: bool)
    requires 0 <= w < WORD && (num, negative) == Magnitude(c, w) && 0 <= num
    ensures Number(f, c, w) == Padded(f, if negative then "-" else "", BasePrefix(f, c), Numeral(num, Base(c)))
  {
  }

  function CharText(w: int): string
    requires 0 <= w < WORD
  {
    if w % 256 == 0 then "" else [(w % 256) as char]
  }

  /** The field ends: its text goes out and the next field starts afresh. */
  function Ended(st: State, text: string, args: seq<Arg>): State {
    State(st.out + text, args, false, PLAIN)
  }

  /** __pf_send */
  function Sent(st: State, c: char): State {
    if !st.inPct && c != '%' then st.(out := st.out + [c])
    else if !st.inPct then st.(inPct := true)
    else if IsModifier(c) then st.(field := Modified(st.field, c))
    else if IsInteger(c) then Ended(st, Number(st.field, c, WordArg(st.args)), Rest(st.args))
    else if c == 's' then Ended(st, Padded(st.field, "", "", TextArg(st.args)), Rest(st.args))
    else if c == 'c' then Ended(st, Padded(st.field, "", "", CharText(WordArg(st.args))), Rest(st.args))
    else Ended(st, Padded(st.field, "", "", [c]), st.args)
  }

  function SentAll(st: State, format: string): State
    decreases |format|
  {
    if format == [] then st else SentAll(Sent(st, format[0]), format[1..])
  }

  /** What printf writes. */
  function Formatted(format: string, args: seq<Arg>): string {
    SentAll(State("", args, false, PLAIN), format).out
  }

  // ---- printing a number and reading it back ----------------------------------------------

  ghost predicate Modifiers(mods: string) {
    forall k :: 0 <= k < |mods| ==> IsModifier(mods[k])
  }

  /** The field that a string of modifiers describes. */
  function FieldOf(f: Field, mods: string): Field
    requires Modifiers(mods)
    decreases |mods|
  {
    if mods == [] then f else FieldOf(Modified(f, mods[0]), mods[1..])
  }

  lemma {:induction false} SentModifiers(st: State, mods: string, rest: string)
    requires st.inPct && Modifiers(mods)
    ensures SentAll(st, mods + rest) == SentAll(st.(field := FieldOf(st.field, mods)), rest)
    decreases |mods|
  {
    if mods == [] {
      assert mods + rest == rest;
    } else {
      assert (mods + rest)[0] == mods[0] && (mods + rest)[1..] == mods[1..] + rest;
      SentModifiers(st.(field := Modified(st.field, mods[0])), mods[1..], rest);
    }
  }

  /** One integer conversion prints exactly its number. */
  lemma PrintsNumber(mods: string, c: char, w: int)
    requires Modifiers(mods) && IsInteger(c) && 0 <= w < WORD
    ensures Formatted("%" + mods + [c], [Word(w)]) == Number(FieldOf(PLAIN, mods), c, w)
  {
    var st := State("", [Word(w)], false, PLAIN);
    var format := "%" + mods + [c];
    assert format[0] == '%' && format[1..] == mods + [c];
    SentModifiers(Sent(st, '%'), mods, [c]);
    OneConversion(State("", [Word(w)], true, FieldOf(PLAIN, mods)), c, w);
  }

  lemma OneConversion(st: State, c: char, w: int)
    requires st.inPct && IsInteger(c) && 0 <= w < WORD && st.args == [Word(w)] && st.out == ""
    ensures SentAll(st, [c]).out == Number(st.field, c, w)
  {
    assert [c][1..] == "";
    assert WordArg(st.args) == w;
  }

  /** %u, %o and %x print a number in decimal, octal and hexadecimal; # and %p put the prefix of C before it. */
  lemma PrintsInBase(mods: string, c: char, w: int) returns (digits: string)
    requires (mods == "" || mods == "#") && (c == 'u' || c == 'o' || c == 'x' || c == 'p') && 0 <= w < WORD
    ensures ValueIn(digits, if c == 'u' then 10 else if c == 'o' then 8 else 16) == Some(w)
    ensures Formatted("%" + mods + [c], [Word(w)]) ==
            (if c == 'p' || (c == 'x' && mods == "#") then "0x" else if c == 'o' && mods == "#" then "0" else "") + digits
  {
    digits := Numeral(w, Base(c));
    PrintsNumber(mods, c, w);
    NumeralValue(w, Base(c));
    UnpaddedField(mods);
    UnpaddedNumber(FieldOf(PLAIN, mods), c, w);
  }

  lemma UnpaddedField(mods: string)
    requires mods == "" || mods == "#"
    ensures Modifiers(mods) && FieldOf(PLAIN, mods) == PLAIN.(altformat := mods == "#")
  {
    if mods == "#" {
      assert mods[1..] == "";
    }
  }

  lemma UnpaddedNumber(f: Field, c: char, w: int)
    requires f.spacing == 0 && f.fillchar == ' ' && !f.rightspc && c != 'd' && 0 <= w < WORD
    ensures Number(f, c, w) == BasePrefix(f, c) + Numeral(w, Base(c))
  {
  }

  /** The decimal field width is read as it is written, up to any width. */
  lemma {:induction false} WidthRead(f: Field, w: nat)
    requires w > 0 && f.spacing == 0
    ensures Modifiers(Numeral(w, 10)) && FieldOf(f, Numeral(w, 10)) == f.(spacing := w)
  {
    NumeralDigits(w);
    if w < 10 {
      DigitAt(w);
      NumeralStart(w);
      assert Numeral(w, 10)[1..] == "";
    } else {
      WidthRead(f, w / 10);
      DigitAt(w % 10);
      FieldOfSnoc(f, Numeral(w / 10, 10), DIGITS[w % 10]);
    }
  }

  lemma {:induction false} FieldOfSnoc(f: Field, mods: string, c: char)
    requires Modifiers(mods) && IsModifier(c)
    ensures FieldOf(f, mods + [c]) == Modified(FieldOf(f, mods), c)
    decreases |mods|
  {
    if mods == [] {
      assert mods + [c] == [c] && [c][1..] == "";
    } else {
      assert (mods + [c])[0] == mods[0] && (mods + [c])[1..] == mods[1..] + [c];
      FieldOfSnoc(Modified(f, mods[0]), mods[1..], c);
    }
  }

  lemma {:induction false} FillIsBlankOrZero(f: Field, mods: string)
    requires Modifiers(mods) && (f.fillchar == ' ' || f.fillchar == '0')
    ensures FieldOf(f, mods).fillchar == ' ' || FieldOf(f, mods).fillchar == '0'
    decreases |mods|
  {
    if mods != [] {
      FillIsBlankOrZero(Modified(f, mods[0]), mods[1..]);
    }
  }

  function Sign(n: int): string { if n < 0 then "-" else "" }
  function Abs(n: int): nat { if n < 0 then -n else n }

  ghost predicate IsInt(n: int) { -0x8000_0000 <= n < 0x8000_0000 }

  /** The field of an int: sign, digits and padding. */
  lemma IntField(f: Field, n: int)
    requires IsInt(n)
    ensures Number(f, 'd', n % WORD) == Padded(f, Sign(n), "", Numeral(Abs(n), 10))
  {
    WordOfInt(n);
  }

  lemma WordOfInt(n: int)
    requires IsInt(n)
    ensures n % WORD == (if n < 0 then n + WORD else n) && Atoi.Signed(n % WORD) == n && -n % WORD == if n > 0 then WORD - n else -n
  {
  }

  /** What atoi makes of blanks, the sign of n and then digits, in terms of the digits. */
  lemma ReadsSigned(k: nat, n: int, t: string)
    requires IsInt(n) && t != [] && IsDigit(t[0]) && Accumulate(0, t) < WORD
    ensures Atoi.Value(Fill(' ', k) + (Sign(n) + t)) == n <==> Accumulate(0, t) == Abs(n)
  {
    var body := Sign(n) + t;
    Atoi.BlanksSkipped(k, body);
    if n < 0 {
      assert body[1..] == t;
    } else {
      assert body == t;
    }
  }

  /** Digits of n and then what pads them on the right. */
  lemma DigitsThen(a: nat, fillchar: char, k: nat)
    requires a < WORD && (fillchar == ' ' || fillchar == '0')
    ensures var t := Numeral(a, 10) + Fill(fillchar, k);
            && t != [] && IsDigit(t[0]) && Accumulate(0, t) < WORD
            && (Accumulate(0, t) == a <==> (a == 0 || k == 0 || fillchar == ' '))
  {
    ReadsNumeral(a);
    AccumulateSplit(0, Numeral(a, 10), Fill(fillchar, k));
    if fillchar == ' ' || k == 0 {
      StopsAt(a, Fill(fillchar, k));
    } else {
      TrailingZeros(a, k);
      ZerosChange(a, k);
    }
  }

  /** Padding needed by the text of n in field f. */
  function Spare(f: Field, n: int): nat {
    var len := |Sign(n)| + |Numeral(Abs(n), 10)|;
    if f.spacing > len then f.spacing - len else 0
  }

  lemma Regroup(a: string, b: string, c: string)
    ensures a + "" + b + c == Fill(' ', 0) + (a + (b + c))
  {
  }

  lemma RegroupBlank(a: string, b: string, c: string)
    ensures a + b + "" + c == a + (b + c)
  {
  }

  lemma ReadsLeftAligned(f: Field, n: int)
    requires IsInt(n) && (f.fillchar == ' ' || f.fillchar == '0') && f.rightspc
    ensures Atoi.Value(Padded(f, Sign(n), "", Numeral(Abs(n), 10))) == n <==> (n == 0 || Spare(f, n) == 0 || f.fillchar == ' ')
  {
    var digits, pad := Numeral(Abs(n), 10), Fill(f.fillchar, Spare(f, n));
    DigitsThen(Abs(n), f.fillchar, Spare(f, n));
    ReadsSigned(0, n, digits + pad);
    Regroup(Sign(n), digits, pad);
  }

  lemma ReadsZeroFilled(f: Field, n: int)
    requires IsInt(n) && f.fillchar == '0' && !f.rightspc
    ensures Atoi.Value(Padded(f, Sign(n), "", Numeral(Abs(n), 10))) == n
  {
    var digits, pad := Numeral(Abs(n), 10), Fill('0', Spare(f, n));
    ReadsNumeral(Abs(n));
    LeadingZeros(Spare(f, n), digits);
    ReadsSigned(0, n, pad + digits);
    Regroup(Sign(n), pad, digits);
  }

  lemma ReadsBlankFilled(f: Field, n: int)
    requires IsInt(n) && f.fillchar == ' ' && !f.rightspc
    ensures Atoi.Value(Padded(f, Sign(n), "", Numeral(Abs(n), 10))) == n
  {
    var digits, pad := Numeral(Abs(n), 10), Fill(' ', Spare(f, n));
    ReadsNumeral(Abs(n));
    ReadsSigned(Spare(f, n), n, digits);
    RegroupBlank(pad, Sign(n), digits);
  }

  /** atoi reads a printed int back, unless the padding is zeros on the right. */
  lemma FieldReadBack(f: Field, n: int)
    requires IsInt(n) && (f.fillchar == ' ' || f.fillchar == '0')
    ensures Atoi.Value(Padded(f, Sign(n), "", Numeral(Abs(n), 10))) == n
            <==> !(f.rightspc && f.fillchar == '0' && Spare(f, n) > 0 && n != 0)
  {
    if f.rightspc {
      ReadsLeftAligned(f, n);
    } else if f.fillchar == '0' {
      ReadsZeroFilled(f, n);
    } else {
      ReadsBlankFilled(f, n);
    }
  }

  /**
   Round trip. For every int and every choice of flags and width, atoi gives back what %d
   printed exactly unless the field is left-aligned, zero-filled, wider than the number, and
   the number is not zero.
   */
  lemma PrintThenRead(mods: string, n: int)
    requires Modifiers(mods) && IsInt(n)
    ensures var f := FieldOf(PLAIN, mods);
            Atoi.Value(Formatted("%" + mods + "d", [Word(n % WORD)])) == n
            <==> !(f.rightspc && f.fillchar == '0' && f.spacing > |Sign(n) + Numeral(Abs(n), 10)| && n != 0)
  {
    var f := FieldOf(PLAIN, mods);
    PrintsNumber(mods, 'd', n % WORD);
    FillIsBlankOrZero(PLAIN, mods);
    IntField(f, n);
    FieldReadBack(f, n);
  }

  /** The failing family is not empty: %-05d prints 1 as 10000. */
  lemma ZerosOnTheRight()
    ensures Atoi.Value(Formatted("%-05d", [Word(1)])) != 1
  {
    var mods := "-05";
    assert FieldOf(PLAIN, mods) == Field(5, true, '0', false, false) by {
      assert mods[1..] == "05" && "05"[1..] == "5" && "5"[1..] == "";
    }
    PrintThenRead(mods, 1);
    assert "%" + mods + "d" == "%-05d";
    assert 1 % WORD == 1;
  }

  // ---- the PF structure -------------------------------------------------------------------

  /** Dropping an octal digit frees one place. */
  lemma RoomForRest(n: nat, base: nat, k: nat)
    requires base >= 8 && n < Pow(8, k + 1)
    ensures n / base < Pow(8, k)
  {
    var q := n / base;
    assert n == q * base + n % base;
    assert q * 8 <= q * base;
  }

  class Pf {
    var out: string
    var charcount: int
    var args: seq<Arg>
    var inPct: bool
    var long: bool
    var num: int
    var sign: bool
    var spacing: nat
    var rightspc: bool
    var fillchar: char
    var base: nat
    var baseprefix: bool
    var altformat: bool

    ghost function FieldView(): Field
      reads this
    {
      Field(spacing, rightspc, fillchar, altformat, long)
    }

    ghost function View(): State
      reads this
    {
      State(out, args, inPct, FieldView())
    }

    /** The count is of what was printed; the number of a field is clear between characters. */
    ghost predicate Valid()
      reads this
    {
      charcount == |out| && num == 0 && !sign && base == 0 && !baseprefix
    }

    constructor (args: seq<Arg>)
      ensures Valid() && View() == State("", args, false, PLAIN)
    {
      this.args := args;
      out, charcount := "", 0;
      new;
      EndField();
    }

    /** __pf_print */
    method Print(txt: string)
      modifies this`out, this`charcount
      ensures out == old(out) + txt && charcount == old(charcount) + |txt|
    {
      out := out + txt;
      charcount := charcount + |txt|;
    }

    /** __pf_endfield */
    method EndField()
      modifies this`inPct, this`long, this`num, this`sign, this`spacing, this`rightspc, this`fillchar, this`base, this`baseprefix, this`altformat
      ensures !inPct && FieldView() == PLAIN && num == 0 && !sign && base == 0 && !baseprefix
    {
      inPct, long, num, sign, spacing := false, false, 0, false, 0;
      rightspc, fillchar, base, baseprefix, altformat := false, ' ', 0, false, false;
    }

    /** __pf_modifier; its assertion about digits holds for every modifier. */
    method Modifier(ch: char)
      requires IsModifier(ch)
      modifies this`altformat, this`rightspc, this`long, this`spacing, this`fillchar
      ensures FieldView() == Modified(old(FieldView()), ch)
    {
      match ch
      case '#' => altformat := true;
      case '-' => rightspc := true;
      case 'l' => long := true;
      case 'q' => long := true;
      case '0' =>
        if spacing > 0 {
          spacing := spacing * 10;
        } else {
          fillchar := '0';
        }
      case _ =>
        assert '0' < ch <= '9';
        spacing := spacing * 10 + DigitValue(ch);
    }

    /** __pf_getnum */
    method GetNum(ch: char)
      requires IsInteger(ch) && !sign
      modifies this`num, this`sign, this`args
      ensures (num, sign) == Magnitude(ch, WordArg(old(args))) && args == Rest(old(args)) && 0 <= num < WORD
    {
      var w := WordArg(args);
      args := Rest(args);
      if ch == 'd' {
        var signednum := Atoi.Signed(w);
        if signednum < 0 {
          sign := true;
          num := -signednum % WORD;
        } else {
          num := signednum;
        }
      } else {
        num := w;
      }
    }

    /** __pf_setbase */
    method SetBase(ch: char)
      requires IsInteger(ch) && !baseprefix
      modifies this`base, this`baseprefix
      ensures base == Base(ch) && (baseprefix <==> altformat || ch == 'p')
    {
      match ch {
        case 'd' => base := 10;
        case 'u' => base := 10;
        case 'x' => base := 16;
        case 'p' => base := 16;
        case _ => base := 8;
      }
      if altformat || ch == 'p' {
        baseprefix := true;
      }
    }

    /** __pf_fill */
    method FillOut(spc: nat)
      modifies this`out, this`charcount
      ensures out == old(out) + Fill(fillchar, spc) && charcount == old(charcount) + spc
    {
      var i := 0;
      while i < spc
        invariant 0 <= i <= spc && charcount == old(charcount) + i
        invariant out + Fill(fillchar, spc - i) == old(out) + Fill(fillchar, spc)
      {
        FillStep(out, fillchar, spc - i);
        Print([fillchar]);
        i := i + 1;
      }
    }

    /** __pf_printstuff */
    method PrintStuff(prefix: string, prefix2: string, stuff: string)
      modifies this`out, this`charcount
      ensures out == old(out) + Padded(FieldView(), prefix, prefix2, stuff)
      ensures charcount - old(charcount) == |out| - |old(out)|
    {
      var len := |prefix| + |prefix2| + |stuff|;
      var spc := spacing;
      if spc > len {
        spc := spc - len;
      } else {
        spc := 0;
      }
      ghost var pad := Fill(fillchar, spc);
      PaddedPieces(FieldView(), prefix, prefix2, stuff);
      Join6(out, if !rightspc && fillchar != '0' then pad else "", prefix, prefix2,
            if !rightspc && fillchar == '0' then pad else "", stuff, if rightspc then pad else "");
      FillIf(spc, !rightspc && fillchar != '0');
      Print(prefix);
      Print(prefix2);
      FillIf(spc, !rightspc && fillchar == '0');
      Print(stuff);
      FillIf(spc, rightspc);
    }

    method FillIf(spc: nat, here: bool)
      modifies this`out, this`charcount
      ensures out == old(out) + (if here then Fill(fillchar, spc) else "") && charcount - old(charcount) == |out| - |old(out)|
    {
      if spc > 0 && here {
        FillOut(spc);
      }
    }

    /** One round of that loop: the last digit goes into the buffer, in front of those before. */
    method PutDigit(buf: array<char>, k: nat, xnum: nat) returns (rest: nat)
      requires (base == 8 || base == 10 || base == 16) && buf.Length == NUMBER_BUF_SIZE && k < NUMBER_BUF_SIZE - 1 && xnum < Pow(8, k + 1)
      modifies buf
      ensures rest < Pow(8, k) && (xnum > 0 ==> rest < xnum) && (xnum == 0 ==> rest == 0)
      ensures (if rest > 0 then Numeral(rest, base) else "") + buf[k..NUMBER_BUF_SIZE - 1]
              == Numeral(xnum, base) + old(buf[k + 1..NUMBER_BUF_SIZE - 1])
    {
      ghost var after := buf[k + 1..NUMBER_BUF_SIZE - 1];
      var d := DigitOff(xnum, base, k, after);
      rest := xnum / base;
      buf[k] := DIGITS[d];
      assert buf[k..NUMBER_BUF_SIZE - 1] == [DIGITS[d]] + after;
    }

    /** __pf_printnum's conversion loop: the digits fit the buffer, whatever the base. */
    method Digits() returns (x: string)
      requires (base == 8 || base == 10 || base == 16) && 0 <= num < WORD
      ensures x == Numeral(num, base)
    {
      var buf := new char[NUMBER_BUF_SIZE];
      var k := NUMBER_BUF_SIZE - 1;
      buf[k] := '\0';
      k := k - 1;
      var xnum, more := num, true;
      WordIsPower();
      while more
        invariant -1 <= k < NUMBER_BUF_SIZE - 1 && 0 <= xnum
        invariant more ==> k >= 0 && xnum < Pow(8, k + 1)
        invariant (if more then Numeral(xnum, base) else "") + buf[k + 1..NUMBER_BUF_SIZE - 1] == Numeral(num, base)
        decreases if more then xnum + 1 else 0
      {
        xnum := PutDigit(buf, k, xnum);
        k := k - 1;
        more := xnum > 0;
      }
      return buf[k + 1..NUMBER_BUF_SIZE - 1];
    }

    /** __pf_printnum */
    method PrintNum(ghost ch: char, ghost w: int)
      requires IsInteger(ch) && base == Base(ch) && 0 <= num < WORD && (baseprefix <==> altformat || ch == 'p')
      requires 0 <= w < WORD && (num, sign) == Magnitude(ch, w)
      modifies this`out, this`charcount
      ensures out == old(out) + Number(FieldView(), ch, w)
      ensures charcount - old(charcount) == |out| - |old(out)|
    {
      var x := Digits();
      var bprefix, sprefix := "", "";
      if baseprefix && base == 16 {
        bprefix := "0x";
      } else if baseprefix && base == 8 {
        bprefix := "0";
      }
      if sign {
        sprefix := "-";
      }
      NumberIs(FieldView(), ch, w, num, sign);
      PrintStuff(sprefix, bprefix, x);
    }

    /** What an integer conversion finds out before it prints. */
    method Prepare(ch: char)
      requires IsInteger(ch) && !sign && !baseprefix
      modifies this`num, this`sign, this`args, this`base, this`baseprefix
      ensures (num, sign) == Magnitude(ch, WordArg(old(args))) && args == Rest(old(args)) && 0 <= num < WORD
      ensures base == Base(ch) && (baseprefix <==> altformat || ch == 'p') && FieldView() == old(FieldView())
    {
      GetNum(ch);
      SetBase(ch);
    }

    /** The integer conversions of __pf_send. */
    method SendInteger(ch: char)
      requires Valid() && IsInteger(ch)
      modifies this
      ensures Valid() && View() == Ended(old(View()), Number(old(FieldView()), ch, WordArg(old(args))), Rest(old(args)))
    {
      ghost var w := WordArg(args);
      Prepare(ch);
      PrintNum(ch, w);
      EndField();
    }

    /** The other conversions of __pf_send. */
    method SendText(str: string)
      requires Valid()
      modifies this
      ensures Valid() && View() == Ended(old(View()), Padded(old(FieldView()), "", "", str), old(args))
    {
      PrintStuff("", "", str);
      EndField();
    }

    /** __pf_send */
    method Send(ch: char)
      requires Valid()
      modifies this
      ensures Valid() && View() == Sent(old(View()), ch)
    {
      if !inPct && ch != '%' {
        Print([ch]);
      } else if !inPct {
        inPct := true;
      } else if IsModifier(ch) {
        Modifier(ch);
      } else if IsInteger(ch) {
        SendInteger(ch);
      } else if ch == 's' {
        var str := TextArg(args);
        args := Rest(args);
        SendText(str);
      } else if ch == 'c' {
        var w := WordArg(args);
        args := Rest(args);
        SendText(CharText(w));
      } else {
        SendText([ch]);
      }
    }
  }

  /** __vprintf: what is printed and the number of characters. */
  method Vprintf(format: string, args: seq<Arg>) returns (out: string, charcount: int)
    ensures out == Formatted(format, args) && charcount == |out|
  {
    var pf := new Pf(args);
    var i := 0;
    while i < |format|
      invariant 0 <= i <= |format| && pf.Valid()
      invariant SentAll(pf.View(), format[i..]) == SentAll(State("", args, false, PLAIN), format)
    {
      assert format[i..][1..] == format[i + 1..];
      pf.Send(format[i]);
      i := i + 1;
    }
    return pf.out, pf.charcount;
  }

  /** The last digit of a number moves from the number to the text after it. */
  method DigitOff(n: nat, base: nat, ghost k: nat, ghost after: string) returns (d: nat)
    requires (base == 8 || base == 10 || base == 16) && n < Pow(8, k + 1)
    ensures d < base && n / base < Pow(8, k) && (n > 0 ==> n / base < n) && (n == 0 ==> n / base == 0)
    ensures (if n / base > 0 then Numeral(n / base, base) else "") + ([DIGITS[d]] + after) == Numeral(n, base) + after
  {
    RoomForRest(n, base, k);
    if n < base {
      SmallQuotient(n, base);
      assert "" + ([DIGITS[n]] + after) == [DIGITS[n]] + after;
    } else {
      Quotient(n, base);
      assert Numeral(n / base, base) + ([DIGITS[n % base]] + after) == Numeral(n / base, base) + [DIGITS[n % base]] + after;
    }
    d := n % base;
  }

  lemma SmallQuotient(n: nat, base: nat)
    requires n < base
    ensures n / base == 0 && n % base == n
  {
  }

  /** Padded in the order in which __pf_printstuff prints its pieces. */
  lemma PaddedPieces(f: Field, prefix: string, prefix2: string, stuff: string)
    ensures var len := |prefix| + |prefix2| + |stuff|;
            var pad := Fill(f.fillchar, if f.spacing > len then f.spacing - len else 0);
            var left := if !f.rightspc && f.fillchar != '0' then pad else "";
            var mid := if !f.rightspc && f.fillchar == '0' then pad else "";
            var right := if f.rightspc then pad else "";
            Padded(f, prefix, prefix2, stuff) == left + prefix + prefix2 + mid + stuff + right
  {
  }

  lemma Join6(o: string, a: string, b: string, c: string, d: string, e: string, f: string)
    ensures o + (a + b + c + d + e + f) == o + a + b + c + d + e + f
  {
  }

  lemma FillStep(out: string, c: char, n: nat)
    requires n > 0
    ensures out + Fill(c, n) == (out + [c]) + Fill(c, n - 1)
  {
  }
}
