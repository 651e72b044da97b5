// src/lib/stdlib/itoa.c: printing an integer into a buffer, digits first in
// reverse order, then turned round in place.
module Itoa {
  import opened Word32
  import opened Numerals

  // The format arguments of itoa_padded.
  datatype Format = Format(base: nat, width: int, zeropad: bool, isSigned: bool, ten: char) {
    predicate Ok() { 2 <= base <= 36 && (ten == 'a' || ten == 'A') }
  }

  predicate Negative(value: nat, isSigned: bool) { isSigned && value >= TWO31 }

  // The magnitude printed for a 32-bit value.
  function Magnitude(value: nat, isSigned: bool): nat
    requires value < TWO32
  {
    if Negative(value, isSigned) then TWO32 - value else value
  }

  // Sign and digits, without padding.
  function Body(value: nat, f: Format): (s: string)
    requires value < TWO32 && f.Ok()
    ensures |s| > 0
  {
    (if Negative(value, f.isSigned) then "-" else "") + Digits(Magnitude(value, f.isSigned), f.base, f.ten)
  }

  function Fill(n: int, c: char): string {
    seq(if n < 0 then 0 else n, _ => c)
  }

  function Text(value: nat, f: Format): string
    requires value < TWO32 && f.Ok()
  {
    var body := Body(value, f);
    Fill(f.width - |body|, if f.zeropad then '0' else ' ') + body
  }

  function Reverse(s: string): (r: string)
    ensures |r| == |s|
    ensures forall i | 0 <= i < |s| :: r[i] == s[|s| - 1 - i]
  {
    if s == [] then [] else Reverse(s[1..]) + [s[0]]
  }

  lemma ReverseConcat(a: string, b: string)
    ensures Reverse(a + b) == Reverse(b) + Reverse(a)
  {
  }

  lemma DivBasics(v: nat, base: nat)
    requires 2 <= base
    ensures v / base == 0 <==> v < base
    ensures v / base < v || v == 0
    ensures v % base < base
  {
  }

  lemma SmallMod(v: nat, base: nat)
    requires v < base
    ensures v % base == v
  {
  }

  // One round of the digit loop: the last digit off, the rest still to go.
  lemma DigitStep(v: nat, base: nat, ten: char)
    requires 2 <= base <= 36 && (ten == 'a' || ten == 'A')
    ensures v / base < v || v == 0
    ensures v % base < base
    ensures Digits(v, base, ten) ==
            (if v / base == 0 then "" else Digits(v / base, base, ten)) + [DigitChar(v % base, ten)]
  {
    DivBasics(v, base);
    if v < base {
      SmallMod(v, base);
    }
  }

  // The digits still to be written once `v` is what is left of the number.
  function Left(v: nat, started: bool, f: Format): string
    requires f.Ok()
  {
    if v == 0 && started then "" else Digits(v, f.base, f.ten)
  }

  lemma LeftStep(v: nat, started: bool, f: Format)
    requires f.Ok() && (!started || v > 0)
    ensures v / f.base < v || v == 0
    ensures v % f.base < f.base
    ensures Left(v, started, f) == Left(v / f.base, true, f) + [DigitChar(v % f.base, f.ten)]
  {
    DigitStep(v, f.base, f.ten);
  }

  // The digit d as the next character.
  method PutDigit(d: nat, a: array<char>, i: nat, f: Format)
    requires f.Ok() && d < f.base && i < a.Length
    modifies a
    ensures Reverse(a[..i + 1]) == [DigitChar(d, f.ten)] + Reverse(old(a[..i]))
    ensures forall k | i < k < a.Length :: a[k] == old(a[k])
  {
    ghost var done := a[..i];
    var fudge := f.ten as int - '9' as int - 1;
    var c := d + '0' as int;
    if c > '9' as int {
      c := c + fudge;
    }
    a[i] := c as char;
    ReverseConcat(done, [DigitChar(d, f.ten)]);
    assert a[..i + 1] == done + [DigitChar(d, f.ten)];
  }

  // The do-while loop over the digits, as a loop that stops at v == 0 once it
  // has started.
  method WriteDigits(value: nat, a: array<char>, f: Format) returns (i: nat)
    requires f.Ok() && |Digits(value, f.base, f.ten)| <= a.Length
    modifies a
    ensures i == |Digits(value, f.base, f.ten)| && Reverse(a[..i]) == Digits(value, f.base, f.ten)
    ensures forall k | i <= k < a.Length :: a[k] == old(a[k])
  {
    var v: nat := value;
    i := 0;
    ghost var all := Digits(value, f.base, f.ten);
    while i == 0 || v > 0
      invariant i <= a.Length
      invariant i + |Left(v, i > 0, f)| == |all|
      invariant all == Left(v, i > 0, f) + Reverse(a[..i])
      invariant forall k | i <= k < a.Length :: a[k] == old(a[k])
      decreases v, i == 0
    {
      LeftStep(v, i > 0, f);
      PutDigit(v % f.base, a, i, f);
      v := v / f.base;
      i := i + 1;
    }
  }

  // The loop that turns the first n characters round.
  method TurnRound(a: array<char>, n: nat)
    requires 0 < n <= a.Length
    modifies a
    ensures a[..n] == Reverse(old(a[..n]))
    ensures forall k | n <= k < a.Length :: a[k] == old(a[k])
  {
    var i := n - 1;
    var j := 0;
    while j < i
      invariant j + i == n - 1 && 0 <= j <= i + 1
      invariant forall k | 0 <= k < j || i < k < n :: a[k] == old(a[n - 1 - k])
      invariant forall k | j <= k <= i || n <= k < a.Length :: a[k] == old(a[k])
    {
      var c := a[j];
      a[j] := a[i];
      a[i] := c;
      j := j + 1;
      i := i - 1;
    }
  }

  // Digits and sign, turned round.
  method WriteBody(value: nat, a: array<char>, f: Format) returns (i: nat)
    requires value < TWO32 && f.Ok() && |Body(value, f)| <= a.Length
    modifies a
    ensures i == |Body(value, f)| && Reverse(a[..i]) == Body(value, f)
    ensures forall k | i <= k < a.Length :: a[k] == old(a[k])
  {
    var v := value;
    var sign := false;
    if f.isSigned && value >= TWO31 {
      sign := true;
      v := (TWO32 - value) % TWO32;
    }
    i := WriteDigits(v, a, f);
    if sign {
      ghost var done := a[..i];
      a[i] := '-';
      assert a[..i + 1] == done + "-";
      ReverseConcat(done, "-");
      i := i + 1;
    }
  }

  // Characters from i up to the width.
  method PadOut(a: array<char>, i0: nat, width: int, c: char) returns (i: nat)
    requires i0 <= a.Length && width <= a.Length
    modifies a
    ensures i == if width > i0 then width else i0
    ensures a[..i0] == old(a[..i0])
    ensures forall k | i0 <= k < i :: a[k] == c
    ensures forall k | i <= k < a.Length :: a[k] == old(a[k])
  {
    i := i0;
    while i < width
      invariant i0 <= i && (i <= width || i == i0)
      invariant a[..i0] == old(a[..i0])
      invariant forall k | i0 <= k < i :: a[k] == c
      invariant forall k | i <= k < a.Length :: a[k] == old(a[k])
    {
      a[i] := c;
      i := i + 1;
    }
  }

  lemma Padded(s: string, body: string, written: string, n: nat, c: char)
    requires |s| == |body| + n && Reverse(written) == body
    requires s[..|body|] == written
    requires forall k | |body| <= k < |s| :: s[k] == c
    ensures Reverse(s) == Fill(n, c) + body
  {
    assert s == written + s[|body|..];
    assert Reverse(s) == Reverse(s[|body|..]) + Reverse(written) by { ReverseConcat(written, s[|body|..]); }
    assert Reverse(s[|body|..]) == Fill(n, c);
  }

  lemma PaddedFill(value: nat, f: Format, n: nat, c: char)
    requires value < TWO32 && f.Ok() && c == (if f.zeropad then '0' else ' ')
    requires var rest := f.width - |Body(value, f)|; n == if rest > 0 then rest else 0
    ensures Text(value, f) == Fill(n, c) + Body(value, f)
  {
  }

  lemma PaddedText(value: nat, f: Format, s: string, written: string)
    requires value < TWO32 && f.Ok() && Reverse(written) == Body(value, f)
    requires |s| == if f.width > |written| then f.width else |written|
    requires |written| == |Body(value, f)| && s[..|written|] == written
    requires forall k | |written| <= k < |s| :: s[k] == if f.zeropad then '0' else ' '
    ensures Reverse(s) == Text(value, f)
  {
    var c := if f.zeropad then '0' else ' ';
    Padded(s, Body(value, f), written, |s| - |written|, c);
    PaddedFill(value, f, |s| - |written|, c);
  }

  lemma TextLength(value: nat, f: Format)
    requires value < TWO32 && f.Ok()
    ensures |Text(value, f)| == if f.width > |Body(value, f)| then f.width else |Body(value, f)|
  {
  }

  // Everything but the NUL, still the wrong way round.
  method WritePadded(value: nat, a: array<char>, f: Format) returns (i: nat)
    requires value < TWO32 && f.Ok() && |Text(value, f)| < a.Length
    modifies a
    ensures i == |Text(value, f)| && Reverse(a[..i]) == Text(value, f)
    ensures forall k | i <= k < a.Length :: a[k] == old(a[k])
  {
    TextLength(value, f);
    i := WriteBody(value, a, f);
    ghost var written := a[..i];
    i := PadOut(a, i, f.width, if f.zeropad then '0' else ' ');
    PaddedText(value, f, a[..i], written);
  }

  method ItoaPadded(value: nat, a: array<char>, f: Format)
    requires value < TWO32 && f.Ok() && |Text(value, f)| < a.Length
    modifies a
    ensures a[..|Text(value, f)| + 1] == Text(value, f) + ['\0']
    ensures forall k | |Text(value, f)| < k < a.Length :: a[k] == old(a[k])
  {
    var i := WritePadded(value, a, f);
    ghost var turned := a[..i];
    a[i] := '\0';
    assert a[..i] == turned;
    TurnRound(a, i);
    assert a[..i + 1] == a[..i] + [a[i]];
  }

  // The number a text stands for, of any size.
  function NumberOf(s: string, base: nat): int {
    if s != "" && s[0] == '-' then -1 * Value(s[1..], base) else Value(s, base)
  }

  // What is printed is the value itself, or what it is in two's complement.
  lemma BodyStands(value: nat, f: Format)
    requires value < TWO32 && f.Ok()
    ensures NumberOf(Body(value, f), f.base)
         == if f.isSigned && value >= 0x8000_0000 then value - 0x1_0000_0000 else value
  {
    var m := Magnitude(value, f.isSigned);
    DigitsShape(m, f.base, f.ten);
    DigitsValue(m, f.base, f.ten);
    var digits := Digits(m, f.base, f.ten);
    if Negative(value, f.isSigned) {
      assert ("-" + digits)[1..] == digits;
    } else {
      assert "" + digits == digits;
    }
  }

  // ----- reading back what was printed ------------------------------------------

  lemma {:induction false} RunToEnd(s: string, i: nat, base: nat)
    requires i <= |s| && forall k | i <= k < |s| :: DigitValue(s[k]) < base
    ensures RunLength(s, i, base) == |s| - i
    decreases |s| - i
  {
    if i < |s| { RunToEnd(s, i + 1, base); }
  }

  lemma {:induction false} BlanksAre(s: string, i: nat, n: nat)
    requires i <= n <= |s| && forall k | i <= k < n :: s[k] == ' '
    requires n < |s| ==> s[n] != ' ' && s[n] != '\t'
    ensures Blanks(s, i) == n - i
    decreases n - i
  {
    if i < n { BlanksAre(s, i + 1, n); }
  }

  // Digits to the end of the string, behind a known prefix.
  lemma ParsedIs(s: string, base: nat, p: Prefix, digits: string)
    requires PrefixOf(s, base) == p && s[p.start..] == digits
    requires forall k | 0 <= k < |digits| :: DigitValue(digits[k]) < p.base
    ensures Parsed(s, base) == (Wrap(p.sign * Value(digits, p.base)), |s|)
  {
    assert forall k | p.start <= k < |s| :: s[k] == digits[k - p.start];
    RunToEnd(s, p.start, p.base);
    assert s[p.start..|s|] == digits;
  }

  // The number behind `n` blanks and perhaps a minus sign. A lone zero takes
  // strtol into octal, where there is nothing left to read.
  lemma ReadNumber(s: string, n: nat, minus: bool, m: nat, base: nat, ten: char)
    requires 2 <= base <= 36 && (ten == 'a' || ten == 'A')
    requires s == Fill(n, ' ') + (if minus then "-" else "") + Digits(m, base, ten)
    ensures Parsed(s, base) == (Wrap((if minus then -1 else 1) * m), |s|)
  {
    DigitsShape(m, base, ten);
    DigitsValue(m, base, ten);
    var digits := Digits(m, base, ten);
    assert s[n] == if minus then '-' else digits[0];
    BlanksAre(s, 0, n);
    if minus {
      assert s[n + 1..] == digits;
      ParsedIs(s, base, Prefix(n + 1, base, -1), digits);
    } else if m == 0 {
      DigitCharValue(0, ten);
      assert s[n + 1..] == "";
      ParsedIs(s, base, Prefix(n + 1, 8, 1), "");
    } else {
      assert s[n..] == digits;
      ParsedIs(s, base, Prefix(n, base, 1), digits);
    }
  }

  // Behind `$` or `0x` the digits are hexadecimal, and behind a zero octal,
  // whatever base was asked for.
  lemma ReadPrefixed(s: string, n: nat, prefix: string, m: nat, base: nat, ten: char)
    requires 2 <= base <= 36 && (ten == 'a' || ten == 'A') && prefix in {"$", "0x", "0"}
    requires s == Fill(n, ' ') + prefix + Digits(m, if prefix == "0" then 8 else 16, ten)
    ensures Parsed(s, base) == (Wrap(m), |s|)
  {
    var b: nat := if prefix == "0" then 8 else 16;
    var digits := Digits(m, b, ten);
    DigitsShape(m, b, ten);
    DigitsValue(m, b, ten);
    BlanksAre(s, 0, n);
    assert s[n] == prefix[0];
    assert |prefix| == 2 ==> s[n + 1] == prefix[1];
    assert |prefix| == 1 ==> s[n + 1] == digits[0];
    assert s[n + |prefix|..] == digits;
    ParsedIs(s, base, Prefix(n + |prefix|, b, 1), digits);
  }

  lemma TextShape(value: nat, f: Format) returns (n: nat)
    requires value < TWO32 && f.Ok()
    requires !f.zeropad || f.width <= |Body(value, f)|
    ensures Text(value, f) == Fill(n, ' ') + (if Negative(value, f.isSigned) then "-" else "")
                              + Digits(Magnitude(value, f.isSigned), f.base, f.ten)
  {
    var body := Body(value, f);
    n := if f.width > |body| then f.width - |body| else 0;
    assert Fill(0, '0') == Fill(0, ' ');
  }

  // For every 32-bit value, base, width and letter case strtol reads back what
  // itoa_padded printed, to the last character. For zeros in front see ZeroPadded.
  lemma RoundTrip(value: nat, f: Format)
    requires value < TWO32 && f.Ok()
    requires !f.zeropad || f.width <= |Body(value, f)|
    ensures Parsed(Text(value, f), f.base) == (Wrap(value), |Text(value, f)|)
  {
    var minus := Negative(value, f.isSigned);
    var m := Magnitude(value, f.isSigned);
    var n := TextShape(value, f);
    ReadNumber(Text(value, f), n, minus, m, f.base, f.ten);
    if minus {
      WrapShift(value, -1);
    }
  }

  // ----- zeros in front -----------------------------------------------------------

  lemma {:induction false} ValueZeros(n: nat, digits: string, base: nat)
    ensures Value(Fill(n, '0') + digits, base) == Value(digits, base)
    decreases |digits|, n
  {
    if digits != "" {
      var k := |digits| - 1;
      assert (Fill(n, '0') + digits)[..n + k] == Fill(n, '0') + digits[..k];
      ValueZeros(n, digits[..k], base);
    } else if n > 0 {
      assert (Fill(n, '0') + digits)[..n - 1] == Fill(n - 1, '0') + digits;
      ValueZeros(n - 1, digits, base);
    }
  }

  lemma Products(x: nat, y: nat, a: nat, b: nat)
    requires x <= y && a <= b
    ensures x * a <= y * b && (a < b && y > 0 ==> x * a < y * b)
  {
    assert x * a <= y * a;
    assert y * a <= y * b;
  }

  // The same digits are worth more in a greater base.
  lemma {:induction false} ValueGrows(s: string, a: nat, b: nat)
    requires a <= b
    ensures Value(s, a) <= Value(s, b)
    ensures s != "" && a < b && Value(s[..|s| - 1], b) > 0 ==> Value(s, a) < Value(s, b)
  {
    if s != "" {
      ValueGrows(s[..|s| - 1], a, b);
      Products(Value(s[..|s| - 1], a), Value(s[..|s| - 1], b), a, b);
    }
  }

  lemma StrictProduct(x: nat, y: nat, a: nat)
    requires x < y && a > 0
    ensures x * a < y * a
  {
    Products(1, y - x, a, a);
    assert y * a == x * a + (y - x) * a;
  }

  lemma {:induction false} ValueBehind(s: string, base: nat)
    requires s != "" && base > 0
    ensures Value(s[1..], base) <= Value(s, base)
    ensures DigitValue(s[0]) > 0 ==> Value(s[1..], base) < Value(s, base)
  {
    var k := |s| - 1;
    if k == 0 {
      assert s[..0] == "" && s[1..] == "";
    } else {
      ValueBehind(s[..k], base);
      assert s[1..][..k - 1] == s[..k][1..];
      Products(Value(s[..k][1..], base), Value(s[..k], base), base, base);
      if DigitValue(s[0]) > 0 {
        StrictProduct(Value(s[..k][1..], base), Value(s[..k], base), base);
      }
    }
  }

  lemma WrapOnce(x: nat, y: nat)
    requires x < TWO32 && y < TWO32 && Wrap(x) == Wrap(y)
    ensures x == y
  {
  }

  // Read in another base than they were written in, more than one digit give
  // less.
  lemma OtherBase(m: nat, base: nat, ten: char)
    requires 8 < base <= 36 && (ten == 'a' || ten == 'A') && base <= m
    ensures Value(Digits(m, base, ten), 8) < m
  {
    var digits := Digits(m, base, ten);
    DigitsValue(m, base, ten);
    DigitsValue(m / base, base, ten);
    assert digits[..|digits| - 1] == Digits(m / base, base, ten);
    assert m / base > 0;
    ValueGrows(digits, 8, base);
  }

  lemma BehindFirst(m: nat, base: nat, ten: char)
    requires 16 <= base <= 36 && (ten == 'a' || ten == 'A') && m > 0
    ensures Value(Digits(m, base, ten)[1..], 16) < m
  {
    var digits := Digits(m, base, ten);
    DigitsShape(m, base, ten);
    DigitsValue(m, base, ten);
    ValueBehind(digits, base);
    ValueGrows(digits[1..], 16, base);
  }

  // A number below eight has one digit, in any such base, and that is below eight.
  lemma SmallDigit(m: nat, base: nat, ten: char)
    requires 8 <= base <= 36 && (ten == 'a' || ten == 'A')
    ensures m < 8 ==> |Digits(m, base, ten)| == 1 && DigitValue(Digits(m, base, ten)[0]) == m
    ensures m < base && m >= 8 ==> |Digits(m, base, ten)| == 1 && DigitValue(Digits(m, base, ten)[0]) >= 8
  {
    if m < base {
      DigitCharValue(m, ten);
    }
  }

  lemma ReadOctal(m: nat, base: nat, ten: char)
    requires 8 <= base <= 36 && (ten == 'a' || ten == 'A') && m < TWO32
    requires forall k | 0 <= k < |Digits(m, base, ten)| :: DigitValue(Digits(m, base, ten)[k]) < 8
    ensures Wrap(Value(Digits(m, base, ten), 8)) == Wrap(m) <==> base == 8 || m < 8
  {
    DigitsValue(m, base, ten);
    SmallDigit(m, base, ten);
    if m < 8 {
      assert Digits(m, base, ten)[..0] == "";
    } else if base > 8 {
      OtherBase(m, base, ten);
      if Wrap(Value(Digits(m, base, ten), 8)) == Wrap(m) {
        WrapOnce(Value(Digits(m, base, ten), 8), m);
      }
    }
  }

  // In bases beyond 33 a first digit x makes it a hexadecimal number.
  lemma ReadCross(s: string, m: nat, base: nat, ten: char)
    requires 8 <= base <= 36 && (ten == 'a' || ten == 'A') && m < TWO32
    requires s == "0" + Digits(m, base, ten) && Digits(m, base, ten)[0] == 'x'
    ensures Parsed(s, base) != (Wrap(m), |s|) && base > 8 && m >= 8
  {
    var digits := Digits(m, base, ten);
    DigitsShape(m, base, ten);
    SmallDigit(m, base, ten);
    assert DigitValue(digits[0]) == 33;
    assert s[0] == '0' && s[1] == 'x' && Blanks(s, 0) == 0;
    BehindFirst(m, base, ten);
    assert s[2..] == digits[1..];
    if Parsed(s, base) == (Wrap(m), |s|) {
      assert s[2..|s|] == digits[1..];
      WrapOnce(Value(digits[1..], 16), m);
    }
  }

  // A zero in front makes the rest octal, an x behind it apart.
  lemma ZerosPrefix(s: string, n: nat, rest: string, base: nat)
    requires n > 0 && s == Fill(n, '0') + rest && CharAt(s, 1) != 'x'
    ensures PrefixOf(s, base) == Prefix(1, 8, 1) && s[1..] == Fill(n - 1, '0') + rest
  {
    assert s[0] == '0' && Blanks(s, 0) == 0;
  }

  lemma OctalBehind(s: string, base: nat, digits: string)
    requires PrefixOf(s, base) == Prefix(1, 8, 1) && s[1..] == digits
    requires forall k | 0 <= k < |digits| :: DigitValue(digits[k]) < 8
    ensures Parsed(s, base) == (Wrap(Value(digits, 8)), |s|)
  {
    ParsedIs(s, base, Prefix(1, 8, 1), digits);
    assert 1 * Value(digits, 8) == Value(digits, 8);
  }

  // Zeros and then octal digits are read in base 8, to the end;
  lemma ZerosOctal(s: string, n: nat, digits: string, base: nat)
    requires n > 0 && s == Fill(n, '0') + digits && CharAt(s, 1) != 'x'
    requires forall k | 0 <= k < |digits| :: DigitValue(digits[k]) < 8
    ensures Parsed(s, base) == (Wrap(Value(digits, 8)), |s|)
  {
    ZerosPrefix(s, n, digits, base);
    OctalBehind(s, base, Fill(n - 1, '0') + digits);
    ValueZeros(n - 1, digits, 8);
  }

  // other digits end the reading.
  lemma ZerosStop(s: string, n: nat, digits: string, base: nat)
    requires n > 0 && s == Fill(n, '0') + digits && CharAt(s, 1) != 'x'
    requires exists k :: 0 <= k < |digits| && DigitValue(digits[k]) >= 8
    ensures Parsed(s, base).1 != |s|
  {
    var k :| 0 <= k < |digits| && DigitValue(digits[k]) >= 8;
    ZerosPrefix(s, n, digits, base);
    assert s[n + k] == digits[k];
  }

  // A number of at least one zero and then digits, as strtol takes it.
  lemma ReadZeros(s: string, n: nat, m: nat, base: nat, ten: char)
    requires 8 <= base <= 36 && (ten == 'a' || ten == 'A') && n > 0 && m < TWO32
    requires s == Fill(n, '0') + Digits(m, base, ten)
    ensures Parsed(s, base) == (Wrap(m), |s|) <==> base == 8 || m < 8
  {
    var digits := Digits(m, base, ten);
    DigitsShape(m, base, ten);
    DigitsValue(m, base, ten);
    if CharAt(s, 1) == 'x' {
      assert n == 1 && digits[0] == 'x';
      ReadCross(s, m, base, ten);
    } else if forall k | 0 <= k < |digits| :: DigitValue(digits[k]) < 8 {
      ZerosOctal(s, n, digits, base);
      ReadOctal(m, base, ten);
    } else {
      ZerosStop(s, n, digits, base);
      SmallDigit(m, base, ten);
    }
  }

  // A minus sign behind zeros is not read.
  lemma ReadSign(s: string, n: nat, digits: string, base: nat)
    requires n > 0 && s == Fill(n, '0') + ("-" + digits)
    ensures Parsed(s, base).1 != |s|
  {
    assert s[0] == '0' && s[n] == '-' && Blanks(s, 0) == 0;
    assert PrefixOf(s, base) == Prefix(1, 8, 1);
  }

  // Zero padding that has an effect is read back in base 8, or below 8, and
  // never with a minus sign. (Below base 8 a number of one digit is, too.)
  lemma ZeroPadded(value: nat, f: Format)
    requires value < TWO32 && f.Ok() && f.base >= 8
    requires f.zeropad && f.width > |Body(value, f)|
    ensures Parsed(Text(value, f), f.base) == (Wrap(value), |Text(value, f)|)
       <==> !Negative(value, f.isSigned) && (f.base == 8 || value < 8)
  {
    var n := f.width - |Body(value, f)|;
    var digits := Digits(Magnitude(value, f.isSigned), f.base, f.ten);
    if Negative(value, f.isSigned) {
      ReadSign(Text(value, f), n, digits, f.base);
    } else {
      assert "" + digits == digits;
      ReadZeros(Text(value, f), n, value, f.base, f.ten);
    }
  }
}
