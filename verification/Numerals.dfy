// Numerals in a base: what src/lib/stdlib/strtol.c reads and what itoa.c writes.
module Numerals {
  import opened Word32

  // Strings stop where the C string has its terminating NUL.
  function CharAt(s: string, i: nat): char {
    if i < |s| then s[i] else '\0'
  }

  // The value of a digit character in any base up to 36; 36 for other characters.
  function DigitValue(c: char): (d: nat)
    ensures d <= 36
  {
    if '0' <= c <= '9' then c as int - '0' as int
    else if 'A' <= c <= 'Z' then c as int - 'A' as int + 10
    else if 'a' <= c <= 'z' then c as int - 'a' as int + 10
    else 36
  }

  // How many characters from i on are digits of the base.
  function RunLength(s: string, i: nat, base: nat): (n: nat)
    requires i <= |s|
    ensures i + n <= |s|
    ensures forall k | i <= k < i + n :: DigitValue(s[k]) < base
    ensures i + n < |s| ==> base <= DigitValue(s[i + n])
    decreases |s| - i
  {
    if i < |s| && DigitValue(s[i]) < base then 1 + RunLength(s, i + 1, base) else 0
  }

  // The number a string of digits stands for.
  function Value(s: string, base: nat): nat {
    if s == [] then 0 else Value(s[..|s| - 1], base) * base + DigitValue(s[|s| - 1])
  }

  // What comes before the digits: where they start, the base they are read in
  // and the sign.
  datatype Prefix = Prefix(start: nat, base: nat, sign: int)

  function Blanks(s: string, i: nat): (n: nat)
    requires i <= |s|
    ensures i + n <= |s|
    ensures forall k | i <= k < i + n :: s[k] == ' ' || s[k] == '\t'
    ensures i + n < |s| ==> s[i + n] != ' ' && s[i + n] != '\t'
    decreases |s| - i
  {
    if i < |s| && (s[i] == ' ' || s[i] == '\t') then 1 + Blanks(s, i + 1) else 0
  }

  function PrefixOf(s: string, base: nat): (p: Prefix)
    ensures p.start <= |s|
  {
    var i := Blanks(s, 0);
    match CharAt(s, i)
    case '-' => Prefix(i + 1, base, -1)
    case '0' => if CharAt(s, i + 1) == 'x' then Prefix(i + 2, 16, 1) else Prefix(i + 1, 8, 1)
    case '$' => Prefix(i + 1, 16, 1)
    case _ => Prefix(i, base, 1)
  }

  // strtol's result and the index its end pointer is left at.
  function Parsed(s: string, base: nat): (int, nat) {
    var p := PrefixOf(s, base);
    var n := RunLength(s, p.start, p.base);
    (Wrap(p.sign * Value(s[p.start..p.start + n], p.base)), p.start + n)
  }

  lemma ValueAppend(s: string, c: char, base: nat)
    ensures Value(s + [c], base) == Value(s, base) * base + DigitValue(c)
  {
    assert (s + [c])[..|s|] == s;
  }

  lemma WrapDigit(v: int, base: int, d: int)
    ensures Wrap(Wrap(Wrap(v) * base) + d) == Wrap(v * base + d)
  {
    WrapLinear(v, base, 0);
    WrapLinear(v * base, 1, d);
  }

  lemma NextDigit(s: string, start: nat, i: nat, base: nat)
    requires start <= i < |s|
    ensures Wrap(Wrap(Wrap(Value(s[start..i], base)) * base) + DigitValue(s[i])) == Wrap(Value(s[start..i + 1], base))
  {
    assert s[start..i + 1] == s[start..i] + [s[i]];
    ValueAppend(s[start..i], s[i], base);
    WrapDigit(Value(s[start..i], base), base, DigitValue(s[i]));
  }

  // The digit loop, from `start` on.
  method ReadDigits(nptr: string, start: nat, base: nat) returns (num: int, i: nat)
    requires start <= |nptr| && 2 <= base <= 36
    ensures i == start + RunLength(nptr, start, base)
    ensures num == Wrap(Value(nptr[start..i], base))
  {
    num := 0;
    i := start;
    while true
      invariant start <= i <= |nptr|
      invariant i + RunLength(nptr, i, base) == start + RunLength(nptr, start, base)
      invariant num == Wrap(Value(nptr[start..i], base))
      decreases |nptr| - i
    {
      var b: nat;
      var c := CharAt(nptr, i);
      if '0' <= c <= '9' {
        b := c as int - '0' as int;
      } else if 'A' <= c <= 'Z' {
        b := c as int - 'A' as int + 10;
      } else if 'a' <= c <= 'z' {
        b := c as int - 'a' as int + 10;
      } else {
        b := base;
      }
      if b >= base {
        break;
      }
      NextDigit(nptr, start, i, base);
      num := Wrap(num * base);
      num := Wrap(num + b);
      i := i + 1;
    }
  }

  method SkipBlanks(nptr: string) returns (i: nat)
    ensures i == Blanks(nptr, 0)
  {
    i := 0;
    while CharAt(nptr, i) == ' ' || CharAt(nptr, i) == '\t'
      invariant i <= |nptr| && i + Blanks(nptr, i) == Blanks(nptr, 0)
      decreases |nptr| - i
    {
      i := i + 1;
    }
  }

  // Sign or base prefix: where the digits start, their base and their sign.
  method SkipPrefix(nptr: string, base: nat) returns (i: nat, theBase: nat, sign: int)
    ensures PrefixOf(nptr, base) == Prefix(i, theBase, sign)
  {
    theBase := base;
    sign := 1;
    i := SkipBlanks(nptr);
    if CharAt(nptr, i) == '-' {
      sign := -1;
      i := i + 1;
    } else if CharAt(nptr, i) == '0' {
      if CharAt(nptr, i + 1) == 'x' {
        theBase := 16;
        i := i + 2;
      } else {
        theBase := 8;
        i := i + 1;
      }
    } else if CharAt(nptr, i) == '$' {
      theBase := 16;
      i := i + 1;
    }
  }

  lemma ParsedFrom(s: string, base: nat, p: Prefix, stop: nat)
    requires PrefixOf(s, base) == p && stop == p.start + RunLength(s, p.start, p.base)
    ensures Parsed(s, base) == (Wrap(Wrap(Value(s[p.start..stop], p.base)) * p.sign), stop)
  {
    WrapLinear(Value(s[p.start..stop], p.base), p.sign, 0);
  }

  method Strtol(nptr: string, base: nat) returns (r: int, end: nat)
    requires 2 <= base <= 36
    ensures (r, end) == Parsed(nptr, base)
  {
    var i, theBase, sign := SkipPrefix(nptr, base);
    var num, stop := ReadDigits(nptr, i, theBase);
    ParsedFrom(nptr, base, Prefix(i, theBase, sign), stop);
    return Wrap(num * sign), stop;
  }

  // ----- writing -------------------------------------------------------------------

  // The character itoa_padded writes for a digit, given its character for ten.
  function DigitChar(d: nat, ten: char): char
    requires d < 36 && (ten == 'a' || ten == 'A')
  {
    if d < 10 then '0' + d as char else ten + (d - 10) as char
  }

  // Not one of the characters strtol looks for in front of the digits.
  predicate Plain(c: char) { c != ' ' && c != '\t' && c != '-' && c != '$' }

  lemma DigitCharValue(d: nat, ten: char)
    requires d < 36 && (ten == 'a' || ten == 'A')
    ensures DigitValue(DigitChar(d, ten)) == d
    ensures DigitChar(d, ten) == '0' <==> d == 0
    ensures Plain(DigitChar(d, ten))
    ensures d < 10 ==> '0' <= DigitChar(d, ten) <= '9'
  {
  }

  // Which is the usual one.
  lemma DigitIs(d: nat, ten: char)
    requires d < 36 && (ten == 'a' || ten == 'A')
    ensures DigitChar(d, ten) == (if ten == 'a' then "0123456789abcdefghijklmnopqrstuvwxyz"
                                  else "0123456789ABCDEFGHIJKLMNOPQRSTUVWXYZ")[d]
  {
  }

  // The digits of n, most significant first and without leading zeros.
  function Digits(n: nat, base: nat, ten: char): (s: string)
    requires 2 <= base <= 36 && (ten == 'a' || ten == 'A')
    ensures |s| > 0
    decreases n
  {
    if n < base then [DigitChar(n, ten)] else Digits(n / base, base, ten) + [DigitChar(n % base, ten)]
  }

  lemma DivMod(n: nat, base: nat)
    requires base > 0
    ensures (n / base) * base + n % base == n
  {
  }

  lemma {:induction false} DigitsValue(n: nat, base: nat, ten: char)
    requires 2 <= base <= 36 && (ten == 'a' || ten == 'A')
    ensures Value(Digits(n, base, ten), base) == n
    decreases n
  {
    if n < base {
      DigitCharValue(n, ten);
      assert "" + [DigitChar(n, ten)] == [DigitChar(n, ten)];
      ValueAppend("", DigitChar(n, ten), base);
    } else {
      DigitsValue(n / base, base, ten);
      DigitCharValue(n % base, ten);
      ValueAppend(Digits(n / base, base, ten), DigitChar(n % base, ten), base);
      DivMod(n, base);
    }
  }

  lemma {:induction false} DigitsShape(n: nat, base: nat, ten: char)
    requires 2 <= base <= 36 && (ten == 'a' || ten == 'A')
    ensures forall i | 0 <= i < |Digits(n, base, ten)| :: DigitValue(Digits(n, base, ten)[i]) < base
    ensures Digits(n, base, ten)[0] == '0' <==> n == 0
    ensures Plain(Digits(n, base, ten)[0])
    decreases n
  {
    if n < base {
      DigitCharValue(n, ten);
    } else {
      DigitsShape(n / base, base, ten);
      DigitCharValue(n % base, ten);
    }
  }
}
