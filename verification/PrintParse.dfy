/**
 printnum of lib/printfmt.c and strtol of lib/string.c: parsing what was printed
 gives the number back.
 */
module PrintParse {

  const WORD: int := 0x1_0000_0000
  const SIGN: int := 0x8000_0000

  // ----- printing -----

  function DigitChar(d: nat): char
    requires d < 16
  {
    "0123456789abcdef"[d]
  }

  function Rest(n: nat, base: nat): (q: nat)
    requires 2 <= base
    ensures n >= base ==> q < n
  {
    n / base
  }

  function LastDigit(n: nat, base: nat): (d: nat)
    requires 2 <= base
    ensures d < base && n == Rest(n, base) * base + d && (n < base ==> d == n)
  {
    n % base
  }

  /** The digits of n, most significant first. */
  function Digits(n: nat, base: nat): (r: string)
    requires 2 <= base <= 16
    ensures r != []
  {
    if n >= base then Digits(Rest(n, base), base) + [DigitChar(LastDigit(n, base))] else [DigitChar(n)]
  }

  function Pads(k: int, pad: char): (r: string)
    ensures |r| == if k > 0 then k else 0
    ensures forall i :: 0 <= i < |r| ==> r[i] == pad
  {
    if k <= 0 then [] else Pads(k - 1, pad) + [pad]
  }

  /** What printnum writes: the digits, padded on the left to the width. */
  function Printed(n: nat, base: nat, width: int, pad: char): string
    requires 2 <= base <= 16
  {
    Pads(width - |Digits(n, base)|, pad) + Digits(n, base)
  }

  function Power(base: nat, k: nat): nat {
    if k == 0 then 1 else base * Power(base, k - 1)
  }

  /** k digits are needed and enough. */
  predicate HasDigits(n: nat, base: nat, k: nat) {
    0 < k && n < Power(base, k) && (n == 0 ==> k == 1) && (0 < n ==> Power(base, k - 1) <= n)
  }

  lemma Times(base: nat, a: nat, b: nat)
    requires a <= b
    ensures base * a <= base * b && a * base == base * a
  {
  }

  lemma RestBounds(n: nat, base: nat, p: nat, q: nat)
    requires 2 <= base && Rest(n, base) < p && q <= Rest(n, base)
    ensures n < base * p && base * q <= n
  {
    var r, d := Rest(n, base), LastDigit(n, base);
    hide Rest, LastDigit;
    Times(base, r + 1, p);
    Times(base, q, r);
  }

  lemma {:induction false} DigitCount(n: nat, base: nat)
    requires 2 <= base <= 16
    ensures HasDigits(n, base, |Digits(n, base)|)
    decreases n
  {
    if n >= base {
      var r := Rest(n, base);
      var k := |Digits(r, base)|;
      DigitCount(r, base);
      assert 0 < r;
      RestBounds(n, base, Power(base, k), Power(base, k - 1));
      assert |Digits(n, base)| == k + 1 && Power(base, k + 1) == base * Power(base, k);
    } else {
      assert Power(base, 1) == base * Power(base, 0) == base;
    }
  }

  /**
   The length of the output is the width or the number of digits the base needs,
   whichever is larger: k digits when n is below base^k and not below base^(k-1).
   */
  lemma PrintedLength(n: nat, base: nat, width: int, pad: char, k: nat)
    requires 2 <= base <= 16 && HasDigits(n, base, k)
    ensures |Printed(n, base, width, pad)| == if width > k then width else k
    ensures forall i :: 0 <= i < width - k ==> Printed(n, base, width, pad)[i] == pad
    ensures Printed(n, base, width, pad)[if width > k then width - k else 0..] == Digits(n, base)
  {
    DigitCount(n, base);
    DigitsUnique(n, base, k, |Digits(n, base)|);
  }

  lemma {:induction false} PowerGrows(base: nat, j: nat, k: nat)
    requires 2 <= base && j <= k
    ensures Power(base, j) <= Power(base, k)
  {
    if j < k {
      PowerGrows(base, j, k - 1);
    }
  }

  lemma DigitsUnique(n: nat, base: nat, j: nat, k: nat)
    requires 2 <= base && HasDigits(n, base, j) && HasDigits(n, base, k)
    ensures j == k
  {
    if j < k {
      PowerGrows(base, j, k - 1);
    } else if k < j {
      PowerGrows(base, k, j - 1);
    }
  }

  /** Where the characters given to putch go. */
  class Console {
    var out: string

    constructor ()
      ensures out == ""
    {
      out := "";
    }

    method Putch(c: char)
      modifies this
      ensures out == old(out) + [c]
    {
      out := out + [c];
    }

    /** The pad characters before the first digit. */
    method PutPads(width: int, padc: char)
      modifies this
      ensures out == old(out) + Pads(width - 1, padc)
    {
      var w := width - 1;
      ghost var k := 0;
      while w > 0
        invariant 0 <= k && w == width - 1 - k && (k == 0 || 0 <= w)
        invariant out == old(out) + Pads(k, padc)
      {
        Putch(padc);
        w := w - 1;
        k := k + 1;
      }
      assert k == 0 ==> Pads(width - 1, padc) == Pads(0, padc);
    }

    /** printnum */
    method PrintNum(num: nat, base: nat, width: int, padc: char)
      requires 2 <= base <= 16
      modifies this
      ensures out == old(out) + Printed(num, base, width, padc)
      decreases num
    {
      PrintedStep(num, base, width, padc);
      hide Printed, Rest, LastDigit, DigitChar, Pads;
      if num >= base {
        PrintNum(Rest(num, base), base, width - 1, padc);
      } else {
        PutPads(width, padc);
      }
      Putch(DigitChar(LastDigit(num, base)));
    }
  }

  lemma PrintedStep(n: nat, base: nat, width: int, pad: char)
    requires 2 <= base <= 16
    ensures Printed(n, base, width, pad) ==
            (if n >= base then Printed(Rest(n, base), base, width - 1, pad) else Pads(width - 1, pad))
            + [DigitChar(LastDigit(n, base))]
  {
    hide Rest, LastDigit, DigitChar, Pads;
  }

  // ----- parsing -----

  /** A long is 32 bits and wraps around. */
  function Wrap(x: int): int {
    (x + SIGN) % WORD - SIGN
  }

  /** The value of a digit character, or -1. */
  function DigitOf(c: char): int {
    if '0' <= c <= '9' then c as int - '0' as int
    else if 'a' <= c <= 'z' then c as int - 'a' as int + 10
    else if 'A' <= c <= 'Z' then c as int - 'A' as int + 10
    else -1
  }

  predicate IsDigit(c: char, base: int) {
    0 <= DigitOf(c) < base
  }

  function Accumulate(v: int, base: int, dig: int): int {
    Wrap(v * base + dig)
  }

  /** The value the digit loop accumulates. */
  function Value(t: string, base: int): int {
    if t == [] then 0 else Accumulate(Value(t[..|t| - 1], base), base, DigitOf(t[|t| - 1]))
  }

  /** The character at a position of a NUL-terminated string. */
  function At(s: string, i: nat): char {
    if i < |s| then s[i] else '\0'
  }

  /** The first position from i on whose character is no blank. */
  function SkipBlanks(s: string, i: nat): (k: nat)
    requires i <= |s|
    ensures i <= k <= |s| && (k < |s| ==> s[k] != ' ' && s[k] != '\t')
    ensures forall j :: i <= j < k ==> s[j] == ' ' || s[j] == '\t'
    decreases |s| - i
  {
    if i < |s| && (s[i] == ' ' || s[i] == '\t') then SkipBlanks(s, i + 1) else i
  }

  /** The first position from i on that is no digit of the base. */
  function SkipDigits(s: string, i: nat, base: int): (k: nat)
    requires i <= |s|
    ensures i <= k <= |s| && (k < |s| ==> !IsDigit(s[k], base))
    ensures forall j :: i <= j < k ==> IsDigit(s[j], base)
    decreases |s| - i
  {
    if i < |s| && IsDigit(s[i], base) then SkipDigits(s, i + 1, base) else i
  }

  /** Position and base after the optional prefix 0x or 0. */
  function Prefix(s: string, i: nat, base: int): (r: (nat, int))
    requires i <= |s|
    ensures i <= r.0 <= |s|
  {
    if (base == 0 || base == 16) && At(s, i) == '0' && At(s, i + 1) == 'x' then (i + 2, 16)
    else if base == 0 && At(s, i) == '0' then (i + 1, 8)
    else if base == 0 then (i, 10)
    else (i, base)
  }

  /** The number strtol returns and the position where it stops. */
  function Parsed(s: string, base: int): (int, nat) {
    var b := SkipBlanks(s, 0);
    var neg := At(s, b) == '-';
    var i := if At(s, b) == '+' || neg then b + 1 else b;
    var (start, radix) := Prefix(s, i, base);
    var end := SkipDigits(s, start, radix);
    var v := Value(s[start..end], radix);
    (if neg then Wrap(-v) else v, end)
  }

  lemma ValueOfNone(base: int)
    ensures Value([], base) == 0
  {
  }

  lemma ValueNext(t: string, c: char, base: int)
    ensures Value(t + [c], base) == Accumulate(Value(t, base), base, DigitOf(c))
  {
    assert (t + [c])[..|t|] == t;
  }

  lemma SkipStep(s: string, i: nat, base: int)
    requires i <= |s| && '\0' !in s
    ensures IsDigit(At(s, i), base) ==> i < |s| && At(s, i) == s[i] && SkipDigits(s, i, base) == SkipDigits(s, i + 1, base)
    ensures !IsDigit(At(s, i), base) ==> SkipDigits(s, i, base) == i
  {
  }

  /** What the comparisons of the loop find out about a character. */
  lemma CharIs(c: char, base: int)
    ensures '0' <= c <= '9' ==> DigitOf(c) == c as int - '0' as int && (IsDigit(c, base) <==> DigitOf(c) < base)
    ensures 'a' <= c <= 'z' ==> DigitOf(c) == c as int - 'a' as int + 10 && (IsDigit(c, base) <==> DigitOf(c) < base)
    ensures 'A' <= c <= 'Z' ==> DigitOf(c) == c as int - 'A' as int + 10 && (IsDigit(c, base) <==> DigitOf(c) < base)
    ensures !('0' <= c <= '9') && !('a' <= c <= 'z') && !('A' <= c <= 'Z') ==> !IsDigit(c, base)
  {
  }

  lemma SliceNext(s: string, start: nat, i: nat)
    requires start <= i < |s|
    ensures s[start..i + 1] == s[start..i] + [s[i]]
  {
  }

  /** The digit loop of strtol, from position start. */
  method ReadDigits(s: string, start: nat, base: int) returns (val: int, i: nat)
    requires start <= |s| && '\0' !in s
    ensures i == SkipDigits(s, start, base) && val == Value(s[start..i], base)
  {
    hide *;
    val, i := 0, start;
    ValueOfNone(base);
    assert s[start..start] == [];
    while true
      invariant start <= i <= |s| && val == Value(s[start..i], base)
      invariant SkipDigits(s, start, base) == SkipDigits(s, i, base)
      decreases |s| - i
    {
      SkipStep(s, i, base);
      CharIs(At(s, i), base);
      var dig;
      var c := At(s, i);
      if '0' <= c <= '9' {
        dig := c as int - '0' as int;
      } else if 'a' <= c <= 'z' {
        dig := c as int - 'a' as int + 10;
      } else if 'A' <= c <= 'Z' {
        dig := c as int - 'A' as int + 10;
      } else {
        break;
      }
      if dig >= base {
        break;
      }
      SliceNext(s, start, i);
      ValueNext(s[start..i], c, base);
      i := i + 1;
      val := Accumulate(val, base, dig);
    }
  }

  /** The loop of strtol over initial blanks. */
  method ReadBlanks(s: string) returns (i: nat)
    requires '\0' !in s
    ensures i == SkipBlanks(s, 0)
  {
    i := 0;
    while At(s, i) == ' ' || At(s, i) == '\t'
      invariant i <= |s| && SkipBlanks(s, i) == SkipBlanks(s, 0)
      decreases |s| - i
    {
      i := i + 1;
    }
  }

  /** strtol on a NUL-terminated string, which holds no other NUL. */
  method Strtol(s: string, base0: int) returns (val: int, i: nat)
    requires '\0' !in s
    ensures (val, i) == Parsed(s, base0)
  {
    hide Value, DigitOf, IsDigit, SkipDigits, SkipBlanks, Wrap;
    var neg := false;
    var base := base0;
    i := ReadBlanks(s);
    if At(s, i) == '+' {
      i := i + 1;
    } else if At(s, i) == '-' {
      i, neg := i + 1, true;
    }
    if (base == 0 || base == 16) && At(s, i) == '0' && At(s, i + 1) == 'x' {
      i, base := i + 2, 16;
    } else if base == 0 && At(s, i) == '0' {
      i, base := i + 1, 8;
    } else if base == 0 {
      base := 10;
    }
    val, i := ReadDigits(s, i, base);
    if neg {
      val := Wrap(-val);
    }
  }

  // ----- round trip -----

  lemma DigitRoundTrip(d: nat, base: nat)
    requires d < base <= 16
    ensures DigitOf(DigitChar(d)) == d && IsDigit(DigitChar(d), base) && DigitChar(d) != 'x'
    ensures DigitChar(d) != ' ' && DigitChar(d) != '\t' && DigitChar(d) != '+' && DigitChar(d) != '-'
  {
  }

  /** Every printed digit is a digit of the base. */
  lemma {:induction false} DigitsAreDigits(n: nat, base: nat)
    requires 2 <= base <= 16
    ensures forall i :: 0 <= i < |Digits(n, base)| ==>
              var c := Digits(n, base)[i];
              IsDigit(c, base) && c != 'x' && c != ' ' && c != '\t' && c != '+' && c != '-'
  {
    hide Rest, LastDigit, DigitChar, IsDigit;
    DigitRoundTrip(LastDigit(n, base), base);
    if n >= base {
      DigitsAreDigits(Rest(n, base), base);
    }
  }

  lemma WrapStep(a: int, base: nat, d: int)
    ensures Wrap(Wrap(a) * base + d) == Wrap(a * base + d)
  {
    var k := (a + SIGN) / WORD;
    assert Wrap(a) == a - k * WORD;
    assert (k * base) * WORD == k * WORD * base;
    assert Wrap(a) * base + d == a * base + d - (k * base) * WORD;
    WrapPeriodic(a * base + d, k * base);
  }

  lemma WrapPeriodic(x: int, k: int)
    ensures Wrap(x - k * WORD) == Wrap(x)
  {
    var y := x + SIGN;
    var q := y / WORD;
    assert y - k * WORD == (q - k) * WORD + y % WORD;
  }

  /** The signed 32-bit number congruent to x. */
  lemma WrapIs(x: int)
    ensures -0x8000_0000 <= Wrap(x) < 0x8000_0000 && (x - Wrap(x)) % 0x1_0000_0000 == 0
  {
    var q := (x + SIGN) / WORD;
    assert x - Wrap(x) == q * WORD;
  }

  lemma WrapIff(n: nat)
    ensures Wrap(n) == n <==> n < SIGN
  {
  }

  /** The loop reads the digits of n as n, wrapped to 32 bits, after any characters worth 0. */
  lemma {:induction false} ValueOfDigits(z: string, n: nat, base: nat)
    requires 2 <= base <= 16 && Value(z, base) == 0
    ensures Value(z + Digits(n, base), base) == Wrap(n)
  {
    hide Wrap, Value, DigitOf, DigitChar, Rest, LastDigit, Accumulate;
    var d := LastDigit(n, base);
    DigitRoundTrip(d, base);
    if n >= base {
      var q := Rest(n, base);
      ValueOfDigits(z, q, base);
      ValueNext(z + Digits(q, base), DigitChar(d), base);
      assert z + Digits(n, base) == z + Digits(q, base) + [DigitChar(d)];
      AccumulateWraps(q, base, d);
    } else {
      ValueNext(z, DigitChar(n), base);
      AccumulateWraps(0, base, n);
      WrapZero(base, n);
    }
  }

  lemma AccumulateWraps(q: nat, base: nat, d: nat)
    ensures Accumulate(Wrap(q), base, d) == Wrap(q * base + d)
  {
    hide Wrap;
    WrapStep(q, base, d);
  }

  lemma WrapZero(base: nat, n: nat)
    ensures Wrap(0) == 0 && 0 * base + n == n
  {
  }

  lemma ValueOfZeros(k: int, base: nat)
    ensures Value(Pads(k, '0'), base) == 0
  {
    if k > 0 {
      ValueOfZeros(k - 1, base);
      ValueNext(Pads(k - 1, '0'), '0', base);
      assert Accumulate(0, base, DigitOf('0')) == 0;
    }
  }

  lemma SkipBlanksIs(s: string, k: nat)
    requires k <= |s| && (forall i :: 0 <= i < k ==> s[i] == ' ') && (k < |s| ==> s[k] != ' ' && s[k] != '\t')
    ensures SkipBlanks(s, 0) == k
  {
  }

  lemma SkipDigitsAll(s: string, i: nat, base: int)
    requires i <= |s| && forall j :: i <= j < |s| ==> IsDigit(s[j], base)
    ensures SkipDigits(s, i, base) == |s|
  {
  }

  /**
   strtol on printnum's output, in the same base and padded by blanks or zeros,
   consumes all of it and returns the number modulo 2^32 as a signed long.
   */
  lemma ParsePrinted(n: nat, base: nat, width: int, pad: char)
    requires 2 <= base <= 16 && (pad == ' ' || pad == '0')
    ensures Parsed(Printed(n, base, width, pad), base) == (Wrap(n), |Printed(n, base, width, pad)|)
  {
    hide *;
    var s := Printed(n, base, width, pad);
    var start := if pad == ' ' then |s| - |Digits(n, base)| else 0;
    PrintedShape(n, base, width, pad);
    PrintedValue(n, base, width, pad);
    ParseShape(s, start, base);
  }

  /** Blanks up to a position, then digits only. */
  ghost predicate Shape(s: string, start: nat, base: int) {
    && start < |s| && (forall i :: 0 <= i < start ==> s[i] == ' ')
    && forall i :: start <= i < |s| ==>
         IsDigit(s[i], base) && s[i] != 'x' && s[i] != ' ' && s[i] != '\t' && s[i] != '+' && s[i] != '-'
  }

  lemma ParseShape(s: string, start: nat, base: int)
    requires Shape(s, start, base) && 2 <= base
    ensures start <= |s| && Parsed(s, base) == (Value(s[start..], base), |s|)
  {
    hide Value, Wrap, IsDigit;
    SkipBlanksIs(s, start);
    SkipDigitsAll(s, start, base);
    assert s[start..|s|] == s[start..];
  }

  lemma PrintedShape(n: nat, base: nat, width: int, pad: char)
    requires 2 <= base <= 16 && (pad == ' ' || pad == '0')
    ensures var s := Printed(n, base, width, pad);
      && |Digits(n, base)| <= |s|
      && Shape(s, if pad == ' ' then |s| - |Digits(n, base)| else 0, base)
  {
    DigitsAreDigits(n, base);
    ZeroIsDigit(base);
    hide Digits, IsDigit;
    var ds := Digits(n, base);
    var ps := Pads(width - |ds|, pad);
    assert forall i :: |ps| <= i < |ps + ds| ==> (ps + ds)[i] == ds[i - |ps|];
    assert forall i :: 0 <= i < |ps| ==> (ps + ds)[i] == pad;
  }

  lemma PrintedValue(n: nat, base: nat, width: int, pad: char)
    requires 2 <= base <= 16 && (pad == ' ' || pad == '0')
    ensures var s := Printed(n, base, width, pad);
      && |Digits(n, base)| <= |s|
      && Value(s[if pad == ' ' then |s| - |Digits(n, base)| else 0..], base) == Wrap(n)
  {
    hide Value, Wrap, Digits;
    var ds := Digits(n, base);
    var ps := Pads(width - |ds|, pad);
    if pad == ' ' {
      assert (ps + ds)[|ps|..] == [] + ds;
      ValueOfNone(base);
      ValueOfDigits([], n, base);
    } else {
      ValueOfZeros(width - |ds|, base);
      ValueOfDigits(ps, n, base);
      assert (ps + ds)[0..] == ps + ds;
    }
  }

  lemma ZeroIsDigit(base: nat)
    requires 2 <= base
    ensures IsDigit('0', base)
  {
  }

  /** The round trip returns the number itself exactly when it fits a signed 32-bit long. */
  lemma RoundTripIff(n: nat, base: nat, width: int, pad: char)
    requires 2 <= base <= 16 && (pad == ' ' || pad == '0')
    ensures Parsed(Printed(n, base, width, pad), base).0 == n <==> n < SIGN
  {
    ParsePrinted(n, base, width, pad);
    WrapIff(n);
  }

  // ----- what strtol reads -----

  const LOWER: string := "0123456789abcdefghijklmnopqrstuvwxyz"
  const UPPER: string := "0123456789ABCDEFGHIJKLMNOPQRSTUVWXYZ"

  /** c is the digit d, as a small or a capital letter from ten on. */
  predicate Spelled(c: char, d: nat) {
    |LOWER| == |UPPER| == 36 && d < 36 && (c == LOWER[d] || c == UPPER[d])
  }

  /** t is the digits ds of the base. */
  ghost predicate Spells(t: string, ds: seq<nat>, base: nat) {
    |t| == |ds| && forall i :: 0 <= i < |ds| ==> ds[i] < base && Spelled(t[i], ds[i])
  }

  /** The number with these digits. */
  function NumberOf(ds: seq<nat>, base: nat): nat {
    if ds == [] then 0 else NumberOf(ds[..|ds| - 1], base) * base + ds[|ds| - 1]
  }

  /** A character is worth d exactly if it is the digit d, and worth nothing if it is none. */
  lemma DigitIs(c: char)
    ensures forall d: nat :: DigitOf(c) == d <==> Spelled(c, d)
    ensures 0 <= DigitOf(c) ==> c != ' ' && c != '\t' && c != '+' && c != '-' && c != '\0'
    ensures c == 'x' <==> DigitOf(c) == 33 && c == LOWER[33]
  {
    forall d: nat
      ensures DigitOf(c) == d <==> Spelled(c, d)
    {
      if d < 36 {
        LetterIs(d);
      }
      if 0 <= DigitOf(c) {
        LetterIs(DigitOf(c));
      }
    }
  }

  lemma LetterIs(d: nat)
    requires d < 36
    ensures |LOWER| == |UPPER| == 36
    ensures LOWER[d] as int == if d < 10 then '0' as int + d else 'a' as int + d - 10
    ensures UPPER[d] as int == if d < 10 then '0' as int + d else 'A' as int + d - 10
  {
  }

  lemma {:induction false} ValueOfSpelled(t: string, ds: seq<nat>, base: nat)
    requires Spells(t, ds, base)
    ensures Value(t, base) == Wrap(NumberOf(ds, base))
  {
    hide Wrap, Accumulate, Spelled, DigitOf;
    if ds == [] {
      ValueOfNone(base);
      WrapZero(base, 0);
    } else {
      var k := |ds| - 1;
      assert t == t[..k] + [t[k]] && Spelled(t[k], ds[k]);
      ValueOfSpelled(t[..k], ds[..k], base);
      ValueNext(t[..k], t[k], base);
      DigitIs(t[k]);
      AccumulateWraps(NumberOf(ds[..k], base), base, ds[k]);
    }
  }

  lemma WrapNegated(n: int)
    ensures Wrap(-Wrap(n)) == Wrap(-n)
  {
    var k := (n + SIGN) / WORD;
    assert Wrap(n) == n - k * WORD;
    assert -Wrap(n) == -n - (-k) * WORD;
    WrapPeriodic(-n, -k);
  }

  /** The text before the digits makes strtol read them in that base. */
  ghost predicate Announces(prefix: string, base0: int, base: nat, ds: seq<nat>, rest: string) {
    || (prefix == "" && base0 == base && ds != [] && (base == 16 && ds == [0] ==> rest == "" || rest[0] != 'x'))
    || (prefix == "0x" && base == 16 && base0 in {0, 16})
    || (prefix == "0" && base == 8 && base0 == 0 && (ds == [] ==> rest == "" || rest[0] != 'x'))
    || (prefix == "" && base == 10 && base0 == 0 && ds != [] && ds[0] != 0)
  }

  /** rest does not go on with a digit of the base. */
  ghost predicate Ends(rest: string, base: nat) {
    rest == "" || forall d: nat :: d < base ==> !Spelled(rest[0], d)
  }

  lemma EndsIs(rest: string, base: nat)
    requires Ends(rest, base)
    ensures rest != "" ==> !IsDigit(rest[0], base)
  {
    if rest != "" {
      DigitIs(rest[0]);
      assert 0 <= DigitOf(rest[0]) ==> Spelled(rest[0], DigitOf(rest[0]));
    }
  }

  lemma {:induction false} SkipBlanksTo(s: string, i: nat, k: nat)
    requires i <= k <= |s| && (forall j :: i <= j < k ==> s[j] == ' ' || s[j] == '\t') && (k < |s| ==> s[k] != ' ' && s[k] != '\t')
    ensures SkipBlanks(s, i) == k
    decreases k - i
  {
    if i < k {
      SkipBlanksTo(s, i + 1, k);
    }
  }

  lemma {:induction false} SkipDigitsTo(s: string, i: nat, k: nat, base: int)
    requires i <= k <= |s| && (forall j :: i <= j < k ==> IsDigit(s[j], base)) && (k < |s| ==> !IsDigit(s[k], base))
    ensures SkipDigits(s, i, base) == k
    decreases k - i
  {
    if i < k {
      SkipDigitsTo(s, i + 1, k, base);
    }
  }

  lemma SpelledChars(t: string, ds: seq<nat>, base: nat)
    requires Spells(t, ds, base) && base <= 36
    ensures forall i :: 0 <= i < |t| ==> IsDigit(t[i], base) && t[i] != ' ' && t[i] != '\t' && t[i] != '+' && t[i] != '-'
    ensures forall i :: 0 <= i < |t| && t[i] == 'x' ==> ds[i] == 33
    ensures forall i :: 0 <= i < |t| && t[i] == '0' ==> ds[i] == 0
    ensures forall i :: 0 <= i < |t| && ds[i] == 0 ==> t[i] == '0'
  {
    forall i | 0 <= i < |t|
      ensures IsDigit(t[i], base) && t[i] != ' ' && t[i] != '\t' && t[i] != '+' && t[i] != '-'
      ensures t[i] == 'x' ==> ds[i] == 33
      ensures t[i] == '0' <==> ds[i] == 0
    {
      assert Spelled(t[i], ds[i]);
      DigitIs(t[i]);
      LetterIs(0);
    }
    hide Spelled;
  }

  lemma FirstTwo(s: string, c: nat, u: string)
    requires c <= |s| && s[c..] == u
    ensures At(s, c) == At(u, 0) && At(s, c + 1) == At(u, 1) && |s| == c + |u|
  {
    assert forall i :: 0 <= i < |u| ==> s[c + i] == u[i];
  }

  /** The first characters of prefix, digits and rest. */
  lemma FirstChars(prefix: string, t: string, ds: seq<nat>, rest: string, base0: int, base: nat)
    requires Spells(t, ds, base) && 2 <= base <= 36 && Announces(prefix, base0, base, ds, rest) && Ends(rest, base)
    ensures var u := prefix + t + rest;
      && (prefix == "0x" ==> At(u, 0) == '0' && At(u, 1) == 'x')
      && (prefix == "0" ==> At(u, 0) == '0' && At(u, 1) != 'x')
      && (prefix == "" ==> |t| > 0 && At(u, 0) == t[0])
      && (prefix == "" && base == 16 ==> !(At(u, 0) == '0' && At(u, 1) == 'x'))
      && (prefix == "" && base0 == 0 ==> At(u, 0) != '0')
  {
    SpelledChars(t, ds, base);
    hide Spells, Spelled, IsDigit, Ends;
    var u := prefix + t + rest;
    if prefix == "" {
      assert u == t + rest && u[0] == t[0];
      if |t| == 1 {
        assert ds == [ds[0]];
        assert rest != "" ==> u[1] == rest[0];
      } else {
        assert u[1] == t[1];
      }
    } else if prefix == "0" {
      assert u[0] == '0' && (|t| > 0 ==> u[1] == t[0]) && (|t| == 0 && rest != "" ==> u[1] == rest[0]);
    } else {
      assert u[0] == '0' && u[1] == 'x';
    }
  }

  /** What strtol finds after blanks and sign, read from position c on. */
  lemma PrefixIs(s: string, c: nat, prefix: string, t: string, ds: seq<nat>, rest: string, base0: int, base: nat)
    requires c <= |s| && s[c..] == prefix + t + rest && Spells(t, ds, base) && 2 <= base <= 36
    requires Announces(prefix, base0, base, ds, rest) && Ends(rest, base)
    ensures c + |prefix| <= |s| && Prefix(s, c, base0) == (c + |prefix|, base)
  {
    hide Spells, Ends, At;
    FirstTwo(s, c, prefix + t + rest);
    FirstChars(prefix, t, ds, rest, base0, base);
  }

  lemma Joined(a: string, b: string, c: string, d: string)
    ensures a + b + c + d == a + (b + c + d) && b + c + d == b + (c + d)
  {
  }

  lemma TailOf(s: string, i: nat, a: string, b: string)
    requires i <= |s| && s[i..] == a + b
    ensures i + |a| <= |s| && s[i + |a|..] == b
  {
    assert s[i + |a|..] == s[i..][|a|..];
  }

  predicate IsSign(sign: string) {
    sign == "" || sign == "+" || sign == "-"
  }

  function Signed(sign: string, n: nat): (r: int) {
    var m: int := n;
    if sign == "-" then -m else m
  }

  lemma SignedIs(n: nat)
    ensures Signed("-", n) + n == 0 && Signed("+", n) == n && Signed("", n) == n
    ensures forall sign: string :: sign != "-" ==> Signed(sign, n) == n
  {
  }

  /** Where blanks and sign end. */
  lemma SignIs(s: string, blanks: string, sign: string, tail: string)
    requires s == blanks + sign + tail && (forall i :: 0 <= i < |blanks| ==> blanks[i] == ' ' || blanks[i] == '\t')
    requires IsSign(sign) && (tail != "" ==> tail[0] != ' ' && tail[0] != '\t' && tail[0] != '+' && tail[0] != '-')
    ensures var b := |blanks|;
      && SkipBlanks(s, 0) == b && (At(s, b) == '-' <==> sign == "-")
      && (if At(s, b) == '+' || At(s, b) == '-' then b + 1 else b) == b + |sign|
      && b + |sign| <= |s| && s[b + |sign|..] == tail
  {
    var b := |blanks|;
    assert forall i :: 0 <= i < b ==> s[i] == blanks[i];
    assert sign != "" ==> s[b] == sign[0];
    assert sign == "" && tail != "" ==> s[b] == tail[0];
    SkipBlanksTo(s, 0, b);
  }

  /** Where the digits end. */
  lemma DigitsEnd(s: string, c: nat, t: string, ds: seq<nat>, rest: string, base: nat)
    requires c <= |s| && s[c..] == t + rest && Spells(t, ds, base) && base <= 36 && Ends(rest, base)
    ensures c + |t| <= |s| && SkipDigits(s, c, base) == c + |t| && s[c..c + |t|] == t
  {
    SpelledChars(t, ds, base);
    EndsIs(rest, base);
    hide Spells, Ends, IsDigit;
    var u := t + rest;
    assert forall i :: 0 <= i < |u| ==> s[c + i] == u[i];
    assert forall j :: c <= j < c + |t| ==> s[j] == t[j - c];
    assert rest != "" ==> s[c + |t|] == rest[0];
    SkipDigitsTo(s, c, c + |t|, base);
  }

  lemma ParsedIs(s: string, base0: int, b: nat, neg: bool, i: nat, start: nat, radix: int, end: nat)
    requires SkipBlanks(s, 0) == b && neg == (At(s, b) == '-') && i == (if At(s, b) == '+' || At(s, b) == '-' then b + 1 else b)
    requires i <= |s| && Prefix(s, i, base0) == (start, radix) && SkipDigits(s, start, radix) == end
    ensures start <= end <= |s|
    ensures Parsed(s, base0) == (if neg then Wrap(-Value(s[start..end], radix)) else Value(s[start..end], radix), end)
  {
    hide SkipBlanks, SkipDigits, Prefix, Value, Wrap, At;
  }

  lemma TailStart(prefix: string, t: string, ds: seq<nat>, rest: string, base0: int, base: nat)
    requires Spells(t, ds, base) && 2 <= base <= 36 && Announces(prefix, base0, base, ds, rest)
    ensures var u := prefix + t + rest; u != "" && u[0] != ' ' && u[0] != '\t' && u[0] != '+' && u[0] != '-'
  {
    SpelledChars(t, ds, base);
    hide Spells, IsDigit;
    var u := prefix + t + rest;
    assert prefix == "" ==> u[0] == t[0];
    assert prefix != "" ==> u[0] == prefix[0];
  }

  /**
   strtol on blanks, a sign, what announces the base, and digits: it returns the
   number with these digits, negated after a minus, modulo 2^32 as a signed long,
   and stops behind the digits, whatever follows them.
   */
  lemma StrtolReads(blanks: string, sign: string, prefix: string, t: string, ds: seq<nat>, rest: string, base0: int, base: nat)
    requires forall i :: 0 <= i < |blanks| ==> blanks[i] == ' ' || blanks[i] == '\t'
    requires IsSign(sign) && 2 <= base <= 36 && Spells(t, ds, base)
    requires Announces(prefix, base0, base, ds, rest) && Ends(rest, base)
    ensures Parsed(blanks + sign + prefix + t + rest, base0) ==
            (Wrap(Signed(sign, NumberOf(ds, base))), |blanks| + |sign| + |prefix| + |t|)
  {
    hide *;
    Joined(blanks + sign, prefix, t, rest);
    ReadsFrom(blanks + sign + prefix + t + rest, blanks, sign, prefix, t, ds, rest, base0, base);
  }

  lemma ReadsFrom(s: string, blanks: string, sign: string, prefix: string, t: string, ds: seq<nat>, rest: string, base0: int, base: nat)
    requires s == blanks + sign + (prefix + t + rest) && prefix + t + rest == prefix + (t + rest)
    requires forall i :: 0 <= i < |blanks| ==> blanks[i] == ' ' || blanks[i] == '\t'
    requires IsSign(sign) && 2 <= base <= 36 && Spells(t, ds, base)
    requires Announces(prefix, base0, base, ds, rest) && Ends(rest, base)
    ensures Parsed(s, base0) == (Wrap(Signed(sign, NumberOf(ds, base))), |blanks| + |sign| + |prefix| + |t|)
  {
    hide *;
    var b, i := |blanks|, |blanks| + |sign|;
    TailStart(prefix, t, ds, rest, base0, base);
    SignIs(s, blanks, sign, prefix + t + rest);
    PrefixIs(s, i, prefix, t, ds, rest, base0, base);
    var start := i + |prefix|;
    TailOf(s, i, prefix, t + rest);
    DigitsEnd(s, start, t, ds, rest, base);
    ValueOfSpelled(t, ds, base);
    WrapNegated(NumberOf(ds, base));
    SignedIs(NumberOf(ds, base));
    ParsedIs(s, base0, b, sign == "-", i, start, base, start + |t|);
  }

  /** The digits printnum writes, as numbers. */
  function DigitValues(n: nat, base: nat): seq<nat>
    requires 2 <= base <= 16
  {
    if n >= base then DigitValues(Rest(n, base), base) + [LastDigit(n, base)] else [n]
  }

  lemma {:induction false} DigitsSpell(n: nat, base: nat)
    requires 2 <= base <= 16
    ensures Spells(Digits(n, base), DigitValues(n, base), base) && NumberOf(DigitValues(n, base), base) == n
    ensures DigitValues(n, base) != [] && (0 < n ==> DigitValues(n, base)[0] != 0)
    ensures forall i :: 0 <= i < |DigitValues(n, base)| ==> |LOWER| == 36 && Digits(n, base)[i] == LOWER[DigitValues(n, base)[i]]
  {
    hide Rest, LastDigit, DigitChar, Spelled;
    var d := LastDigit(n, base);
    DigitCharIs(d);
    if n >= base {
      var q := Rest(n, base);
      DigitsSpell(q, base);
      var ds := DigitValues(q, base);
      assert (ds + [d])[..|ds|] == ds;
      RestPositive(n, base);
    } else {
      assert [n][..0] == [];
      assert NumberOf([n], base) == NumberOf([], base) * base + n;
    }
  }

  lemma RestPositive(n: nat, base: nat)
    requires 2 <= base <= n
    ensures 0 < Rest(n, base)
  {
  }

  lemma DigitCharIs(d: nat)
    requires d < 16
    ensures Spelled(DigitChar(d), d) && DigitChar(d) == LOWER[d]
  {
    LetterIs(d);
  }

  /**
   The same for numbers as printnum writes them: strtol gives back n after a plus
   or no sign and -n after a minus, in the base given, after 0x in base 16 or 0,
   after 0 in base 0 for octal, and without anything in base 0 for decimal.
   */
  lemma ParseSigned(blanks: string, sign: string, prefix: string, n: nat, rest: string, base0: int, base: nat)
    requires forall i :: 0 <= i < |blanks| ==> blanks[i] == ' ' || blanks[i] == '\t'
    requires IsSign(sign) && 2 <= base <= 16 && Ends(rest, base)
    requires Announces(prefix, base0, base, DigitValues(n, base), rest)
    ensures Parsed(blanks + sign + prefix + Digits(n, base) + rest, base0) ==
            (Wrap(Signed(sign, n)), |blanks| + |sign| + |prefix| + |Digits(n, base)|)
  {
    hide *;
    DigitsSpell(n, base);
    StrtolReads(blanks, sign, prefix, Digits(n, base), DigitValues(n, base), rest, base0, base);
  }

  /** Each way to announce a base, for any number. */
  lemma AnnouncedBases(n: nat)
    ensures forall base: nat :: 2 <= base <= 16 ==> Announces("", base, base, DigitValues(n, base), "")
    ensures Announces("0x", 16, 16, DigitValues(n, 16), "") && Announces("0x", 0, 16, DigitValues(n, 16), "")
    ensures Announces("0", 0, 8, DigitValues(n, 8), "") && (0 < n ==> Announces("", 0, 10, DigitValues(n, 10), ""))
  {
    forall base: nat | 2 <= base <= 16
      ensures DigitValues(n, base) != [] && (0 < n ==> DigitValues(n, base)[0] != 0)
    {
      DigitsSpell(n, base);
    }
    hide DigitValues;
  }
}
