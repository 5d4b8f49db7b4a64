/**
 Printing an integer into a buffer that fits it exactly.
 */
module ToStr {
  const DIGITS := "0123456789ABCDEFGHIJKLMNOPQRSTUVWXYZ"

  function Digit(d: int): char
    requires 0 <= d < 36
  {
    DIGITS[d]
  }

  /* ---- Division ---- */

  lemma TimesGrows(a: int, b: int, base: int)
    requires a <= b && base >= 0
    ensures a * base <= b * base
  {
  }

  lemma QuotientBounds(m: nat, base: int, q: int, r: int)
    requires base >= 2 && m == q * base + r && 0 <= r < base
    ensures 0 <= q && (m > 0 ==> q < m) && (m < base <==> q == 0)
  {
    if q < 0 { TimesGrows(q, -1, base); }
    if q > 0 {
      TimesGrows(1, q, base);
      TimesGrows(2, base, q);
    }
  }

  lemma Division(m: nat, base: int)
    requires base >= 2
    ensures m == (m / base) * base + m % base && 0 <= m % base < base
  {
  }

  function Quot(m: nat, base: int): (q: nat)
    requires base >= 2
    ensures (m > 0 ==> q < m) && (m < base <==> q == 0)
  {
    Division(m, base);
    QuotientBounds(m, base, m / base, m % base);
    m / base
  }

  function Rem(m: nat, base: int): (r: nat)
    requires base >= 2
    ensures r < base
  {
    Division(m, base);
    m % base
  }

  // C++ division truncates toward zero, and the remainder has the sign of the dividend.
  function TruncDiv(n: int, base: int): int
    requires base >= 2
  {
    if n >= 0 then n / base else -((-n) / base)
  }

  function TruncMod(n: int, base: int): int
    requires base >= 2
  {
    n - TruncDiv(n, base) * base
  }

  function Abs(n: int): nat { if n < 0 then -n else n }

  /* ---- What is to be printed ---- */

  // The digits of m, the most significant first.
  function Digits(m: nat, base: int): (r: string)
    requires 2 <= base <= 36
    ensures r != []
  {
    if m < base then [Digit(m)] else Digits(Quot(m, base), base) + [Digit(Rem(m, base))]
  }

  function Printed(n: int, base: int): string
    requires 2 <= base <= 36
  {
    (if n < 0 then "-" else "") + Digits(Abs(n), base) + "\0"
  }

  // How often n can be divided before it is zero.
  function Steps(n: int, base: int): nat
    requires base >= 2
    decreases Abs(n)
  {
    if n == 0 then 0
    else
      TruncShrinks(n, base);
      1 + Steps(TruncDiv(n, base), base)
  }

  lemma TruncShrinks(n: int, base: int)
    requires n != 0 && base >= 2
    ensures TruncDiv(n, base) == if n < 0 then 0 - Quot(Abs(n), base) else Quot(Abs(n), base)
    ensures TruncMod(n, base) == if n < 0 then 0 - Rem(Abs(n), base) else Rem(Abs(n), base)
    ensures Abs(TruncDiv(n, base)) == Quot(Abs(n), base) < Abs(n)
  {
    Division(Abs(n), base);
    var q := Quot(Abs(n), base);
    assert (-q) * base == -(q * base);
  }

  // The digits of a number that is not zero are its steps.
  lemma {:induction false} StepsAreDigits(n: int, base: int)
    requires n != 0 && 2 <= base <= 36
    ensures Steps(n, base) == |Digits(Abs(n), base)|
    decreases Abs(n)
  {
    hide TruncDiv, Quot, Rem, Digit;
    TruncShrinks(n, base);
    if Abs(n) >= base { StepsAreDigits(TruncDiv(n, base), base); }
  }

  // The buffer's size, counted by the same division.
  method Length(n0: int, base: int) returns (len: nat)
    requires 2 <= base <= 36
    ensures len == |Printed(n0, base)|
  {
    len := if n0 > 0 then 1 else 2;
    var n := n0;
    while n != 0
      invariant len + Steps(n, base) == (if n0 > 0 then 1 else 2) + Steps(n0, base)
      decreases Abs(n)
    {
      TruncShrinks(n, base);
      len := len + 1;
      n := TruncDiv(n, base);
    }
    if n0 != 0 { StepsAreDigits(n0, base); }
  }

  // The digits still to be written, in front of those that are.
  function Rest(n: int, base: int): string
    requires 2 <= base <= 36
  {
    if n == 0 then "" else Digits(Abs(n), base)
  }

  lemma LastDigit(n: int, base: int)
    requires n != 0 && 2 <= base <= 36
    ensures Rest(n, base) == Rest(TruncDiv(n, base), base) + [Digit(Rem(Abs(n), base))]
  {
    hide TruncDiv, Quot, Rem, Digit;
    TruncShrinks(n, base);
    if Abs(n) < base {
      SmallRem(Abs(n), base);
      assert Digits(Abs(n), base) == [Digit(Abs(n))];
    }
  }

  lemma SmallRem(m: nat, base: int)
    requires m < base && base >= 2
    ensures Rem(m, base) == m
  {
  }

  // Fills the buffer from its end backwards: it comes out exactly full, the last write at index 0.
  method ToString(n0: int, base: int) returns (buf: array<char>)
    requires 2 <= base <= 36
    ensures fresh(buf) && buf[..] == Printed(n0, base)
  {
    hide Digits;
    var len := Length(n0, base);
    buf := new char[len](_ => '\0');
    var ptr := len;
    ptr := ptr - 1;
    buf[ptr] := '\0';
    if n0 != 0 {
      ptr := FillDigits(buf, n0, base, ptr);
      if n0 < 0 {
        ptr := ptr - 1;
        buf[ptr] := '-';
      }
      assert ptr == 0;
      var sign := if n0 < 0 then 1 else 0;
      assert buf[..] == buf[..sign] + buf[sign..len - 1] + [buf[len - 1]];
    } else {
      buf[0] := '0';
      PrintedZero(base);
    }
  }

  // The loop over the digits, from just below `end` downwards.
  method FillDigits(buf: array<char>, n0: int, base: int, end: nat) returns (ptr: nat)
    requires 2 <= base <= 36 && n0 != 0 && |Digits(Abs(n0), base)| <= end < buf.Length
    modifies buf
    ensures ptr + |Digits(Abs(n0), base)| == end && buf[ptr..end] == Digits(Abs(n0), base)
    ensures forall i :: end <= i < buf.Length ==> buf[i] == old(buf[i])
  {
    hide Digits, Digit, TruncDiv, TruncMod, Quot, Rem;
    ptr := end;
    var n := n0;
    ghost var all := Digits(Abs(n0), base);
    while n != 0
      invariant (n0 < 0 ==> n <= 0) && (n0 > 0 ==> n >= 0)
      invariant ptr <= end && ptr + |all| == end + |Rest(n, base)|
      invariant Rest(n, base) + buf[ptr..end] == all
      invariant forall i :: end <= i < buf.Length ==> buf[i] == old(buf[i])
      decreases Abs(n)
    {
      TruncShrinks(n, base);
      LastDigit(n, base);
      assert |Rest(n, base)| == |Rest(TruncDiv(n, base), base)| + 1;
      ghost var written, d := buf[ptr..end], Digit(Rem(Abs(n), base));
      ptr := ptr - 1;
      var index := (if n0 < 0 then -1 else 1) * TruncMod(n, base);
      assert index == Rem(Abs(n), base);
      buf[ptr] := Digit(index);
      assert buf[ptr..end] == [d] + written;
      n := TruncDiv(n, base);
      InFront(Rest(n, base), d, written);
    }
  }

  lemma InFront(rest: string, d: char, written: string)
    ensures (rest + [d]) + written == rest + ([d] + written)
  {
  }

  lemma PrintedZero(base: int)
    requires 2 <= base <= 36
    ensures Printed(0, base) == "0\0"
  {
  }

  /* ---- Reading back ---- */

  function DigitValue(c: char): int { if '0' <= c <= '9' then c as int - 48 else c as int - 55 }

  function Value(s: string, base: int): int {
    if s == [] then 0 else Value(s[..|s| - 1], base) * base + DigitValue(s[|s| - 1])
  }

  // A sign, digits, and the NUL behind them.
  function Read(text: string, base: int): int
    requires text != []
  {
    var s := text[..|text| - 1];
    if s != [] && s[0] == '-' then -Value(s[1..], base) else Value(s, base)
  }

  lemma DigitIsRead(d: int)
    requires 0 <= d < 36
    ensures DigitValue(Digit(d)) == d && Digit(d) != '-' && (Digit(d) == '0' <==> d == 0)
  {
  }

  lemma QuotRem(m: nat, base: int)
    requires base >= 2
    ensures m == Quot(m, base) * base + Rem(m, base)
  {
    Division(m, base);
  }

  // The digits are canonical: their value is the number, each is a digit of the base, and none leads with zero.
  lemma {:induction false} DigitsRead(m: nat, base: int)
    requires 2 <= base <= 36
    ensures var r := Digits(m, base);
      && Value(r, base) == m
      && (forall i :: 0 <= i < |r| ==> 0 <= DigitValue(r[i]) < base && r[i] != '-')
      && (r[0] == '0' <==> m == 0)
  {
    hide Quot, Rem, DigitValue, Digit;
    DigitIsRead(Rem(m, base));
    if m < base {
      DigitIsRead(m);
      assert [Digit(m)][..0] == [];
    } else {
      DigitsRead(Quot(m, base), base);
      QuotRem(m, base);
      assert Digits(m, base)[..|Digits(m, base)| - 1] == Digits(Quot(m, base), base);
    }
  }

  // Whatever the number, its sign included, the printed text reads back as it.
  lemma RoundTrip(n: int, base: int)
    requires 2 <= base <= 36
    ensures Read(Printed(n, base), base) == n
  {
    var d := Digits(Abs(n), base);
    DigitsRead(Abs(n), base);
    assert Printed(n, base)[..|Printed(n, base)| - 1] == (if n < 0 then "-" else "") + d;
    if n < 0 { assert ("-" + d)[1..] == d; } else { assert "" + d == d; }
  }
}
