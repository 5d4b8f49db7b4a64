/**
 Byte strings as the standard library sees them: searching, case folding, and decimal numbers.
 One char stands for one byte.
 */
module Text {
  datatype Option<+T> = None | Some(value: T)

  predicate Occurs(s: string, p: string, i: nat) {
    i + |p| <= |s| && s[i..i + |p|] == p
  }

  // The middle of a text in three parts.
  lemma TextAt(a: string, b: string, c: string, mem: string)
    requires mem == a + (b + c)
    ensures mem[|a|..|a| + |b|] == b && (forall x :: 0 <= x < |b| ==> mem[|a| + x] == b[x])
  {
  }

  predicate Contains(s: string, p: string) { exists i: nat {:trigger Occurs(s, p, i)} :: i <= |s| && Occurs(s, p, i) }

  // `find`: the first place at or after `from` where p occurs.
  function Find(s: string, p: string, from: nat): (r: Option<nat>)
    ensures r.Some? ==> from <= r.value && r.value + |p| <= |s|
    decreases |s| - from
  {
    if Occurs(s, p, from) then Some(from)
    else if from < |s| then Find(s, p, from + 1)
    else None
  }

  lemma {:induction false} FindFirst(s: string, p: string, from: nat)
    ensures var r := Find(s, p, from);
      if r.Some? then Occurs(s, p, r.value) && forall j: nat :: from <= j < r.value ==> !Occurs(s, p, j)
      else forall j: nat :: from <= j ==> !Occurs(s, p, j)
    decreases |s| - from
  {
    if !Occurs(s, p, from) && from < |s| { FindFirst(s, p, from + 1); }
  }

  lemma FindIs(s: string, p: string, from: nat, i: nat)
    requires from <= i && Occurs(s, p, i)
    requires forall j: nat :: from <= j < i ==> !Occurs(s, p, j)
    ensures Find(s, p, from) == Some(i)
  {
    FindFirst(s, p, from);
  }

  lemma FindNone(s: string, p: string, from: nat)
    requires forall j: nat :: from <= j ==> !Occurs(s, p, j)
    ensures Find(s, p, from) == None
  {
    FindFirst(s, p, from);
  }

  // Searching past a prefix is searching what follows it.
  lemma OccursShift(a: string, b: string, p: string, i: nat)
    ensures Occurs(a + b, p, |a| + i) <==> Occurs(b, p, i)
  {
    if i + |p| <= |b| {
      assert (a + b)[|a| + i..|a| + i + |p|] == b[i..i + |p|];
    }
  }

  lemma {:induction false} FindShift(a: string, b: string, p: string, from: nat)
    ensures var r := Find(b, p, from);
      Find(a + b, p, |a| + from) == (if r.Some? then Some(|a| + r.value) else None)
    decreases |b| - from
  {
    OccursShift(a, b, p, from);
    if from < |b| { FindShift(a, b, p, from + 1); }
  }

  // A one-character pattern occurs where that character stands.
  lemma OccursChar(s: string, c: char, i: nat)
    ensures Occurs(s, [c], i) <==> i < |s| && s[i] == c
  {
    if i < |s| { assert s[i..i + 1] == [s[i]]; }
  }

  lemma FindNoChar(s: string, c: char, from: nat)
    requires forall j :: from <= j < |s| ==> s[j] != c
    ensures Find(s, [c], from) == None
  {
    forall j: nat | from <= j ensures !Occurs(s, [c], j) { OccursChar(s, c, j); }
    FindNone(s, [c], from);
  }

  /* ---- Case ---- */

  function Lower(c: char): char {
    if 'A' <= c <= 'Z' then (c as int + 32) as char else c
  }

  function ToLower(s: string): (r: string)
    ensures |r| == |s| && forall i :: 0 <= i < |s| ==> r[i] == Lower(s[i])
  {
    seq(|s|, i requires 0 <= i < |s| => Lower(s[i]))
  }

  /* ---- Decimal numbers ---- */

  predicate IsDigit(c: char) { '0' <= c <= '9' }

  function Decimal(n: nat): (r: string)
    ensures r != [] && forall i :: 0 <= i < |r| ==> IsDigit(r[i])
  {
    var last := ('0' as int + n % 10) as char;
    if n < 10 then [last] else Decimal(n / 10) + [last]
  }

  predicate IsSpace(c: char) { c == ' ' || '\t' <= c <= '\r' }

  // The digits read so far have the value `value`; read on to the first character that is not one.
  function ReadDigits(s: string, value: nat): nat {
    if s == [] || !IsDigit(s[0]) then value
    else ReadDigits(s[1..], 10 * value + (s[0] as int - '0' as int))
  }

  // `atoi`: blanks, an optional sign, then digits up to the first character that is not one.
  function Atoi(s: string): int {
    if s == [] then 0
    else if IsSpace(s[0]) then Atoi(s[1..])
    else if s[0] == '-' then -(ReadDigits(s[1..], 0) as int)
    else if s[0] == '+' then ReadDigits(s[1..], 0)
    else ReadDigits(s, 0)
  }

  lemma {:induction false} ReadDigitsAppend(s: string, c: char, value: nat)
    requires (forall i :: 0 <= i < |s| ==> IsDigit(s[i])) && IsDigit(c)
    ensures ReadDigits(s + [c], value) == 10 * ReadDigits(s, value) + (c as int - '0' as int)
    decreases |s|
  {
    if s == [] {
      assert (s + [c])[1..] == [];
    } else {
      assert (s + [c])[1..] == s[1..] + [c];
      ReadDigitsAppend(s[1..], c, 10 * value + (s[0] as int - '0' as int));
    }
  }

  lemma {:induction false} ReadDecimal(n: nat)
    ensures ReadDigits(Decimal(n), 0) == n
  {
    var last := ('0' as int + n % 10) as char;
    if n < 10 {
      assert [last][1..] == [];
    } else {
      ReadDecimal(n / 10);
      ReadDigitsAppend(Decimal(n / 10), last, 0);
    }
  }

  // Printing a number in decimal and reading it back with `atoi`.
  lemma AtoiDecimal(n: nat)
    ensures Atoi(Decimal(n)) == n
  {
    ReadDecimal(n);
    assert IsDigit(Decimal(n)[0]);
  }

  // Reading stops at the first character that is no digit.
  lemma {:induction false} ReadDigitsStop(s: string, rest: string, value: nat)
    requires (forall i :: 0 <= i < |s| ==> IsDigit(s[i])) && rest != [] && !IsDigit(rest[0])
    ensures ReadDigits(s + rest, value) == ReadDigits(s, value)
    decreases |s|
  {
    if s == [] {
      assert s + rest == rest;
    } else {
      assert (s + rest)[1..] == s[1..] + rest;
      ReadDigitsStop(s[1..], rest, 10 * value + (s[0] as int - '0' as int));
    }
  }

  lemma AtoiDecimalThen(n: nat, rest: string)
    requires rest != [] && !IsDigit(rest[0])
    ensures Atoi(Decimal(n) + rest) == n
  {
    ReadDecimal(n);
    ReadDigitsStop(Decimal(n), rest, 0);
    assert (Decimal(n) + rest)[0] == Decimal(n)[0] && IsDigit(Decimal(n)[0]);
  }
}
