/**
 The character classes the request parser rests on.
 */
module CharClasses {
  import opened Text

  predicate IsAlpha(c: char) { 'a' <= c <= 'z' || 'A' <= c <= 'Z' }

  // The table of tchars.
  predicate IsTokenChar(c: char) {
    IsAlpha(c) || IsDigit(c) ||
    c == '!' || '#' <= c <= '\'' || c == '*' || c == '+' || c == '-' || c == '.' || '^' <= c <= '`' || c == '|' || c == '~'
  }

  // Anything but controls, the blank and DEL.
  predicate IsPathChar(c: char) { c > ' ' && c != '\U{7f}' }

  // A field name's character: 7-bit, and no control, blank, colon or DEL.
  predicate IsValidToken(c: char) { ' ' < c < '\U{7f}' && c != ':' }

  predicate IsPrint(c: char) { ' ' <= c < '\U{7f}' }

  predicate IsBlank(c: char) { c == ' ' || c == '\t' }

  // The classes by their characters' codes. A token may hold letters, digits and !#$%&'*+-.^_`|~
  lemma ClassesAre(c: char)
    ensures var n := c as int;
      && (IsAlpha(c) <==> 65 <= n <= 90 || 97 <= n <= 122) && (IsDigit(c) <==> 48 <= n <= 57)
      && (IsTokenChar(c) <==> 65 <= n <= 90 || 97 <= n <= 122 || 48 <= n <= 57 ||
                              n in {33, 35, 36, 37, 38, 39, 42, 43, 45, 46, 94, 95, 96, 124, 126})
      && (IsSpace(c) <==> n in {9, 10, 11, 12, 13, 32}) && (IsBlank(c) <==> n in {9, 32})
      && (IsPathChar(c) <==> 33 <= n && n != 127) && (IsPrint(c) <==> 32 <= n <= 126)
      && (IsValidToken(c) <==> 33 <= n <= 126 && n != 58)
  {
    assert '!' as int == 33 && '*' as int == 42 && '+' as int == 43 && '-' as int == 45 && '.' as int == 46;
    assert '#' as int == 35 && '\'' as int == 39 && '^' as int == 94 && '`' as int == 96 && '|' as int == 124;
  }

  // The first place at or after i where p fails, or last.
  function SkipWhile(p: char -> bool, mem: string, i: nat, last: nat): (j: nat)
    requires i <= last <= |mem|
    ensures i <= j <= last
    decreases last - i
  {
    if i == last || !p(mem[i]) then i else SkipWhile(p, mem, i + 1, last)
  }

  lemma {:induction false} SkipIs(p: char -> bool, mem: string, i: nat, last: nat, j: nat)
    requires i <= j <= last <= |mem| && (forall x :: i <= x < j ==> p(mem[x])) && (j < last ==> !p(mem[j]))
    ensures SkipWhile(p, mem, i, last) == j
    decreases j - i
  {
    if i < j { SkipIs(p, mem, i + 1, last, j); }
  }

  lemma {:induction false} Skipped(p: char -> bool, mem: string, i: nat, last: nat)
    requires i <= last <= |mem|
    ensures forall x :: i <= x < SkipWhile(p, mem, i, last) ==> p(mem[x])
    decreases last - i
  {
    if i < last && p(mem[i]) { Skipped(p, mem, i + 1, last); }
  }

  lemma {:induction false} SkipStops(p: char -> bool, mem: string, i: nat, last: nat)
    requires i <= last <= |mem|
    ensures var j := SkipWhile(p, mem, i, last); j < last ==> !p(mem[j])
    decreases last - i
  {
    if i < last && p(mem[i]) { SkipStops(p, mem, i + 1, last); }
  }

  // Passing over a text all of whose characters have p, in the middle of a buffer.
  lemma SkipOver(p: char -> bool, a: string, text: string, rest: string, mem: string)
    requires mem == a + (text + rest) && (forall x :: 0 <= x < |text| ==> p(text[x])) && (rest != [] ==> !p(rest[0]))
    ensures SkipWhile(p, mem, |a|, |mem|) == |a| + |text|
  {
    assert forall x :: |a| <= x < |a| + |text| ==> mem[x] == text[x - |a|];
    assert rest != [] ==> mem[|a| + |text|] == rest[0];
    SkipIs(p, mem, |a|, |mem|, |a| + |text|);
  }
}
