/**
 URL percent encoding and decoding over raw buffers.
 */
module UrlCodec {
  import opened Text

  type Byte = b: int | 0 <= b < 256

  const NUL: Byte := 0
  const SPACE: Byte := 32
  const PERCENT: Byte := 37
  const PLUS: Byte := 43

  // A string as C sees it: what stands before the first NUL.
  function CStr(s: seq<Byte>): (r: seq<Byte>)
    ensures NUL !in r && r <= s && (|r| < |s| ==> s[|r|] == NUL)
  {
    if s == [] || s[0] == NUL then [] else [s[0]] + CStr(s[1..])
  }

  lemma CStrIs(s: seq<Byte>, n: nat)
    requires n <= |s| && NUL !in s[..n] && (n < |s| ==> s[n] == NUL)
    ensures CStr(s) == s[..n]
  {
    assert CStr(s) == s[..|CStr(s)|];
    assert forall i :: 0 <= i < n ==> s[i] == s[..n][i];
  }

  /* ---- Encoding ---- */

  predicate IsEscaped(c: Byte) {
    (c < 48 && c != 45 && c != 46) || (57 < c < 65) || (90 < c < 97 && c != 95) || 122 < c
  }

  function HexChar(d: int): Byte
    requires 0 <= d < 16
  {
    if d < 10 then 48 + d else 55 + d
  }

  function EncodeByte(c: Byte): (r: seq<Byte>)
    ensures 1 <= |r| <= 3
  {
    if c == SPACE then [PLUS]
    else if IsEscaped(c) then [PERCENT, HexChar(c / 16), HexChar(c % 16)]
    else [c]
  }

  // The first n bytes encoded.
  function Encoded(s: seq<Byte>, n: nat): (r: seq<Byte>)
    requires n <= |s|
    ensures |r| <= 3 * n
  {
    if n == 0 then [] else Encoded(s, n - 1) + EncodeByte(s[n - 1])
  }

  function UrlEncode(source: seq<Byte>): seq<Byte> { Encoded(CStr(source), |CStr(source)|) }

  lemma {:induction false} EncodedHasNoNul(s: seq<Byte>, n: nat)
    requires n <= |s|
    ensures NUL !in Encoded(s, n)
  {
    if n > 0 { EncodedHasNoNul(s, n - 1); }
  }

  lemma EncodedNone(s: seq<Byte>)
    ensures Encoded(s, 0) == []
  {
  }

  lemma EncodedNext(s: seq<Byte>, n: nat)
    requires 0 < n <= |s|
    ensures var c := s[n - 1];
      Encoded(s, n) == Encoded(s, n - 1) + if c == SPACE then [PLUS]
        else if IsEscaped(c) then [PERCENT, HexChar(c / 16), HexChar(c % 16)] else [c]
  {
  }

  method StringLength(source: seq<Byte>) returns (n: nat)
    ensures n == |CStr(source)|
  {
    n := 0;
    while n < |source| && source[n] != NUL
      invariant n <= |source| && NUL !in source[..n]
    {
      assert source[..n + 1] == source[..n] + [source[n]];
      n := n + 1;
    }
    CStrIs(source, n);
  }

  // The encoder writes into a buffer of 3n + 1 bytes and never needs more.
  method URLEncode(source: seq<Byte>) returns (out: seq<Byte>)
    ensures out == UrlEncode(source)
  {
    hide CStr, Encoded, EncodeByte, HexChar;
    var end := StringLength(source);
    ghost var s := CStr(source);
    var buffer := new Byte[3 * end + 1];
    var from, to := 0, 0;
    EncodedNone(s);
    while from < end
      invariant from <= end && to <= 3 * from && buffer.Length == 3 * end + 1
      invariant buffer[..to] == Encoded(s, from)
    {
      var c := source[from];
      from := from + 1;
      ghost var before := buffer[..to];
      if c == SPACE {
        buffer[to] := PLUS;
        to := to + 1;
        assert buffer[..to] == before + [PLUS];
      } else if IsEscaped(c) {
        buffer[to] := PERCENT;
        buffer[to + 1] := HexChar(c / 16);
        buffer[to + 2] := HexChar(c % 16);
        to := to + 3;
        assert buffer[..to] == before + [PERCENT, HexChar(c / 16), HexChar(c % 16)];
      } else {
        buffer[to] := c;
        to := to + 1;
        assert buffer[..to] == before + [c];
      }
      EncodedNext(s, from);
    }
    buffer[to] := NUL;
    EncodedHasNoNul(s, end);
    CStrIs(buffer[..], to);
    assert buffer[..][..to] == buffer[..to];
    return CStr(buffer[..]);
  }

  /* ---- Decoding ---- */

  predicate IsHexDigit(c: Byte) { 48 <= c <= 57 || 65 <= c <= 70 || 97 <= c <= 102 }

  function HexDigitValue(c: Byte): int {
    var c' := if 65 <= c <= 90 then c + 32 else c;
    if 48 <= c' <= 57 then c' - 48 else c' - 97 + 10
  }

  function Htoi(high: Byte, low: Byte): int { HexDigitValue(high) * 16 + HexDigitValue(low) }

  // The place i starts an escape that lies within the string.
  predicate EscapeAt(s: seq<Byte>, i: nat) {
    i + 2 < |s| && s[i] == PERCENT && IsHexDigit(s[i + 1]) && IsHexDigit(s[i + 2])
  }

  // The byte decoded at place i, and how many bytes it takes up.
  function DecodeAt(s: seq<Byte>, i: nat): (Byte, nat)
    requires i < |s|
  {
    if s[i] == PLUS then (SPACE, 1)
    else if EscapeAt(s, i) then (Htoi(s[i + 1], s[i + 2]) % 256, 3)
    else (s[i], 1)
  }

  // The string decoded from place i on.
  function Decoded(s: seq<Byte>, i: nat): seq<Byte>
    requires i <= |s|
    decreases |s| - i
  {
    if i == |s| then []
    else
      var (b, n) := DecodeAt(s, i);
      [b] + Decoded(s, i + n)
  }

  function UrlDecode(source: seq<Byte>): seq<Byte> { CStr(Decoded(CStr(source), 0)) }

  // The decoder works in place: what it writes never passes what it has still to read, and the count
  // of bytes left never goes below zero inside the loop.
  method URLDecode(source: seq<Byte>) returns (out: seq<Byte>)
    ensures out == UrlDecode(source)
  {
    hide Decoded, CStr, HexDigitValue, IsHexDigit;
    var left: int := StringLength(source);
    ghost var s := CStr(source);
    var length := left;
    var str := new Byte[length + 1](i requires 0 <= i <= length => if i < length && i < |source| then source[i] else NUL);
    var dest, data := 0, 0;
    while left != 0
      invariant 0 <= dest <= data <= length && left == length - data && str.Length == length + 1
      invariant forall i :: data <= i < length ==> str[i] == s[i]
      invariant Decoded(s, 0) == str[..dest] + Decoded(s, data)
      decreases left
    {
      left := left - 1;
      ghost var before, at := str[..dest], data;
      ghost var step := DecodeAt(s, data);
      if str[data] == PLUS {
        str[dest] := SPACE;
      } else if str[data] == PERCENT && left >= 2 && IsHexDigit(str[data + 1]) && IsHexDigit(str[data + 2]) {
        str[dest] := Htoi(str[data + 1], str[data + 2]) % 256;
        data := data + 2;
        left := left - 2;
      } else {
        str[dest] := str[data];
      }
      data := data + 1;
      dest := dest + 1;
      assert data == at + step.1 && str[..dest] == before + [step.0];
      DecodeOn(before, s, at);
    }
    ghost var all := str[..dest];
    DecodedEnd(all, s);
    str[dest] := NUL;
    CutAtNul(all, str[dest + 1..], str[..]);
    return CStr(str[..]);
  }

  lemma DecodeOn(before: seq<Byte>, s: seq<Byte>, i: nat)
    requires i < |s|
    ensures var (b, n) := DecodeAt(s, i); before + Decoded(s, i) == (before + [b]) + Decoded(s, i + n)
  {
  }

  lemma DecodedEnd(before: seq<Byte>, s: seq<Byte>)
    ensures before + Decoded(s, |s|) == before
  {
  }

  // Behind the NUL written at the end, what is left of the buffer does not matter.
  lemma CutAtNul(s: seq<Byte>, rest: seq<Byte>, all: seq<Byte>)
    requires all == s + [NUL] + rest
    ensures CStr(all) == CStr(s)
  {
    var r := CStr(s);
    CStrIs(all, |r|);
  }

  /* ---- What decodes to what ---- */

  // The value of a hexadecimal digit, of either case.
  function HexOf(c: Byte): Option<int> {
    if c in HEX_DIGITS then Some(c - 48)
    else if c in HEX_UPPER then Some(c - 55)
    else if c in HEX_LOWER then Some(c - 87)
    else None
  }

  const HEX_DIGITS: set<int> := {48, 49, 50, 51, 52, 53, 54, 55, 56, 57}
  const HEX_UPPER: set<int> := {65, 66, 67, 68, 69, 70}
  const HEX_LOWER: set<int> := {97, 98, 99, 100, 101, 102}

  lemma HexOfDigit(c: Byte)
    ensures IsHexDigit(c) <==> HexOf(c).Some?
    ensures HexOf(c).Some? ==> HexDigitValue(c) == HexOf(c).value && 0 <= HexOf(c).value < 16
  {
  }

  // A piece of an encoded string: a plus sign, an escape, or a byte that stands for itself.
  datatype Piece = Plus | Escape(high: Byte, low: Byte) | Plain(c: Byte)

  predicate IsPiece(p: Piece) {
    match p
    case Plus => true
    case Escape(high, low) => HexOf(high).Some? && HexOf(low).Some?
    case Plain(c) => c != 43
  }

  function Written(p: Piece): (r: seq<Byte>)
    ensures 1 <= |r| <= 3
  {
    match p
    case Plus => [43]
    case Escape(high, low) => [37, high, low]
    case Plain(c) => [c]
  }

  function Meaning(p: Piece): Byte
    requires IsPiece(p)
  {
    match p
    case Plus => 32
    case Escape(high, low) =>
      HexOfDigit(high);
      HexOfDigit(low);
      16 * HexOf(high).value + HexOf(low).value
    case Plain(c) => c
  }

  // The pieces from the i-th on, written.
  function Spelled(pieces: seq<Piece>, i: nat): seq<Byte>
    requires i <= |pieces|
    decreases |pieces| - i
  {
    if i == |pieces| then [] else Written(pieces[i]) + Spelled(pieces, i + 1)
  }

  // No percent sign that stands for itself is followed by two hexadecimal digits.
  ghost predicate ArePieces(pieces: seq<Piece>) {
    && (forall i :: 0 <= i < |pieces| ==> IsPiece(pieces[i]))
    && forall i :: 0 <= i < |pieces| && pieces[i].Plain? ==> !EscapeAt(Spelled(pieces, i), 0)
  }

  function Meanings(pieces: seq<Piece>): (r: seq<Byte>)
    requires forall i :: 0 <= i < |pieces| ==> IsPiece(pieces[i])
    ensures |r| == |pieces| && forall i :: 0 <= i < |r| ==> r[i] == Meaning(pieces[i])
  {
    seq(|pieces|, i requires 0 <= i < |pieces| => Meaning(pieces[i]))
  }

  lemma PieceDecodes(p: Piece, rest: seq<Byte>, s: seq<Byte>, i: nat)
    requires IsPiece(p) && i <= |s| && s[i..] == Written(p) + rest && (p.Plain? ==> !EscapeAt(s[i..], 0))
    ensures i < |s| && DecodeAt(s, i) == (Meaning(p), |Written(p)|) && i + |Written(p)| <= |s|
    ensures s[i + |Written(p)|..] == rest
  {
    var t := s[i..];
    assert forall x :: 0 <= x < |t| ==> t[x] == s[i + x];
    assert EscapeAt(t, 0) <==> EscapeAt(s, i);
    if p.Escape? {
      HexOfDigit(p.high);
      HexOfDigit(p.low);
      assert t[0] == PERCENT && t[1] == p.high && t[2] == p.low;
    } else {
      assert t[0] == Written(p)[0];
    }
  }

  lemma {:induction false} PiecesDecodeFrom(pieces: seq<Piece>, k: nat, s: seq<Byte>, i: nat)
    requires ArePieces(pieces) && k <= |pieces| && i <= |s| && s[i..] == Spelled(pieces, k)
    ensures Decoded(s, i) == Meanings(pieces)[k..]
    decreases |pieces| - k
  {
    hide DecodeAt, Written, IsPiece, Meaning, EscapeAt;
    if k < |pieces| {
      PieceDecodes(pieces[k], Spelled(pieces, k + 1), s, i);
      PiecesDecodeFrom(pieces, k + 1, s, i + |Written(pieces[k])|);
      assert Meanings(pieces)[k..] == [Meanings(pieces)[k]] + Meanings(pieces)[k + 1..];
    } else {
      assert i == |s|;
    }
  }

  // A string without NUL, taken as its pieces, decodes piece by piece: plus signs to blanks, escapes of either case
  // to the byte of that number, everything else to itself; what follows a decoded NUL is lost.
  lemma PiecesDecode(pieces: seq<Piece>)
    requires ArePieces(pieces) && 0 !in Spelled(pieces, 0)
    ensures UrlDecode(Spelled(pieces, 0)) == CStr(Meanings(pieces))
  {
    hide Decoded, Meaning, IsPiece, Written, EscapeAt;
    var s := Spelled(pieces, 0);
    assert s[..|s|] == s && s[0..] == s && Meanings(pieces)[0..] == Meanings(pieces);
    CStrIs(s, |s|);
    PiecesDecodeFrom(pieces, 0, s, 0);
  }

  // Every string is written in such pieces.
  lemma {:induction false} PiecesOf(s: seq<Byte>) returns (pieces: seq<Piece>)
    ensures ArePieces(pieces) && Spelled(pieces, 0) == s
    decreases |s|
  {
    pieces := [];
    if s != [] {
      var p := if s[0] == PLUS then Plus else if EscapeAt(s, 0) then Escape(s[1], s[2]) else Plain(s[0]);
      if p.Escape? {
        HexOfDigit(s[1]);
        HexOfDigit(s[2]);
      }
      assert s == Written(p) + s[|Written(p)|..];
      var rest := PiecesOf(s[|Written(p)|..]);
      pieces := [p] + rest;
      SpelledShift(p, rest, 1);
      forall i | 0 <= i < |pieces| && pieces[i].Plain? ensures !EscapeAt(Spelled(pieces, i), 0) {
        if i > 0 { SpelledShift(p, rest, i); }
      }
    }
  }

  lemma {:induction false} SpelledShift(p: Piece, rest: seq<Piece>, i: nat)
    requires 1 <= i <= |rest| + 1
    ensures Spelled([p] + rest, i) == Spelled(rest, i - 1)
    decreases |rest| + 1 - i
  {
    hide Written;
    if i <= |rest| {
      assert ([p] + rest)[i] == rest[i - 1];
      SpelledShift(p, rest, i + 1);
    }
  }

  /* ---- The round trip ---- */

  // What the byte-wise encoding puts at a place decodes to that byte.
  lemma DecodesByte(e: seq<Byte>, i: nat, c: Byte)
    requires i + |EncodeByte(c)| <= |e| && e[i..i + |EncodeByte(c)|] == EncodeByte(c)
    ensures DecodeAt(e, i) == (c, |EncodeByte(c)|)
  {
    var t := EncodeByte(c);
    assert forall x :: i <= x < i + |t| ==> e[x] == e[i..i + |t|][x - i];
    if IsEscaped(c) && c != SPACE {
      assert e[i] == PERCENT && e[i + 1] == HexChar(c / 16) && e[i + 2] == HexChar(c % 16);
      assert Htoi(e[i + 1], e[i + 2]) == c;
    } else {
      assert e[i] == t[0];
    }
  }

  // Where the encoding of the k-th byte stands.
  lemma {:induction false} EncodedAt(s: seq<Byte>, n: nat, k: nat)
    requires k < n <= |s|
    ensures var e, i := Encoded(s, n), |Encoded(s, k)|;
      i + |EncodeByte(s[k])| == |Encoded(s, k + 1)| <= |e| && e[i..i + |EncodeByte(s[k])|] == EncodeByte(s[k])
  {
    hide EncodeByte;
    var i, l := |Encoded(s, k)|, |EncodeByte(s[k])|;
    if k < n - 1 {
      EncodedAt(s, n - 1, k);
      SliceOfPrefix(Encoded(s, n - 1), EncodeByte(s[n - 1]), i, i + l);
    } else {
      SliceAtEnd(Encoded(s, k), EncodeByte(s[k]));
    }
  }

  lemma SliceOfPrefix(a: seq<Byte>, b: seq<Byte>, i: nat, j: nat)
    requires i <= j <= |a|
    ensures (a + b)[i..j] == a[i..j]
  {
  }

  lemma SliceAtEnd(a: seq<Byte>, b: seq<Byte>)
    ensures (a + b)[|a|..|a| + |b|] == b
  {
  }

  lemma {:induction false} DecodesFrom(s: seq<Byte>, k: nat)
    requires k <= |s| && |Encoded(s, k)| <= |Encoded(s, |s|)|
    ensures Decoded(Encoded(s, |s|), |Encoded(s, k)|) == s[k..]
    decreases |s| - k
  {
    hide EncodeByte, DecodeAt, Encoded;
    if k < |s| {
      EncodedAt(s, |s|, k);
      DecodesByte(Encoded(s, |s|), |Encoded(s, k)|, s[k]);
      DecodesFrom(s, k + 1);
      assert s[k..] == [s[k]] + s[k + 1..];
    }
  }

  // Decoding an encoded string gives it back up to its first NUL, whatever its bytes: so the two are
  // inverse exactly on the strings without one.
  lemma {:induction false} RoundTrip(s: seq<Byte>)
    ensures UrlDecode(UrlEncode(s)) == CStr(s)
    ensures UrlDecode(UrlEncode(s)) == s <==> NUL !in s
  {
    var t := CStr(s);
    var e := UrlEncode(s);
    EncodedHasNoNul(t, |t|);
    assert e[..|e|] == e && t[..|t|] == t && s[..|s|] == s;
    CStrIs(e, |e|);
    DecodesFrom(t, 0);
    assert t[0..] == t;
    CStrIs(t, |t|);
    if NUL !in s { CStrIs(s, |s|); }
  }

  // The encoder's output holds only unreserved bytes, plus signs and complete escapes.
  predicate IsSafe(c: Byte) { 48 <= c <= 57 || 65 <= c <= 90 || 97 <= c <= 122 || c == 45 || c == 46 || c == 95 }

  lemma {:induction false} EncodedIsSafe(s: seq<Byte>, n: nat)
    requires n <= |s|
    ensures forall i :: 0 <= i < |Encoded(s, n)| ==> IsSafe(Encoded(s, n)[i]) || Encoded(s, n)[i] in {PLUS, PERCENT}
  {
    if n > 0 { EncodedIsSafe(s, n - 1); }
  }

  // Every other byte but the blank is written as a percent sign and its two digits, in upper case.
  lemma EscapesAreUpper(c: Byte)
    requires !IsSafe(c) && c != 32
    ensures EncodeByte(32) == [43]
    ensures var e := EncodeByte(c);
      |e| == 3 && e[0] == 37 && e[1] in HEX_DIGITS + HEX_UPPER && e[2] in HEX_DIGITS + HEX_UPPER &&
      c == 16 * HexOf(e[1]).value + HexOf(e[2]).value
  {
  }

  // Unreserved bytes are not touched.
  lemma {:induction false} SafeUnchanged(s: seq<Byte>, n: nat)
    requires n <= |s| && forall i :: 0 <= i < n ==> IsSafe(s[i])
    ensures Encoded(s, n) == s[..n]
  {
    if n > 0 {
      SafeUnchanged(s, n - 1);
      assert s[..n] == s[..n - 1] + [s[n - 1]];
    }
  }
}
