/**
 What the request parser promises: parsing a printed request gives the request back with every read
 inside the buffer, and a parser yields at most one request.
 */
module ParserProofs {
  import opened Text
  import opened CharClasses
  import opened HttpParser

  const CRLF: string := ['\r', '\n']

  /* ---- Printing ---- */

  // A header field as written: its name, the blanks after the colon, and its value.
  datatype Field = Field(name: string, blanks: string, value: string)

  predicate IsField(f: Field) {
    && (forall x :: 0 <= x < |f.name| ==> IsValidToken(f.name[x]))
    && (forall x :: 0 <= x < |f.blanks| ==> IsBlank(f.blanks[x]))
    && (forall x :: 0 <= x < |f.value| ==> IsPrint(f.value[x]))
    && (f.value != [] ==> f.value[0] != ' ')
  }

  function PrintField(f: Field, rest: string): string {
    f.name + (":" + (f.blanks + (f.value + (CRLF + rest))))
  }

  // The fields from the i-th on, then the rest.
  function PrintFields(fields: seq<Field>, i: nat, rest: string): string
    requires i <= |fields|
    decreases |fields| - i
  {
    if i == |fields| then rest else PrintField(fields[i], PrintFields(fields, i + 1, rest))
  }

  // A request: its start line, its fields, a blank line and the payload.
  function PrintRequest(m: string, target: string, fields: seq<Field>, payload: string): string {
    m + (" " + (target + (" " + ("HTTP/1.1" + (CRLF + PrintFields(fields, 0, CRLF + payload))))))
  }

  // The first n fields as a map under lower-case names; the first of a name is kept.
  function FieldMap(fields: seq<Field>, n: nat): Headers
    requires n <= |fields|
  {
    if n == 0 then map[]
    else Insert(FieldMap(fields, n - 1), ToLower(fields[n - 1].name), fields[n - 1].value)
  }

  /* ---- Regrouping ---- */

  lemma Shift(a: string, b: string, c: string, mem: string)
    requires mem == a + (b + c)
    ensures mem == (a + b) + c
  {
  }

  /* ---- One field ---- */

  lemma NamePart(a: string, name: string, rest: string, mem: string)
    requires (forall x :: 0 <= x < |name| ==> IsValidToken(name[x])) && mem == a + (name + (":" + rest))
    ensures FieldName(mem, |mem|, |a|) == Piece(name, |a| + |name| + 1, None)
  {
    SkipOver(IsValidToken, a, name, ":" + rest, mem);
    TextAt(a, name, ":" + rest, mem);
    Shift(a, name, ":" + rest, mem);
    TextAt(a + name, ":", rest, mem);
    assert mem[|a + name| + 0] == ':';
  }

  lemma ValueBetween(mem: string, it: nat, first: nat, end: nat, value: string)
    requires it <= first < |mem| && first <= end && end + 1 < |mem|
    requires SkipWhile(IsBlank, mem, it, |mem|) == first && SkipWhile(IsPrint, mem, first, |mem|) == end
    requires mem[end] == '\r' && mem[end + 1] == '\n' && mem[first..end] == value
    ensures FieldValue(mem, |mem|, it) == Piece(value, end, None)
  {
  }

  lemma CrlfAt(a: string, rest: string, mem: string)
    requires mem == a + (CRLF + rest)
    ensures |a| + 1 < |mem| && mem[|a|] == '\r' && mem[|a| + 1] == '\n'
  {
  }

  lemma ValuePart(a: string, f: Field, rest: string, mem: string)
    requires IsField(f) && mem == a + (f.blanks + (f.value + (CRLF + rest)))
    ensures FieldValue(mem, |mem|, |a|) == Piece(f.value, |a| + |f.blanks| + |f.value|, None)
  {
    var b := a + f.blanks;
    SkipOver(IsBlank, a, f.blanks, f.value + (CRLF + rest), mem);
    Shift(a, f.blanks, f.value + (CRLF + rest), mem);
    ValueText(b, f, rest, mem);
    ValueBetween(mem, |a|, |b|, |b + f.value|, f.value);
  }

  lemma ValueText(b: string, f: Field, rest: string, mem: string)
    requires IsField(f) && mem == b + (f.value + (CRLF + rest))
    ensures |b + f.value| + 1 < |mem| && mem[|b + f.value|] == '\r' && mem[|b + f.value| + 1] == '\n'
    ensures SkipWhile(IsPrint, mem, |b|, |mem|) == |b + f.value| && mem[|b|..|b + f.value|] == f.value
  {
    SkipOver(IsPrint, b, f.value, CRLF + rest, mem);
    TextAt(b, f.value, CRLF + rest, mem);
    Shift(b, f.value, CRLF + rest, mem);
    CrlfAt(b + f.value, rest, mem);
  }

  // What follows a field: the blank line that ends the headers, or another field.
  ghost predicate EndReads(mem: string, end: nat, more: bool) {
    && end + 2 < |mem| && mem[end] == '\r' && mem[end + 1] == '\n'
    && (if more then mem[end + 2] != '\r' else end + 3 < |mem| && mem[end + 2] == '\r' && mem[end + 3] == '\n')
  }

  predicate StartsCrlf(rest: string) { |rest| >= 2 && rest[0] == '\r' && rest[1] == '\n' }

  lemma EndPart(a: string, rest: string, mem: string)
    requires mem == a + (CRLF + rest) && rest != [] && (rest[0] != '\r' || StartsCrlf(rest))
    ensures EndReads(mem, |a|, rest[0] != '\r')
  {
    CrlfAt(a, rest, mem);
    assert mem[|a| + 2] == rest[0];
    if rest[0] == '\r' { assert mem[|a| + 3] == rest[1]; }
  }

  lemma FieldParts(a: string, f: Field, rest: string, mem: string)
    requires mem == a + PrintField(f, rest)
    ensures mem == (a + f.name + ":") + (f.blanks + (f.value + (CRLF + rest)))
    ensures mem == (a + f.name + ":" + f.blanks + f.value) + (CRLF + rest)
  {
    Shift(a, f.name, ":" + (f.blanks + (f.value + (CRLF + rest))), mem);
    Shift(a + f.name, ":", f.blanks + (f.value + (CRLF + rest)), mem);
    Shift(a + f.name + ":", f.blanks, f.value + (CRLF + rest), mem);
    Shift(a + f.name + ":" + f.blanks, f.value, CRLF + rest, mem);
  }

  // A field's name and value are read, the value up to end.
  ghost predicate TextReads(mem: string, it: nat, f: Field, end: nat) {
    && it + |f.name| + 1 <= |mem|
    && FieldName(mem, |mem|, it) == Piece(f.name, it + |f.name| + 1, None)
    && FieldValue(mem, |mem|, it + |f.name| + 1) == Piece(f.value, end, None)
  }

  ghost predicate FieldReads(mem: string, it: nat, f: Field, end: nat, more: bool) {
    TextReads(mem, it, f, end) && EndReads(mem, end, more)
  }

  lemma ReadField(mem: string, it: nat, f: Field, end: nat, more: bool, headers: Headers, ec: Option<HttpError>)
    requires FieldReads(mem, it, f, end, more)
    ensures OneField(mem, |mem|, it, headers, ec) ==
      Round(Block(Insert(headers, ToLower(f.name), f.value), if more then end + 2 else end, ec), more)
  {
  }

  // The text of the i-th field and of all before it, after a; and how long that is.
  function Upto(a: string, fields: seq<Field>, i: nat): string
    requires i <= |fields|
  {
    if i == 0 then a else Upto(a, fields, i - 1) + Head(fields[i - 1]) + CRLF
  }

  function Head(f: Field): string { f.name + ":" + f.blanks + f.value }

  function Offset(start: nat, fields: seq<Field>, i: nat): (r: nat)
    requires i <= |fields|
    ensures i > 0 ==> r >= 2
  {
    if i == 0 then start else Offset(start, fields, i - 1) + |Head(fields[i - 1])| + 2
  }

  lemma HeadSplit(a: string, f: Field, rest: string, mem: string)
    requires mem == a + PrintField(f, rest)
    ensures mem == (a + Head(f)) + (CRLF + rest)
  {
    FieldParts(a, f, rest, mem);
    assert a + f.name + ":" + f.blanks + f.value == a + Head(f);
  }

  lemma {:induction false} FieldsSplit(a: string, fields: seq<Field>, i: nat, rest: string, mem: string)
    requires i <= |fields| && mem == a + PrintFields(fields, 0, rest)
    ensures mem == Upto(a, fields, i) + PrintFields(fields, i, rest) && |Upto(a, fields, i)| == Offset(|a|, fields, i)
  {
    if i > 0 {
      FieldsSplit(a, fields, i - 1, rest, mem);
      HeadSplit(Upto(a, fields, i - 1), fields[i - 1], PrintFields(fields, i, rest), mem);
      Shift(Upto(a, fields, i - 1) + Head(fields[i - 1]), CRLF, PrintFields(fields, i, rest), mem);
    }
  }

  lemma TextReadsIs(a: string, f: Field, rest: string, mem: string)
    requires IsField(f) && mem == a + PrintField(f, rest)
    ensures TextReads(mem, |a|, f, |a| + |Head(f)|)
  {
    hide FieldName, FieldValue;
    NamePart(a, f.name, f.blanks + (f.value + (CRLF + rest)), mem);
    FieldParts(a, f, rest, mem);
    ValuePart(a + f.name + ":", f, rest, mem);
  }

  lemma FieldReadsIs(a: string, f: Field, rest: string, mem: string)
    requires IsField(f) && mem == a + PrintField(f, rest) && rest != [] && (rest[0] != '\r' || StartsCrlf(rest))
    ensures FieldReads(mem, |a|, f, |a| + |Head(f)|, rest[0] != '\r')
  {
    TextReadsIs(a, f, rest, mem);
    HeadSplit(a, f, rest, mem);
    EndPart(a + Head(f), rest, mem);
  }

  lemma FieldStart(fields: seq<Field>, i: nat, payload: string)
    requires i <= |fields| && (forall j :: 0 <= j < |fields| ==> IsField(fields[j]))
    ensures var s := PrintFields(fields, i, CRLF + payload);
      s != [] && (if i < |fields| then s[0] != '\r' else StartsCrlf(s) && s[0] == '\r')
  {
    if i < |fields| {
      var f, s := fields[i], PrintFields(fields, i, CRLF + payload);
      assert s[0] == if f.name == [] then ':' else f.name[0];
    }
  }

  // What the field loop returns when it has come to the i-th field.
  ghost function FromNth(mem: string, start: nat, fields: seq<Field>, i: nat, ec: Option<HttpError>): Block {
    if i < |fields| then Fields(mem, |mem|, Block(FieldMap(fields, i), Offset(start, fields, i), ec))
    else if fields == [] then BlockFault
    else Block(FieldMap(fields, |fields|), Offset(start, fields, |fields|) - 2, ec)
  }

  lemma FieldsRound(mem: string, block: Block, round: Round)
    requires block.Block? && block.it < |mem| && OneField(mem, |mem|, block.it, block.headers, block.ec) == round
    ensures Fields(mem, |mem|, block) == if round.more then Fields(mem, |mem|, round.block) else round.block
  {
  }

  lemma FieldStep(mem: string, it: nat, f: Field, end: nat, more: bool, headers: Headers, ec: Option<HttpError>)
    requires FieldReads(mem, it, f, end, more)
    ensures Fields(mem, |mem|, Block(headers, it, ec)) ==
      AfterStep(mem, Insert(headers, ToLower(f.name), f.value), end, more, ec)
  {
    ReadField(mem, it, f, end, more, headers, ec);
    FieldsRound(mem, Block(headers, it, ec),
                Round(Block(Insert(headers, ToLower(f.name), f.value), if more then end + 2 else end, ec), more));
  }

  // The rest of the field loop once a field that ends at `end` is in the map.
  ghost function AfterStep(mem: string, headers: Headers, end: nat, more: bool, ec: Option<HttpError>): Block {
    if more then Fields(mem, |mem|, Block(headers, end + 2, ec)) else Block(headers, end, ec)
  }

  lemma PrintedStep(a: string, f: Field, rest: string, mem: string, headers: Headers, ec: Option<HttpError>)
    requires IsField(f) && mem == a + PrintField(f, rest) && rest != [] && (rest[0] != '\r' || StartsCrlf(rest))
    ensures Fields(mem, |mem|, Block(headers, |a|, ec)) ==
      AfterStep(mem, Insert(headers, ToLower(f.name), f.value), |a| + |Head(f)|, rest[0] != '\r', ec)
  {
    hide FieldReads, OneField;
    FieldReadsIs(a, f, rest, mem);
    FieldStep(mem, |a|, f, |a| + |Head(f)|, rest[0] != '\r', headers, ec);
  }

  lemma NextField(a: string, fields: seq<Field>, i: nat, payload: string, mem: string, ec: Option<HttpError>)
    requires i < |fields| && (forall j :: 0 <= j < |fields| ==> IsField(fields[j]))
    requires mem == a + PrintFields(fields, 0, CRLF + payload)
    ensures FromNth(mem, |a|, fields, i, ec) == FromNth(mem, |a|, fields, i + 1, ec)
  {
    hide Fields, AfterStep, IsField, FieldMap, Upto, Head, Offset, PrintField, StartsCrlf;
    FieldsSplit(a, fields, i, CRLF + payload, mem);
    FieldStart(fields, i + 1, payload);
    PrintedStep(Upto(a, fields, i), fields[i], PrintFields(fields, i + 1, CRLF + payload), mem, FieldMap(fields, i), ec);
    NextIs(mem, |a|, fields, i, ec);
  }

  lemma NextIs(mem: string, start: nat, fields: seq<Field>, i: nat, ec: Option<HttpError>)
    requires i < |fields|
    ensures FromNth(mem, start, fields, i + 1, ec) ==
      AfterStep(mem, Insert(FieldMap(fields, i), ToLower(fields[i].name), fields[i].value),
                Offset(start, fields, i) + |Head(fields[i])|, i + 1 < |fields|, ec)
  {
    hide OneField;
  }

  lemma {:induction false} Chain<T>(f: nat -> T, i: nat, n: nat)
    requires i <= n && forall j: nat :: i <= j < n ==> f(j) == f(j + 1)
    ensures f(i) == f(n)
    decreases n - i
  {
    if i < n { Chain(f, i + 1, n); }
  }

  // Parsing a printed block of fields gives their map, and stops four bytes before what follows it.
  lemma BlockRoundTrip(a: string, fields: seq<Field>, payload: string, mem: string, ec: Option<HttpError>)
    requires fields != [] && (forall j :: 0 <= j < |fields| ==> IsField(fields[j]))
    requires mem == a + PrintFields(fields, 0, CRLF + payload)
    ensures |payload| + 4 <= |mem|
    ensures HeaderBlock(mem, |mem|, |a|, map[], ec) == Block(FieldMap(fields, |fields|), |mem| - |payload| - 4, ec)
  {
    hide OneField, IsField;
    FieldsSplit(a, fields, |fields|, CRLF + payload, mem);
    OffsetGrows(|a|, fields, |fields|);
    AllRead(a, fields, payload, mem, ec);
  }

  lemma AllRead(a: string, fields: seq<Field>, payload: string, mem: string, ec: Option<HttpError>)
    requires forall j :: 0 <= j < |fields| ==> IsField(fields[j])
    requires mem == a + PrintFields(fields, 0, CRLF + payload)
    ensures FromNth(mem, |a|, fields, 0, ec) == FromNth(mem, |a|, fields, |fields|, ec)
  {
    hide Fields, FromNth, PrintFields, IsField, FieldMap;
    var f := (i: nat) => FromNth(mem, |a|, fields, i, ec);
    forall j: nat | j < |fields| ensures f(j) == f(j + 1) { NextField(a, fields, j, payload, mem, ec); }
    Chain(f, 0, |fields|);
  }

  lemma {:induction false} OffsetGrows(start: nat, fields: seq<Field>, i: nat)
    requires i <= |fields|
    ensures Offset(start, fields, i) >= start + 2 * i
  {
    if i > 0 { OffsetGrows(start, fields, i - 1); }
  }
}
