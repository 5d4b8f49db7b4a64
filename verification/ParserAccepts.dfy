/**
 What the parser accepts: whatever bytes it takes without an error as a start line and a header block are a
 printed request's, and what it keeps is what was printed.
 */
module ParserAccepts {
  import opened Text
  import opened CharClasses
  import opened HttpParser
  import opened ParserProofs
  import opened RequestProofs
  import opened Locality

  /* ---- One field ---- */

  lemma NameAccepted(mem: string, last: nat, it: nat) returns (e: nat)
    requires it < last <= |mem| && FieldName(mem, last, it).Piece? && FieldName(mem, last, it).ec == None
    requires FieldName(mem, last, it).it <= last
    ensures it <= e < last && mem[e] == ':' && FieldName(mem, last, it) == Piece(mem[it..e], e + 1, None)
    ensures forall x :: it <= x < e ==> IsValidToken(mem[x])
  {
    e := SkipWhile(IsValidToken, mem, it, last);
    Skipped(IsValidToken, mem, it, last);
  }

  lemma ValueAccepted(mem: string, last: nat, it: nat) returns (first: nat, e: nat)
    requires it <= last <= |mem|
    requires var r := FieldValue(mem, last, it); r.Piece? && r.ec == None && r.it < last
    ensures it <= first <= e < last && FieldValue(mem, last, it) == Piece(mem[first..e], e, None)
    ensures e + 1 < |mem| && mem[e] == '\r' && mem[e + 1] == '\n'
    ensures (forall x :: it <= x < first ==> IsBlank(mem[x])) && (forall x :: first <= x < e ==> IsPrint(mem[x]))
    ensures !IsBlank(mem[first])
  {
    first := SkipWhile(IsBlank, mem, it, last);
    Skipped(IsBlank, mem, it, last);
    SkipStops(IsBlank, mem, it, last);
    e := SkipWhile(IsPrint, mem, first, last);
    Skipped(IsPrint, mem, first, last);
  }

  // A round of the field loop that ends four bytes before the end and raises no error has read a field.
  lemma RoundAccepted(mem: string, last: nat, it: nat, headers: Headers) returns (f: Field, end: nat)
    requires it < last <= |mem|
    requires var b := OneField(mem, last, it, headers, None).block; b.Block? && b.ec == None && b.it + 4 <= last
    ensures IsField(f) && it <= end && end + 4 <= |mem| && mem[it..end + 2] == Head(f) + CRLF
    ensures var r := OneField(mem, last, it, headers, None);
      && r.block.headers == Insert(headers, ToLower(f.name), f.value) && r.block.it == (if r.more then end + 2 else end)
      && (!r.more ==> mem[end + 2..end + 4] == CRLF)
  {
    hide SkipWhile, IsValidToken, IsPrint, FieldName, FieldValue, Insert;
    var name := FieldName(mem, last, it);
    var value := FieldValue(mem, last, name.it);
    var colon := NameAccepted(mem, last, it);
    var first;
    first, end := ValueAccepted(mem, last, name.it);
    f := Field(mem[it..colon], mem[colon + 1..first], mem[first..end]);
    FieldText(mem, it, colon, first, end);
  }

  lemma FieldText(mem: string, it: nat, colon: nat, first: nat, end: nat)
    requires it <= colon < first <= end && end + 2 <= |mem| && mem[colon] == ':' && mem[end] == '\r' && mem[end + 1] == '\n'
    ensures mem[it..end + 2] == Head(Field(mem[it..colon], mem[colon + 1..first], mem[first..end])) + CRLF
  {
  }

  /* ---- The header block ---- */

  lemma {:induction false} MapOfFront(fields: seq<Field>, more: seq<Field>, n: nat)
    requires n <= |fields| <= |more| && more[..|fields|] == fields
    ensures FieldMap(more, n) == FieldMap(fields, n)
  {
    if n > 0 {
      MapOfFront(fields, more, n - 1);
      assert more[n - 1] == more[..|fields|][n - 1];
    }
  }

  // The field loop, when the fields before its cursor are known.
  lemma {:induction false} FieldsAccepted(mem: string, last: nat, it: nat, before: seq<Field>) returns (all: seq<Field>)
    requires last <= |mem| && AreFields(before)
    requires var r := Fields(mem, last, Block(FieldMap(before, |before|), it, None));
      r.Block? && r.ec == None && r.it + 4 <= last
    ensures |before| < |all| && all[..|before|] == before && AreFields(all)
    ensures var r := Fields(mem, last, Block(FieldMap(before, |before|), it, None));
      r.headers == FieldMap(all, |all|) && it <= r.it && mem[it..r.it + 4] == PrintFields(all, |before|, CRLF)
    decreases last - it
  {
    hide OneField, FieldMap, IsField, Head;
    var headers := FieldMap(before, |before|);
    FieldsGoOn(mem, last, Block(headers, it, None));
    var r, round := Fields(mem, last, Block(headers, it, None)), OneField(mem, last, it, headers, None);
    if round.more { FieldsGoOn(mem, last, round.block); }
    if round.more && round.block.ec.Some? { ErrorStays(mem, last, round.block); }
    var f, end := RoundAccepted(mem, last, it, headers);
    var now := before + [f];
    MapOneMore(before, f);
    if round.more {
      all := FieldsAccepted(mem, last, end + 2, now);
      assert all[|before|] == all[..|now|][|before|] == f;
      assert all[..|before|] == all[..|now|][..|before|] == before;
      LineThen(mem, it, end, r.it + 4, f, PrintFields(all, |before| + 1, CRLF));
    } else {
      all := now;
      LineThen(mem, it, end, end + 4, f, CRLF);
    }
  }

  lemma MapOneMore(before: seq<Field>, f: Field)
    ensures FieldMap(before + [f], |before| + 1) == Insert(FieldMap(before, |before|), ToLower(f.name), f.value)
  {
    assert (before + [f])[..|before|] == before;
    MapOfFront(before, before + [f], |before|);
  }

  lemma LineThen(mem: string, it: nat, end: nat, stop: nat, f: Field, rest: string)
    requires it <= end && end + 2 <= stop <= |mem| && mem[it..end + 2] == Head(f) + CRLF && mem[end + 2..stop] == rest
    ensures mem[it..stop] == PrintField(f, rest)
  {
    assert mem[it..stop] == mem[it..end + 2] + mem[end + 2..stop];
    HeadSplit("", f, rest, PrintField(f, rest));
  }

  // A header block that is accepted, four bytes or more before the end, is a printed one, and its map is that of
  // the printed fields. With the round trip of blocks: exactly the printed ones are accepted.
  lemma BlockAccepted(mem: string, last: nat, it: nat) returns (fields: seq<Field>)
    requires last <= |mem|
    requires var r := HeaderBlock(mem, last, it, map[], None); r.Block? && r.ec == None && r.it + 4 <= last
    ensures fields != [] && AreFields(fields)
    ensures var r := HeaderBlock(mem, last, it, map[], None);
      it <= r.it && mem[it..r.it + 4] == PrintFields(fields, 0, CRLF) && r.headers == FieldMap(fields, |fields|)
  {
    hide Fields, PrintFields, IsField;
    assert FieldMap([], 0) == map[];
    fields := FieldsAccepted(mem, last, it, []);
  }

  /* ---- The request up to its blank line ---- */

  // Its start line, with some two characters behind the protocol, and its fields up to the blank line.
  function Opening(m: string, t: string, eol: string, fields: seq<Field>): string {
    m + " " + t + " " + "HTTP/1.1" + eol + PrintFields(fields, 0, CRLF)
  }

  // A parser that comes through the start line and the fields without an error, four bytes or more before the
  // end, has received a printed request up to its blank line, but for one half of the CRLF behind the protocol,
  // and it keeps the printed method, target and fields.
  lemma OpeningAccepted(mem: string, last: nat, contentType: ContentType) returns (eol: string, fields: seq<Field>)
    requires last <= |mem|
    requires var r := StartLine(Fresh(contentType), mem, last);
      r.Stage? && r.s.phase == ContentTypeDone && r.ec == None && r.it + 4 <= last
    ensures var r := StartLine(Fresh(contentType), mem, last);
      && IsMethod(r.s.httpMethod) && IsTarget(r.s.target) && fields != [] && AreFields(fields)
      && |eol| == 2 && (eol[0] == '\r' || eol[1] == '\n')
      && r.s == Started(r.s.httpMethod, r.s.target, fields, contentType)
      && mem[..r.it + 4] == Opening(r.s.httpMethod, r.s.target, eol, fields)
  {
    hide MethodAt, TargetAt, ProtocolAt, HeaderBlock, ContentTypeOf, IsMethod, IsTarget, PrintFields, FieldMap, AreFields;
    StartLineAccepted(Fresh(contentType), mem, last);
    var r := StartLine(Fresh(contentType), mem, last);
    var line := r.s.httpMethod + " " + r.s.target + " " + "HTTP/1.1";
    var k := |line|;
    BlockStarts(mem, last, contentType);
    eol := mem[k..k + 2];
    fields := BlockAccepted(mem, last, k + 2);
    assert mem[..r.it + 4] == mem[..k] + mem[k..k + 2] + mem[k + 2..r.it + 4];
  }

  // The header block starts two characters behind the protocol.
  lemma BlockStarts(mem: string, last: nat, contentType: ContentType)
    requires last <= |mem|
    requires var r := StartLine(Fresh(contentType), mem, last); r.Stage? && r.s.phase == ContentTypeDone
    ensures var r := StartLine(Fresh(contentType), mem, last);
      var line := r.s.httpMethod + " " + r.s.target + " " + "HTTP/1.1";
      && r == AfterProtocol(Fresh(contentType).(httpMethod := r.s.httpMethod, target := r.s.target, version := 11,
                                                phase := ProtocolDone),
                            HeaderBlock(mem, last, |line| + 2, map[], None))
  {
    hide MethodAt, TargetAt, HeaderBlock, ContentTypeOf, IsMethod, IsTarget;
    var m := MethodAt(mem, last, 0);
    MethodAccepted(mem, last);
    TargetAccepted(mem, last, m.it);
  }

  // The other way: received bytes that begin with a printed opening bring the parser through it, and it keeps the
  // printed parts, whatever lies behind. Of the line end behind the protocol one right half is enough.
  lemma {:induction false} OpeningReads(mem: string, last: nat, m: string, t: string, eol: string, fields: seq<Field>, text: string,
                     contentType: ContentType)
    requires last <= |mem| && IsMethod(m) && IsTarget(t) && fields != [] && AreFields(fields)
    requires |eol| == 2 && (eol[0] == '\r' || eol[1] == '\n')
    requires text == Opening(m, t, eol, fields) && |text| <= last && Agrees(mem, text, |text|)
    ensures |text| >= 4 && StartLine(Fresh(contentType), mem, last) ==
      AfterProtocol(Fresh(contentType).(httpMethod := m, target := t, phase := ProtocolDone, version := 11),
                    Block(FieldMap(fields, |fields|), |text| - 4, None))
  {
    hide StartLine, Opening, IsMethod, IsTarget, FieldMap, ContentTypeOf, AreFields;
    OpeningWhole(m, t, eol, fields, text, contentType);
    StartLocal(text, |text|, mem, last, Fresh(contentType));
  }

  lemma {:induction false} OpeningWhole(m: string, t: string, eol: string, fields: seq<Field>, text: string,
                                        contentType: ContentType)
    requires IsMethod(m) && IsTarget(t) && fields != [] && AreFields(fields)
    requires |eol| == 2 && (eol[0] == '\r' || eol[1] == '\n') && text == Opening(m, t, eol, fields)
    ensures |text| >= 4 && StartLine(Fresh(contentType), text, |text|) ==
      AfterProtocol(Fresh(contentType).(httpMethod := m, target := t, phase := ProtocolDone, version := 11),
                    Block(FieldMap(fields, |fields|), |text| - 4, None))
  {
    hide StartLine, HeaderBlock, Opening, IsMethod, IsTarget, FieldMap, AfterProtocol, PrintFields, IsField;
    var a := m + " " + t + " " + "HTTP/1.1" + eol;
    OpeningIs(m, t, eol, fields);
    EolReads(m, t, eol, PrintFields(fields, 0, CRLF), text, Fresh(contentType));
    assert CRLF + "" == CRLF;
    BlockRoundTrip(a, fields, "", text, None);
  }

  lemma OpeningIs(m: string, t: string, eol: string, fields: seq<Field>)
    ensures Opening(m, t, eol, fields) == (m + " " + t + " " + "HTTP/1.1" + eol) + PrintFields(fields, 0, CRLF)
    ensures Opening(m, t, eol, fields) == m + (" " + (t + (" " + ("HTTP/1.1" + (eol + PrintFields(fields, 0, CRLF))))))
  {
    hide PrintFields;
  }

  lemma EolReads(m: string, t: string, eol: string, rest: string, mem: string, s: State)
    requires IsMethod(m) && IsTarget(t) && |eol| == 2 && (eol[0] == '\r' || eol[1] == '\n')
    requires mem == m + (" " + (t + (" " + ("HTTP/1.1" + (eol + rest)))))
    ensures StartLine(s, mem, |mem|) ==
      AfterProtocol(s.(httpMethod := m, target := t, phase := ProtocolDone, version := 11),
                    HeaderBlock(mem, |mem|, |m| + |t| + 12, s.headers, None))
  {
    hide HeaderBlock, AfterProtocol, MethodAt, TargetAt, ProtocolAt, IsMethod, IsTarget;
    var a := m + " " + t + " ";
    MethodReads(m, t + (" " + ("HTTP/1.1" + (eol + rest))), mem);
    Shift(m, " ", t + (" " + ("HTTP/1.1" + (eol + rest))), mem);
    TargetReads(m + " ", t, "HTTP/1.1" + (eol + rest), mem);
    Shift(m + " ", t, " " + ("HTTP/1.1" + (eol + rest)), mem);
    Shift(m + " " + t, " ", "HTTP/1.1" + (eol + rest), mem);
    ProtocolReads(a, eol + rest, mem);
    Shift(a, "HTTP/1.1", eol + rest, mem);
    EolAt(a + "HTTP/1.1", eol, rest, mem);
  }

  lemma EolAt(a: string, eol: string, rest: string, mem: string)
    requires mem == a + (eol + rest) && |eol| == 2
    ensures |a| + 2 <= |mem| && mem[|a|] == eol[0] && mem[|a| + 1] == eol[1]
  {
  }
}
