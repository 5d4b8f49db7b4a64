/**
 Faults in a header block: what the field loop makes of a name or a value with a wrong character, and of a block
 that ends in the middle of a field. An error does not end the loop; it is kept, and the call reports it.
 */
module HeaderFaults {
  import opened Text
  import opened CharClasses
  import opened HttpParser
  import opened ParserProofs
  import opened RequestProofs
  import Locality

  /* ---- Wrong characters ---- */

  predicate AreTokens(name: string) { forall x :: 0 <= x < |name| ==> IsValidToken(name[x]) }
  predicate AreBlanks(blanks: string) { forall x :: 0 <= x < |blanks| ==> IsBlank(blanks[x]) }

  // A blank in a name is reported; what follows the blanks, up to the end of the line, is kept as the value of the
  // empty name, and the loop goes on with the next line.
  lemma WrongName(a: string, name: string, f: Field, rest: string, mem: string, headers: Headers, ec: Option<HttpError>)
    requires AreTokens(name) && IsField(f) && f.name == "" && f.blanks != [] && rest != [] && rest[0] != '\r'
    requires mem == a + (name + (f.blanks + (f.value + (CRLF + rest))))
    ensures OneField(mem, |mem|, |a|, headers, ec) ==
      Round(Block(Insert(headers, "", f.value), |a| + |name| + |f.blanks| + |f.value| + 2, Some(BadField)), true)
  {
    hide FieldName, IsField, FieldValue, AreTokens;
    var b := a + name;
    NameStops(a, name, f, CRLF + rest, mem);
    Shift(a, name, f.blanks + (f.value + (CRLF + rest)), mem);
    ValuePart(b, f, rest, mem);
    LineEndsAt(b, f.blanks, f.value, rest, mem);
    EndPart(b + f.blanks + f.value, rest, mem);
    assert ToLower("") == "";
  }

  lemma NameStops(a: string, name: string, f: Field, rest: string, mem: string)
    requires AreTokens(name) && IsField(f) && f.blanks != [] && mem == a + (name + (f.blanks + (f.value + rest)))
    ensures FieldName(mem, |mem|, |a|) == Piece("", |a| + |name|, Some(BadField))
  {
    hide SkipWhile, IsField;
    BlankIsNoToken(f);
    SkipOver(IsValidToken, a, name, f.blanks + (f.value + rest), mem);
    assert mem[|a| + |name|] == f.blanks[0];
  }

  lemma BlankIsNoToken(f: Field)
    requires IsField(f) && f.blanks != []
    ensures !IsValidToken(f.blanks[0]) && f.blanks[0] != ':'
  {
  }

  lemma LineEndsAt(b: string, blanks: string, value: string, rest: string, mem: string)
    requires mem == b + (blanks + (value + (CRLF + rest)))
    ensures mem == (b + blanks + value) + (CRLF + rest)
  {
    Shift(b, blanks, value + (CRLF + rest), mem);
    Shift(b + blanks, value, CRLF + rest, mem);
  }

  // A character that cannot be printed ends a value: the value is dropped, the error reported, and the loop goes
  // on behind that character. A carriage return without its line feed counts as the line's end, with an error of
  // its own.
  lemma WrongValue(a: string, f: Field, c: char, rest: string, mem: string, headers: Headers, ec: Option<HttpError>)
    requires IsField(f) && !IsPrint(c) && (f.value == [] ==> !IsBlank(c)) && rest != []
    requires mem == a + (f.name + (":" + (f.blanks + (f.value + ([c] + rest)))))
    requires c == '\r' ==> |rest| > 1 && rest[0] != '\n' && rest[1] != '\r'
    ensures var end := |a| + |Head(f)|;
      OneField(mem, |mem|, |a|, headers, ec) ==
        if c == '\r' then Round(Block(Insert(headers, ToLower(f.name), ""), end + 2, Some(InvalidMessageHeaderCrlf)), true)
        else Round(Block(Insert(headers, ToLower(f.name), ""), end + 1, Some(BadFieldValue)), true)
  {
    hide FieldName, FieldValue, SkipWhile, ToLower;
    NamePart(a, f.name, f.blanks + (f.value + ([c] + rest)), mem);
    Shift(a, f.name, ":" + (f.blanks + (f.value + ([c] + rest))), mem);
    Shift(a + f.name, ":", f.blanks + (f.value + ([c] + rest)), mem);
    WrongText(a + f.name + ":", f, c, rest, mem);
    Shift(a + f.name + ":", f.blanks, f.value + ([c] + rest), mem);
    Shift(a + f.name + ":" + f.blanks, f.value, [c] + rest, mem);
    CharThen(a + f.name + ":" + f.blanks + f.value, c, rest, mem);
  }

  lemma WrongText(a: string, f: Field, c: char, rest: string, mem: string)
    requires IsField(f) && !IsPrint(c) && (f.value == [] ==> !IsBlank(c)) && rest != []
    requires mem == a + (f.blanks + (f.value + ([c] + rest))) && (c == '\r' ==> rest[0] != '\n')
    ensures var end := |a| + |f.blanks| + |f.value|;
      end + 1 < |mem| && FieldValue(mem, |mem|, |a|) == Piece("", end, Some(BadFieldValue))
  {
    hide SkipWhile;
    var b := a + f.blanks;
    var first, end := |b|, |b + f.value|;
    Shift(a, f.blanks, f.value + ([c] + rest), mem);
    Shift(b, f.value, [c] + rest, mem);
    CharThen(b + f.value, c, rest, mem);
    ValueStart(f, c, rest);
    SkipOver(IsBlank, a, f.blanks, f.value + ([c] + rest), mem);
    SkipOver(IsPrint, b, f.value, [c] + rest, mem);
  }

  lemma ValueStart(f: Field, c: char, rest: string)
    requires IsField(f) && (f.value == [] ==> !IsBlank(c))
    ensures f.value + ([c] + rest) != [] && !IsBlank((f.value + ([c] + rest))[0])
  {
  }

  lemma CharThen(a: string, c: char, rest: string, mem: string)
    requires mem == a + ([c] + rest) && rest != []
    ensures |a| + 1 < |mem| && mem[|a|] == c && mem[|a| + 1] == rest[0] && (|rest| > 1 ==> mem[|a| + 2] == rest[1])
  {
  }

  /* ---- A block that ends inside a field ---- */

  // What was received of a field ends in its name, at its colon or in the blanks behind it.
  predicate IsBegun(text: string) { AreTokens(text) || exists k :: 0 <= k < |text| && ColonAt(text, k) }

  predicate ColonAt(text: string, k: nat) {
    k < |text| && text[k] == ':' && AreTokens(text[..k]) && AreBlanks(text[k + 1..])
  }

  // Reading it leaves the cursor at the end or one behind it, with an error.
  predicate StopsShort(mem: string, last: nat, it: nat) {
    it <= last <= |mem| &&
    var name := FieldName(mem, last, it);
    name.Piece? && var value := FieldValue(mem, last, name.it);
    value.Piece? && value.ec == Some(IncompleteMessageHeader) && last <= value.it <= last + 1
  }

  lemma BegunName(mem: string, last: nat, it: nat)
    requires it < last <= |mem| && AreTokens(mem[it..last])
    ensures StopsShort(mem, last, it)
  {
    assert forall x :: it <= x < last ==> mem[x] == mem[it..last][x - it];
    SkipIs(IsValidToken, mem, it, last, last);
  }

  lemma BegunColon(mem: string, last: nat, it: nat, k: nat)
    requires it < last <= |mem| && ColonAt(mem[it..last], k)
    ensures StopsShort(mem, last, it)
  {
    hide SkipWhile;
    var text, colon := mem[it..last], it + k;
    var name, blanks := text[..k], text[k + 1..];
    assert mem[colon] == text[k];
    forall x | it <= x < colon ensures IsValidToken(mem[x]) { assert mem[x] == name[x - it]; }
    forall x | colon < x < last ensures IsBlank(mem[x]) { assert mem[x] == blanks[x - colon - 1]; }
    SkipIs(IsValidToken, mem, it, last, colon);
    SkipIs(IsBlank, mem, colon + 1, last, last);
  }

  // A block that ends there is incomplete. It is reported so, whatever the memory behind holds, unless that looks
  // like the end of a line without its line feed, or there is no memory left to look at.
  lemma BegunIsIncomplete(mem: string, last: nat, it: nat, headers: Headers, ec: Option<HttpError>)
    requires it < last <= |mem| && IsBegun(mem[it..last])
    ensures var r := Fields(mem, last, Block(headers, it, ec));
      r.Block? ==> r.ec == Some(IncompleteMessageHeader) || r.ec == Some(InvalidMessageHeaderCrlf)
    ensures var r := Fields(mem, last, Block(headers, it, ec));
      (forall x :: last <= x < |mem| ==> mem[x] != '\r') && last + 1 < |mem| ==>
        r.Block? && r.ec == Some(IncompleteMessageHeader)
  {
    hide FieldName, FieldValue, AreTokens, ColonAt;
    var text := mem[it..last];
    if AreTokens(text) {
      BegunName(mem, last, it);
    } else {
      var k :| 0 <= k < |text| && ColonAt(text, k);
      BegunColon(mem, last, it, k);
    }
    var round := OneField(mem, last, it, headers, ec);
    if round.more { assert Fields(mem, last, round.block) == round.block; }
  }

  /* ---- A block that does not start ---- */

  // Fewer than two bytes behind the start line are no header block: the call reports that, whatever it keeps.
  lemma NothingBehindLine(m: string, t: string, line: string, mem: string, last: nat, contentType: ContentType)
    requires IsMethod(m) && IsTarget(t) && line == RequestLine(m, t) && Agrees(mem, line, |line|)
    requires |line| <= last <= |line| + 1 && last <= |mem|
    ensures var r := ParseCall(Fresh(contentType), mem, last); r.Call? ==> r.ec == Some(IncompleteMessageHeader)
    ensures ParseCall(Fresh(contentType), mem, last).Call?
  {
    hide IsMethod, IsTarget, StartLine, Agrees;
    LineThenBlock(m, t, line, mem, last, contentType);
  }

  lemma LineThenBlock(m: string, t: string, line: string, mem: string, last: nat, contentType: ContentType)
    requires IsMethod(m) && IsTarget(t) && line == RequestLine(m, t) && Agrees(mem, line, |line|) && |line| <= last <= |mem|
    ensures StartLine(Fresh(contentType), mem, last) ==
      AfterProtocol(Fresh(contentType).(httpMethod := m, target := t, version := 11, phase := ProtocolDone),
                    HeaderBlock(mem, last, |line|, map[], None))
  {
    hide MethodAt, TargetAt, ProtocolAt, IsMethod, IsTarget, HeaderBlock, AfterProtocol;
    var k := |line|;
    MethodCut(m, t, mem, k);
    TargetCut(m, t, mem, k);
    ProtocolCut(m, t, mem, k);
    LineLocal(m, t, mem, k, last);
    assert line[k - 2] == '\r';
  }

  lemma LineLocal(m: string, t: string, mem: string, k: nat, last: nat)
    requires k == |m| + |t| + 12 && k <= last <= |mem|
    requires MethodAt(mem, k, 0) == Ok(m, |m| + 1) && TargetAt(mem, k, |m| + 1) == Ok(t, |m| + |t| + 2)
    requires ProtocolAt(mem, k, |m| + |t| + 2) == Ok(11, |m| + |t| + 10)
    ensures MethodAt(mem, last, 0) == Ok(m, |m| + 1) && TargetAt(mem, last, |m| + 1) == Ok(t, |m| + |t| + 2)
    ensures ProtocolAt(mem, last, |m| + |t| + 2) == Ok(11, |m| + |t| + 10)
  {
    hide SkipWhile;
    Locality.MethodLocal(mem, k, mem, last);
    Locality.TargetLocal(mem, k, mem, last, |m| + 1);
    Locality.ProtocolLocal(mem, k, mem, last, |m| + |t| + 2);
  }

  // A first buffer of no bytes changes nothing and asks for more.
  lemma EmptyFirstBuffer(mem: string, contentType: ContentType)
    ensures ParseCall(Fresh(contentType), mem, 0) == Call(Fresh(contentType), None, Some(NeedMore))
  {
  }
}
