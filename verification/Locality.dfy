/**
 What the parser makes of the first bytes of a buffer does not depend on what comes behind them: a stage
 that ends four bytes before the end of a buffer ends the same way when more bytes are received, or when
 other memory lies behind.
 */
module Locality {
  import opened Text
  import opened CharClasses
  import opened HttpParser
  import opened RequestProofs

  // A second memory, of which more may have been received, that begins with the received bytes of the first.
  predicate Extends(mem: string, last: nat, mem': string, last': nat) {
    last <= |mem| && last <= last' <= |mem'| && Agrees(mem, mem', last)
  }

  lemma SameSlice(mem: string, last: nat, mem': string, last': nat, i: nat, j: nat)
    requires Extends(mem, last, mem', last') && i <= j <= last
    ensures mem[i..j] == mem'[i..j]
  {
  }

  lemma SkipLocal(p: char -> bool, mem: string, last: nat, mem': string, last': nat, i: nat)
    requires Extends(mem, last, mem', last') && i <= last && SkipWhile(p, mem, i, last) < last
    ensures SkipWhile(p, mem', i, last') == SkipWhile(p, mem, i, last)
  {
    var j := SkipWhile(p, mem, i, last);
    Skipped(p, mem, i, last);
    SkipStops(p, mem, i, last);
    SkipIs(p, mem', i, last', j);
  }

  /* ---- Fields ---- */

  lemma NameLocal(mem: string, last: nat, mem': string, last': nat, it: nat)
    requires Extends(mem, last, mem', last') && it <= last
    requires FieldName(mem, last, it).it <= last
    ensures FieldName(mem', last', it) == FieldName(mem, last, it)
  {
    hide SkipWhile;
    SkipLocal(IsValidToken, mem, last, mem', last', it);
    SameSlice(mem, last, mem', last', it, SkipWhile(IsValidToken, mem, it, last));
  }

  lemma ValueLocal(mem: string, last: nat, mem': string, last': nat, it: nat)
    requires Extends(mem, last, mem', last') && it <= last
    requires var r := FieldValue(mem, last, it); r.Piece? && r.it + 1 < last
    ensures FieldValue(mem', last', it) == FieldValue(mem, last, it)
  {
    hide SkipWhile;
    var first := SkipWhile(IsBlank, mem, it, last);
    SkipLocal(IsBlank, mem, last, mem', last', it);
    SkipLocal(IsPrint, mem, last, mem', last', first);
    SameSlice(mem, last, mem', last', first, SkipWhile(IsPrint, mem, first, last));
  }

  lemma AfterLocal(mem: string, last: nat, mem': string, last': nat, it: nat, headers: Headers, ec: Option<HttpError>)
    requires Extends(mem, last, mem', last')
    requires var r := AfterField(mem, it, headers, ec).block; r.Block? && r.it + 4 <= last
    ensures it <= AfterField(mem, it, headers, ec).block.it
    ensures AfterField(mem', it, headers, ec) == AfterField(mem, it, headers, ec)
  {
  }

  lemma OneFieldLocal(mem: string, last: nat, mem': string, last': nat, it: nat, headers: Headers, ec: Option<HttpError>)
    requires Extends(mem, last, mem', last') && it < last
    requires var r := OneField(mem, last, it, headers, ec).block; r.Block? && r.it + 4 <= last
    ensures it <= OneField(mem, last, it, headers, ec).block.it
    ensures OneField(mem', last', it, headers, ec) == OneField(mem, last, it, headers, ec)
  {
    hide FieldName, FieldValue, AfterField;
    var name := FieldName(mem, last, it);
    var value := FieldValue(mem, last, name.it);
    var fields, ec' := Insert(headers, ToLower(name.text), value.text), Later(Later(ec, name.ec), value.ec);
    AfterLocal(mem, last, mem', last', value.it, fields, ec');
    NameLocal(mem, last, mem', last', it);
    ValueLocal(mem, last, mem', last', name.it);
  }

  lemma {:induction false} FieldsGoOn(mem: string, last: nat, block: Block)
    requires last <= |mem| && block.Block? && Fields(mem, last, block).Block?
    ensures block.it <= Fields(mem, last, block).it
    decreases if block.it < last then last - block.it else 0
  {
    if block.it < last {
      var round := OneField(mem, last, block.it, block.headers, block.ec);
      OneFieldGoesOn(mem, last, block.it, block.headers, block.ec);
      if round.more { FieldsGoOn(mem, last, round.block); }
    }
  }

  lemma OneFieldGoesOn(mem: string, last: nat, it: nat, headers: Headers, ec: Option<HttpError>)
    requires it < last <= |mem|
    ensures var r := OneField(mem, last, it, headers, ec).block; r.Block? ==> it <= r.it
  {
    hide FieldName, FieldValue;
  }

  // A block that ends four bytes before the end of a buffer.
  lemma {:induction false} FieldsLocal(mem: string, last: nat, mem': string, last': nat, block: Block)
    requires Extends(mem, last, mem', last') && block.Block?
    requires var r := Fields(mem, last, block); r.Block? && r.it + 4 <= last
    ensures Fields(mem', last', block) == Fields(mem, last, block)
    decreases if block.it < last then last - block.it else 0
  {
    hide OneField;
    var round := OneField(mem, last, block.it, block.headers, block.ec);
    if round.more { FieldsGoOn(mem, last, round.block); }
    OneFieldLocal(mem, last, mem', last', block.it, block.headers, block.ec);
    if round.more { FieldsLocal(mem, last, mem', last', round.block); }
  }

  lemma BlockLocal(mem: string, last: nat, mem': string, last': nat, it: nat, headers: Headers, ec: Option<HttpError>)
    requires Extends(mem, last, mem', last')
    requires var r := HeaderBlock(mem, last, it, headers, ec); r.Block? && r.it + 4 <= last
    ensures HeaderBlock(mem', last', it, headers, ec) == HeaderBlock(mem, last, it, headers, ec)
  {
    hide Fields;
    FieldsLocal(mem, last, mem', last', Block(headers, it, ec));
  }

  /* ---- The start line ---- */

  lemma MethodLocal(mem: string, last: nat, mem': string, last': nat)
    requires Extends(mem, last, mem', last') && MethodAt(mem, last, 0).Ok?
    ensures MethodAt(mem', last', 0) == MethodAt(mem, last, 0) && MethodAt(mem, last, 0).it <= last
  {
    hide SkipWhile;
    SkipLocal(IsAlpha, mem, last, mem', last', 0);
    SameSlice(mem, last, mem', last', 0, SkipWhile(IsAlpha, mem, 0, last));
  }

  lemma TargetLocal(mem: string, last: nat, mem': string, last': nat, it: nat)
    requires Extends(mem, last, mem', last') && it <= last && TargetAt(mem, last, it).Ok?
    ensures TargetAt(mem', last', it) == TargetAt(mem, last, it) && TargetAt(mem, last, it).it <= last
  {
    hide SkipWhile;
    SkipLocal(IsPathChar, mem, last, mem', last', it);
    SameSlice(mem, last, mem', last', it, SkipWhile(IsPathChar, mem, it, last));
  }

  lemma ProtocolLocal(mem: string, last: nat, mem': string, last': nat, it: nat)
    requires Extends(mem, last, mem', last') && it <= last && ProtocolAt(mem, last, it).Ok?
    ensures ProtocolAt(mem', last', it) == ProtocolAt(mem, last, it)
  {
    SameSlice(mem, last, mem', last', it, it + 5);
  }

  // A start line and header block that end four bytes before the end of a buffer.
  lemma StartLocal(mem: string, last: nat, mem': string, last': nat, s: State)
    requires Extends(mem, last, mem', last')
    requires var r := StartLine(s, mem, last); r.Stage? && r.s.phase == ContentTypeDone && r.it + 4 <= last
    ensures StartLine(s, mem', last') == StartLine(s, mem, last)
  {
    hide MethodAt, TargetAt, ProtocolAt, HeaderBlock, ContentTypeOf;
    MethodLocal(mem, last, mem', last');
    var m := MethodAt(mem, last, 0);
    TargetLocal(mem, last, mem', last', m.it);
    var t := TargetAt(mem, last, m.it);
    ProtocolLocal(mem, last, mem', last', t.it);
    BlockLocal(mem, last, mem', last', ProtocolAt(mem, last, t.it).it + 2, s.headers, None);
  }
}
