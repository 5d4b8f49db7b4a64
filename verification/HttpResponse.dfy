/**
 The response builder, and that the request parser's header loop reads its header block back.
 */
module HttpResponse {
  import opened Text
  import opened HttpParser
  import opened ParserProofs
  import opened RequestHeaders
  import opened RequestProofs

  // A status code with its reason phrase; the table that pairs them is not modelled.
  datatype Status = Status(code: nat, reason: string)

  const OK := Status(200, "OK")
  const FORBIDDEN := Status(403, "Forbidden")
  const UNAUTHORIZED := Status(401, "Unauthorized")
  const NOT_FOUND := Status(404, "Not Found")
  const INTERNAL_SERVER_ERROR := Status(500, "Internal Server Error")

  const CONTENT_LENGTH := "Content-Length"

  function StatusLine(status: Status): string {
    "HTTP/1.1" + " " + Decimal(status.code) + " " + status.reason + CRLF
  }

  // `emplace`: the first value of a name is kept.
  function WithLength(headers: Headers, body: string): Headers {
    if body == "" then headers else Insert(headers, CONTENT_LENGTH, Decimal(|body|))
  }

  // An order in which a map is iterated: every key once.
  ghost predicate IsOrder(order: seq<string>, headers: Headers) {
    && (forall i, j :: 0 <= i < j < |order| ==> order[i] != order[j])
    && (forall k :: k in order <==> k in headers)
  }

  function FieldsOf(order: seq<string>, headers: Headers): (fields: seq<Field>)
    requires forall k :: k in order ==> k in headers
    ensures |fields| == |order|
    ensures forall i :: 0 <= i < |order| ==> fields[i] == Field(order[i], " ", headers[order[i]])
  {
    seq(|order|, i requires 0 <= i < |order| => Field(order[i], " ", headers[order[i]]))
  }

  // The response as text: status line, fields, blank line, body.
  function ResponseText(status: Status, order: seq<string>, headers: Headers, body: string): string
    requires forall k :: k in order ==> k in headers
  {
    StatusLine(status) + PrintFields(FieldsOf(order, headers), 0, CRLF + body)
  }

  class Response {
    var buffer: string
    var status: Status
    var body: string
    var headers: Headers

    constructor ()
      ensures status == INTERNAL_SERVER_ERROR && body == "" && headers == map[]
    {
      buffer, status, body, headers := "", INTERNAL_SERVER_ERROR, "", map[];
    }

    method SetStatus(s: Status)
      modifies this`status
      ensures status == s
    {
      status := s;
    }

    method SetBody(b: string)
      modifies this`body
      ensures body == b
    {
      body := b;
    }

    method AddHeader(key: string, value: string)
      modifies this`headers
      ensures headers == Insert(old(headers), key, value)
    {
      if key !in headers { headers := headers[key := value]; }
    }

    // Iterates the header map in an order of its own choosing.
    method Build() returns (r: string, ghost order: seq<string>)
      modifies this`buffer, this`headers
      ensures headers == WithLength(old(headers), body) && IsOrder(order, headers)
      ensures r == buffer == ResponseText(status, order, headers, body)
    {
      hide Upto, PrintFields, IsField;
      buffer := "";
      buffer := buffer + "HTTP/1.1";
      buffer := buffer + " ";
      buffer := buffer + Decimal(status.code);
      buffer := buffer + " ";
      buffer := buffer + status.reason;
      buffer := buffer + CRLF;
      assert buffer == StatusLine(status);
      if body != "" { AddHeader(CONTENT_LENGTH, Decimal(|body|)); }
      order := AppendFields();
      buffer := buffer + CRLF;
      buffer := buffer + body;
      Built(StatusLine(status), FieldsOf(order, headers), body);
      return buffer, order;
    }

    method AppendFields() returns (ghost order: seq<string>)
      modifies this`buffer
      ensures IsOrder(order, headers)
      ensures buffer == Upto(old(buffer), FieldsOf(order, headers), |order|)
    {
      hide Head, IsField, PrintFields, StatusLine;
      var keys := headers.Keys;
      order := [];
      while keys != {}
        invariant forall i, j :: 0 <= i < j < |order| ==> order[i] != order[j]
        invariant forall k :: k in order <==> k in headers && k !in keys
        invariant keys <= headers.Keys
        invariant buffer == Upto(old(buffer), FieldsOf(order, headers), |order|)
        decreases |keys|
      {
        var key :| key in keys;
        keys := keys - {key};
        ghost var before := order;
        order := order + [key];
        UptoNext(old(buffer), before, key, headers);
        AppendField(key, headers[key]);
      }
    }

    method AppendField(name: string, value: string)
      modifies this`buffer
      ensures buffer == old(buffer) + name + ": " + value + CRLF
    {
      buffer := buffer + name;
      buffer := buffer + ": ";
      buffer := buffer + value;
      buffer := buffer + CRLF;
    }
  }

  lemma UptoNext(a: string, order: seq<string>, key: string, headers: Headers)
    requires (forall k :: k in order ==> k in headers) && key in headers
    ensures Upto(a, FieldsOf(order + [key], headers), |order| + 1) ==
      Upto(a, FieldsOf(order, headers), |order|) + key + ": " + headers[key] + CRLF
  {
    var fields := FieldsOf(order + [key], headers);
    UptoSame(a, FieldsOf(order, headers), fields, |order|);
    assert Head(fields[|order|]) == key + ": " + headers[key];
  }

  lemma {:induction false} UptoSame(a: string, fields: seq<Field>, more: seq<Field>, i: nat)
    requires i <= |fields| <= |more| && forall j :: 0 <= j < |fields| ==> fields[j] == more[j]
    ensures Upto(a, fields, i) == Upto(a, more, i)
  {
    if i > 0 { UptoSame(a, fields, more, i - 1); }
  }

  lemma Built(a: string, fields: seq<Field>, body: string)
    ensures Upto(a, fields, |fields|) + CRLF + body == a + PrintFields(fields, 0, CRLF + body)
  {
    FieldsSplit(a, fields, |fields|, CRLF + body, a + PrintFields(fields, 0, CRLF + body));
  }

  /* ---- Reading it back ---- */

  // Headers that fit a header block: token names that differ in more than case, printable values.
  ghost predicate Printable(headers: Headers) {
    && (forall k :: k in headers ==> IsField(Field(k, " ", headers[k])))
    && (forall k, l :: k in headers && l in headers && ToLower(k) == ToLower(l) ==> k == l)
  }

  // The same headers under lower-case names.
  ghost predicate IsLowered(lowered: Headers, headers: Headers) {
    && (forall k :: k in headers ==> ToLower(k) in lowered && lowered[ToLower(k)] == headers[k])
    && (forall n :: n in lowered ==> exists k :: k in headers && ToLower(k) == n)
  }

  lemma FieldsAreLowered(order: seq<string>, headers: Headers)
    requires IsOrder(order, headers) && Printable(headers)
    ensures IsLowered(FieldMap(FieldsOf(order, headers), |order|), headers)
  {
    hide FieldMap, IsField, ToLower;
    var fields, m := FieldsOf(order, headers), FieldMap(FieldsOf(order, headers), |order|);
    forall k | k in headers ensures ToLower(k) in m && m[ToLower(k)] == headers[k] {
      var i :| 0 <= i < |order| && order[i] == k;
      FirstFieldWins(fields, |order|, i, ToLower(k));
    }
    forall n | n in m ensures exists k :: k in headers && ToLower(k) == n {
      if forall j: nat :: j < |order| ==> !Named(fields, j, n) {
        AbsentField(fields, |order|, n);
      } else {
        var j: nat :| j < |order| && Named(fields, j, n);
        assert order[j] in headers && ToLower(order[j]) == n;
      }
    }
  }

  // Whatever the order of the map, parsing the built header block gives the headers under lower-case
  // names and stops four bytes before the body.
  lemma PrinterParserAgreement(status: Status, order: seq<string>, headers: Headers, body: string)
    requires IsOrder(order, headers) && Printable(headers) && headers != map[]
    ensures var text := ResponseText(status, order, headers, body);
      |body| + 4 <= |text| && text[|text| - |body|..] == body &&
      exists lowered :: IsLowered(lowered, headers) &&
        HeaderBlock(text, |text|, |StatusLine(status)|, map[], None) == Block(lowered, |text| - |body| - 4, None)
  {
    hide HeaderBlock, FieldMap, IsField, StatusLine, PrintFields, IsLowered;
    var fields := FieldsOf(order, headers);
    var text := ResponseText(status, order, headers, body);
    var k :| k in headers;
    assert k in order && fields != [];
    BlockRoundTrip(StatusLine(status), fields, body, text, None);
    BlockEnds(StatusLine(status), fields, body, text);
    assert text[|text| - |body|..] == text[|text| - |body| - 4..][4..];
    FieldsAreLowered(order, headers);
  }

  // The Content-Length that `Build` adds reads back as the size of the body.
  lemma LengthReadsBack(headers: Headers, body: string, lowered: Headers)
    requires body != "" && CONTENT_LENGTH !in headers && IsLowered(lowered, WithLength(headers, body))
    ensures ContentLength(lowered) == Some(|body|)
  {
    hide Atoi, Decimal;
    assert CONTENT_LENGTH in WithLength(headers, body);
    assert ToLower(CONTENT_LENGTH) == "content-length";
    AtoiDecimal(|body|);
  }

  // A length is added exactly to a response that has a body and no such header yet; nothing else is.
  lemma LengthAddedIff(headers: Headers, body: string)
    ensures WithLength(headers, body) != headers <==> body != "" && CONTENT_LENGTH !in headers
    ensures forall k :: k != CONTENT_LENGTH ==>
      (k in WithLength(headers, body) <==> k in headers) && (k in headers ==> WithLength(headers, body)[k] == headers[k])
  {
    if body != "" && CONTENT_LENGTH !in headers { assert CONTENT_LENGTH in WithLength(headers, body); }
  }

  // A built response starts with the protocol, a blank, and a status code that reads back as the one set; behind
  // the code's digits its first line has a blank and the reason.
  lemma StatusReadsBack(status: Status, order: seq<string>, headers: Headers, body: string)
    requires IsOrder(order, headers)
    ensures var text, line := ResponseText(status, order, headers, body), |StatusLine(status)|;
      && 12 + |status.reason| <= line <= |text|
      && text[..9] == "HTTP/1.1 " && Atoi(text[9..]) == status.code
      && text[9..line - |status.reason| - 3] == Decimal(status.code)
      && text[line - |status.reason| - 3..line] == " " + status.reason + CRLF
  {
    hide Atoi, Decimal, PrintFields;
    FirstLine(status, PrintFields(FieldsOf(order, headers), 0, CRLF + body), ResponseText(status, order, headers, body));
  }

  lemma FirstLine(status: Status, block: string, text: string)
    requires text == StatusLine(status) + block
    ensures var line := |StatusLine(status)|;
      && 12 + |status.reason| <= line <= |text|
      && text[..9] == "HTTP/1.1 " && Atoi(text[9..]) == status.code
      && text[9..line - |status.reason| - 3] == Decimal(status.code)
      && text[line - |status.reason| - 3..line] == " " + status.reason + CRLF
  {
    hide Atoi, Decimal;
    var pre, number, reason := "HTTP/1.1" + " ", Decimal(status.code), status.reason + CRLF;
    var rest := " " + (reason + block);
    LineParts(pre, number, " ", status.reason, CRLF, block);
    assert text == pre + (number + rest);
    AtoiDecimalThen(status.code, rest);
    assert text[|pre|..] == number + rest && text[..|pre|] == pre;
    TextAt(pre, number, rest, text);
    BlankAndReason(pre + number, " ", reason, block, text);
  }

  lemma BlankAndReason(a: string, blank: string, reason: string, block: string, text: string)
    requires text == (a + blank) + (reason + block)
    ensures |a| + |blank + reason| <= |text| && text[|a|..|a| + |blank + reason|] == blank + reason
  {
  }

  lemma LineParts(pre: string, number: string, blank: string, reason: string, end: string, block: string)
    ensures pre + number + blank + reason + end + block == pre + (number + (blank + ((reason + end) + block)))
    ensures pre + number + blank + reason + end + block == (pre + number + blank) + ((reason + end) + block)
  {
  }
}
