/**
 Start lines the parser rejects: which error it reports for which fault, and that it never yields a request after.
 */
module ParserRejects {
  import opened Text
  import opened CharClasses
  import opened HttpParser
  import opened ParserProofs
  import opened RequestProofs

  // A start line that is right up to a character: behind the method, behind the target, in the protocol, or both
  // characters of the line's end.
  datatype Broken =
    | InMethodText(m: string, c: char, rest: string)
    | InTargetText(m: string, t: string, c: char, rest: string)
    | InVersion(m: string, t: string, v: string, rest: string)
    | InLineEnd(m: string, t: string, c: char, d: char, rest: string)

  predicate AreLetters(m: string) { forall x :: 0 <= x < |m| ==> IsAlpha(m[x]) }
  predicate ArePathChars(t: string) { forall x :: 0 <= x < |t| ==> IsPathChar(t[x]) }

  // The fault shows: more was received, or the character is another token's, or a space in front of everything.
  predicate Shows(m: string, c: char, rest: string) { rest != [] || IsTokenChar(c) || (m == [] && IsSpace(c)) }

  predicate IsBroken(b: Broken) {
    match b
    case InMethodText(m, c, rest) => AreLetters(m) && !IsAlpha(c) && (c == ' ' ==> m == []) && Shows(m, c, rest)
    case InTargetText(m, t, c, rest) =>
      IsMethod(m) && ArePathChars(t) && !IsPathChar(c) && (c == ' ' ==> t == []) && (rest != [] || t == [])
    case InVersion(m, t, v, _) => IsMethod(m) && IsTarget(t) && |v| == 8 && v != "HTTP/1.1"
    case InLineEnd(m, t, c, d, _) => IsMethod(m) && IsTarget(t) && c != '\r' && d != '\n'
  }

  function LineOf(b: Broken): string {
    match b
    case InMethodText(m, c, rest) => m + ([c] + rest)
    case InTargetText(m, t, c, rest) => m + (" " + (t + ([c] + rest)))
    case InVersion(m, t, v, rest) => m + (" " + (t + (" " + (v + rest))))
    case InLineEnd(m, t, c, d, rest) => m + (" " + (t + (" " + ("HTTP/1.1" + ([c, d] + rest)))))
  }

  function Reason(b: Broken): HttpError {
    match b
    case InMethodText(_, _, _) => BadMethod
    case InTargetText(_, _, _, _) => BadTarget
    case InVersion(_, _, _, _) => BadVersion
    case InLineEnd(_, _, _, _, _) => InvalidRequestLine
  }

  lemma MethodRejected(m: string, c: char, rest: string, mem: string)
    requires AreLetters(m) && !IsAlpha(c) && (c == ' ' ==> m == []) && Shows(m, c, rest) && mem == m + ([c] + rest)
    ensures MethodAt(mem, |mem|, 0) == Error(BadMethod)
  {
    assert mem == [] + (m + ([c] + rest));
    SkipOver(IsAlpha, [], m, [c] + rest, mem);
    assert mem[|m|] == c && mem[0] == if m == [] then c else m[0];
  }

  lemma TargetRejected(a: string, t: string, c: char, rest: string, mem: string)
    requires ArePathChars(t) && !IsPathChar(c) && (c == ' ' ==> t == []) && mem == a + (t + ([c] + rest))
    requires rest != [] || t == []
    ensures TargetAt(mem, |mem|, |a|) == Error(BadTarget)
  {
    SkipOver(IsPathChar, a, t, [c] + rest, mem);
    assert mem[|a| + |t|] == c && mem[|a|] == if t == [] then c else t[0];
  }

  lemma ProtocolIs(a: string, v: string, rest: string, mem: string)
    requires |v| == 8 && mem == a + (v + rest)
    ensures var r := ProtocolAt(mem, |mem|, |a|);
      r == Error(BadVersion) || (r == Ok(r.value, |a| + 8) && (r.value == 11 ==> v == "HTTP/1.1"))
  {
    TextAt(a, v, rest, mem);
    var r, k := ProtocolAt(mem, |mem|, |a|), |a|;
    assert v[..5] == mem[k..k + 5];
    assert v == v[..5] + [v[5], v[6], v[7]];
    if r.Ok? && r.value == 11 {
      assert v[5] == '1' && v[7] == '1';
      assert "HTTP/1.1" == "HTTP/" + ['1', '.', '1'];
    }
  }

  // The stage a broken start line ends in.
  lemma BrokenStage(b: Broken, s: State)
    requires IsBroken(b)
    ensures var r := StartLine(s, LineOf(b), |LineOf(b)|);
      r.Stage? && r.ec == Some(Reason(b)) && r.s.phase in {InMethod, InTarget, InProtocol, ProtocolDone}
  {
    hide MethodAt, TargetAt, ProtocolAt, IsMethod, IsTarget, HeaderBlock, AfterProtocol, AreLetters, ArePathChars;
    var mem := LineOf(b);
    match b
    case InMethodText(m, c, rest) => MethodRejected(m, c, rest, mem);
    case InTargetText(m, t, c, rest) =>
      MethodReads(m, t + ([c] + rest), mem);
      Shift(m, " ", t + ([c] + rest), mem);
      TargetRejected(m + " ", t, c, rest, mem);
    case InVersion(m, t, v, rest) =>
      TargetThen(m, t, v + rest, mem);
      ProtocolIs(m + " " + t + " ", v, rest, mem);
    case InLineEnd(m, t, c, d, rest) =>
      TargetThen(m, t, "HTTP/1.1" + ([c, d] + rest), mem);
      ProtocolReads(m + " " + t + " ", [c, d] + rest, mem);
      Shift(m + " " + t + " ", "HTTP/1.1", [c, d] + rest, mem);
      TextAt(m + " " + t + " " + "HTTP/1.1", [c, d], rest, mem);
      assert mem[|m| + |t| + 10 + 0] == c && mem[|m| + |t| + 10 + 1] == d;
  }

  lemma TargetThen(m: string, t: string, rest: string, mem: string)
    requires IsMethod(m) && IsTarget(t) && mem == m + (" " + (t + (" " + rest))) && rest != []
    ensures MethodAt(mem, |mem|, 0) == Ok(m, |m| + 1) && TargetAt(mem, |mem|, |m| + 1) == Ok(t, |m| + |t| + 2)
    ensures mem == (m + " " + t + " ") + rest
  {
    hide IsMethod, IsTarget, MethodAt, TargetAt;
    MethodReads(m, t + (" " + rest), mem);
    Shift(m, " ", t + (" " + rest), mem);
    TargetReads(m + " ", t, rest, mem);
  }

  // The fault in a start line is reported by its own error, the parser keeps no request and is stuck, and no
  // later buffers ever bring one.
  lemma BrokenIsRejected(b: Broken, contentType: ContentType, later: seq<Buffer>)
    requires IsBroken(b) && AreBuffers(later)
    ensures var mem := LineOf(b);
      var r := ParseCall(Fresh(contentType), mem, |mem|);
      r.Call? && r.request == None && r.ec == Some(Reason(b)) && Stuck(r.s)
    ensures AreBuffers([Buffer(LineOf(b), |LineOf(b)|)] + later)
    ensures var run := Calls(Fresh(contentType), [Buffer(LineOf(b), |LineOf(b)|)] + later); run.Run? && run.requests == []
  {
    hide StartLine, MediaMore, MediaFirst, ContentLength, Calls, IsBroken, LineOf;
    BrokenStage(b, Fresh(contentType));
    BrokenIsLong(b);
    var r := ParseCall(Fresh(contentType), LineOf(b), |LineOf(b)|);
    assert r.Call? && r.request == None && r.ec == Some(Reason(b)) && Stuck(r.s);
    CallsFrom(Fresh(contentType), Buffer(LineOf(b), |LineOf(b)|), later);
    FruitlessRun(r.s, later);
  }

  lemma BrokenIsLong(b: Broken)
    requires IsBroken(b)
    ensures LineOf(b) != []
  {
  }
}
