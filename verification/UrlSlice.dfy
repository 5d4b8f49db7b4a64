/**
 Cutting a URL into its components by slicing pieces off a string, one delimiter at a time.
 */
module UrlSlice {
  import opened Text
  import opened StringUtils

  // What slicing takes off, and what it leaves.
  datatype Slice = Slice(piece: string, rest: string)

  function TailOf(subject: string, delimiter: string, keep: bool): Slice {
    var at := Find(subject, delimiter, 0);
    if at.None? then Slice("", subject)
    else Slice(subject[if keep then at.value else at.value + |delimiter|..], subject[..at.value])
  }

  function HeadOf(subject: string, delimiter: string): Slice {
    var at := Find(subject, delimiter, 0);
    if at.None? then Slice("", subject)
    else Slice(subject[..at.value], subject[at.value + |delimiter|..])
  }

  // A string that slicing shortens in place.
  class Subject {
    var text: string

    constructor (text: string)
      ensures this.text == text
    {
      this.text := text;
    }

    method TailSlice(delimiter: string, keep: bool) returns (output: string)
      modifies this
      ensures Slice(output, text) == TailOf(old(text), delimiter, keep)
    {
      var at := Find(text, delimiter, 0);
      output := "";
      if at.Some? {
        var start := if keep then at.value else at.value + |delimiter|;
        output := text[start..];
        text := text[..at.value];
      }
    }

    method HeadSlice(delimiter: string) returns (output: string)
      modifies this
      ensures Slice(output, text) == HeadOf(old(text), delimiter)
    {
      var at := Find(text, delimiter, 0);
      output := "";
      if at.Some? {
        output := text[..at.value];
        text := text[at.value + |delimiter|..];
      }
    }
  }

  datatype Url = Url(protocol: string, user: string, password: string, host: string, path: string, search: string, port: int)

  function Parsed(text: string): Url {
    var protocol := HeadOf(text, "://");
    var search := TailOf(protocol.rest, "?", false);
    var path := TailOf(search.rest, "/", true);
    var userpass := HeadOf(path.rest, "@");
    var password := TailOf(userpass.piece, ":", false);
    var port := TailOf(userpass.rest, ":", false);
    Url(protocol.piece, password.rest, password.piece, port.rest, path.piece, search.piece, Atoi(port.piece))
  }

  // The source works on a copy of its argument.
  method ParseHTTPURL(text: string) returns (url: Url)
    ensures url == Parsed(text)
  {
    var temp := new Subject(text);
    var protocol := temp.HeadSlice("://");
    var search := temp.TailSlice("?", false);
    var path := temp.TailSlice("/", true);
    var userpass := new Subject("");
    userpass.text := temp.HeadSlice("@");
    var password := userpass.TailSlice(":", false);
    var port := temp.TailSlice(":", false);
    return Url(protocol, userpass.text, password, temp.text, path, search, Atoi(port));
  }

  /* ---- The round trip ---- */

  // Slicing at the first delimiter between two texts.
  predicate FirstAt(a: string, delimiter: string, rest: string) {
    forall j: nat :: j < |a| ==> !Occurs(a + (delimiter + rest), delimiter, j)
  }

  lemma CutAt(a: string, delimiter: string, rest: string, text: string)
    requires FirstAt(a, delimiter, rest) && text == a + (delimiter + rest)
    ensures Find(text, delimiter, 0) == Some(|a|)
    ensures text[..|a|] == a && text[|a|..] == delimiter + rest && text[|a| + |delimiter|..] == rest
  {
    assert text[|a|..|a| + |delimiter|] == delimiter;
    FindIs(text, delimiter, 0, |a|);
  }

  lemma FirstChar(a: string, c: char, rest: string)
    requires Free(a, c)
    ensures FirstAt(a, [c], rest)
  {
    forall j: nat | j < |a| ensures !Occurs(a + ([c] + rest), [c], j) {
      OccursChar(a + ([c] + rest), c, j);
      assert (a + ([c] + rest))[j] == a[j];
    }
  }

  lemma FreeAppend(a: string, b: string, c: char)
    requires Free(a, c) && Free(b, c)
    ensures Free(a + b, c)
  {
  }

  lemma HeadCut(a: string, delimiter: string, rest: string, text: string)
    requires FirstAt(a, delimiter, rest) && text == a + (delimiter + rest)
    ensures HeadOf(text, delimiter) == Slice(a, rest)
  {
    CutAt(a, delimiter, rest, text);
  }

  lemma TailCut(a: string, delimiter: string, rest: string, text: string, keep: bool)
    requires FirstAt(a, delimiter, rest) && text == a + (delimiter + rest)
    ensures TailOf(text, delimiter, keep) == Slice(if keep then delimiter + rest else rest, a)
  {
    CutAt(a, delimiter, rest, text);
  }

  function PrintAuthority(u: Url, port: nat): string {
    u.user + (":" + (u.password + ("@" + (u.host + (":" + Decimal(port))))))
  }

  function PrintUrl(u: Url, port: nat): string {
    u.protocol + ("://" + (PrintAuthority(u, port) + (u.path + ("?" + u.search))))
  }

  // Each component avoids the delimiters that are looked for while it is still in the string.
  ghost predicate Sliceable(u: Url) {
    && (forall j: nat :: !Occurs(u.protocol, "://", j))
    && Free(u.user, '?') && Free(u.user, '/') && Free(u.user, '@') && Free(u.user, ':')
    && Free(u.password, '?') && Free(u.password, '/') && Free(u.password, '@')
    && Free(u.host, '?') && Free(u.host, '/') && Free(u.host, ':')
    && u.path != "" && u.path[0] == '/' && Free(u.path, '?')
  }

  // A colon and two slashes do not occur across the end of what stands before them.
  lemma ProtocolFirst(a: string, rest: string)
    requires forall j: nat :: !Occurs(a, "://", j)
    ensures FirstAt(a, "://", rest)
  {
    var text, d := a + ("://" + rest), "://";
    forall j: nat | j < |a| ensures !Occurs(text, d, j) {
      assert !Occurs(a, d, j);
      if j + 3 <= |a| {
        assert text[j..j + 3] == a[j..j + 3];
      } else {
        assert text[j..j + 3][|a| - j] == text[|a|] == ':';
      }
    }
  }

  lemma AuthorityAvoids(u: Url, port: nat, c: char)
    requires Free(u.user, c) && Free(u.password, c) && Free(u.host, c) && c != ':' && c != '@' && !IsDigit(c)
    ensures Free(PrintAuthority(u, port), c)
  {
    FreeAppend(":", Decimal(port), c);
    FreeAppend(u.host, ":" + Decimal(port), c);
    FreeAppend("@", u.host + (":" + Decimal(port)), c);
    FreeAppend(u.password, "@" + (u.host + (":" + Decimal(port))), c);
    FreeAppend(":", u.password + ("@" + (u.host + (":" + Decimal(port)))), c);
    FreeAppend(u.user, ":" + (u.password + ("@" + (u.host + (":" + Decimal(port))))), c);
  }

  // Behind the protocol: the search, the path and the authority.
  lemma BehindProtocol(u: Url, port: nat, text: string)
    requires Sliceable(u) && text == PrintAuthority(u, port) + (u.path + ("?" + u.search))
    ensures var search := TailOf(text, "?", false);
      search.piece == u.search && TailOf(search.rest, "/", true) == Slice(u.path, PrintAuthority(u, port))
  {
    hide PrintAuthority;
    var a := PrintAuthority(u, port);
    AuthorityAvoids(u, port, '?');
    AuthorityAvoids(u, port, '/');
    assert text == (a + u.path) + ("?" + u.search);
    FreeAppend(a, u.path, '?');
    FirstChar(a + u.path, '?', u.search);
    TailCut(a + u.path, "?", u.search, text, false);
    assert u.path == "/" + u.path[1..];
    FirstChar(a, '/', u.path[1..]);
    TailCut(a, "/", u.path[1..], a + u.path, true);
  }

  lemma InsideAuthority(u: Url, port: nat)
    requires Sliceable(u)
    ensures var userpass := HeadOf(PrintAuthority(u, port), "@");
      TailOf(userpass.piece, ":", false) == Slice(u.password, u.user) &&
      TailOf(userpass.rest, ":", false) == Slice(Decimal(port), u.host)
  {
    hide Decimal;
    var up, hp := u.user + (":" + u.password), u.host + (":" + Decimal(port));
    assert PrintAuthority(u, port) == up + ("@" + hp);
    FreeAppend(":", u.password, '@');
    FreeAppend(u.user, ":" + u.password, '@');
    FirstChar(up, '@', hp);
    HeadCut(up, "@", hp, PrintAuthority(u, port));
    FirstChar(u.user, ':', u.password);
    TailCut(u.user, ":", u.password, up, false);
    FirstChar(u.host, ':', Decimal(port));
    TailCut(u.host, ":", Decimal(port), hp, false);
  }

  // A printed URL is sliced back into its components. The port is one that fits the source's int.
  lemma RoundTrip(u: Url, port: nat)
    requires Sliceable(u) && port < 0x8000_0000
    ensures Parsed(PrintUrl(u, port)) == u.(port := port)
  {
    hide PrintAuthority, Decimal, Atoi, HeadOf, TailOf;
    var rest := PrintAuthority(u, port) + (u.path + ("?" + u.search));
    ProtocolFirst(u.protocol, rest);
    HeadCut(u.protocol, "://", rest, PrintUrl(u, port));
    BehindProtocol(u, port, rest);
    InsideAuthority(u, port);
    AtoiDecimal(port);
  }

  // Without the separator after the protocol, without "?", "/", "@" or ":", nothing is taken off: the
  // whole string is the host and the port is 0, not the -1 of an absent one.
  lemma BareHost(host: string)
    requires Free(host, '/') && Free(host, '?') && Free(host, '@') && Free(host, ':')
    ensures Parsed(host) == Url("", "", "", host, "", "", 0)
  {
    forall j: nat ensures !Occurs(host, "://", j) {
      if j + 3 <= |host| { assert host[j..j + 3][0] == host[j]; }
    }
    FindNone(host, "://", 0);
    FindNoChar(host, '?', 0);
    FindNoChar(host, '/', 0);
    FindNoChar(host, '@', 0);
    FindNoChar(host, ':', 0);
    FindNoChar("", ':', 0);
  }
}
