/**
 Templates beside the usual ones: without binds, with a prefix that ends in a slash, and with a name that
 stands at the very start of the path.
 */
module RouteEdges {
  import opened Text
  import opened StringUtils
  import opened Route
  import opened RouteProofs
  import opened RouteMatching

  // A path compiles exactly when it starts with a slash.
  lemma CompilesIff(path: string)
    ensures Compile(path).Some? <==> path != "" && path[0] == '/'
  {
    if path != "" { assert path[..1] == [path[0]]; }
  }

  /* ---- No binds ---- */

  lemma {:induction false} NoBindAhead(path: string, i: nat)
    requires IsPrefix(path) && 1 <= i <= |path|
    ensures NextBind(path, i) == |path|
    decreases |path| - i
  {
    if i < |path| { NoBindAhead(path, i + 1); }
  }

  lemma StaticCompiles(path: string)
    requires IsPrefix(path)
    ensures Compile(path) == Some((path, []))
  {
    assert path[..1] == [path[0]];
    NoBindAhead(path, 1);
  }

  // A route without binds accepts its own path, with its own method, and nothing else.
  lemma StaticMatchIff(path: string, m: Method, target: string, requested: Method)
    requires IsPrefix(path)
    ensures TemplateOf(path, m) == Some(Template(path, path, m, []))
    ensures Try(Template(path, path, m, []), target, requested) ==
      Attempt(if requested == m && target == path then Match else NoMatch, [], 0)
  {
    StaticCompiles(path);
    assert path[..1] == [path[0]];
    var start := FindPrefix(target, path, 0);
    if start.Some? { assert Values(target, start.value, 0) == []; }
  }

  /* ---- A prefix that ends in a slash ---- */

  lemma {:induction false} TooLate(target: string, uri: string, i: nat)
    requires i > |uri|
    ensures FindPrefix(target, uri, i) == None
    decreases |target| - i
  {
    if i < |target| {
      assert |target[..i]| != |uri|;
      TooLate(target, uri, i + 1);
      TooLate(target, uri, i + 2);
    }
  }

  lemma {:induction false} NotThere(target: string, uri: string, i: nat)
    requires !StartsWith(target, uri)
    ensures FindPrefix(target, uri, i) == None
    decreases |target| - i
  {
    if i < |target| {
      if |uri| == i { assert target[..|uri|] != uri; }
      NotThere(target, uri, i + 1);
      NotThere(target, uri, i + 2);
    }
  }

  lemma {:induction false} SkippedOver(target: string, q: string, i: nat)
    requires IsMatchable(q) && StartsWith(target, q + "/") && i <= |q|
    ensures FindPrefix(target, q + "/", i) == None
    decreases |q| - i
  {
    var uri := q + "/";
    assert target[..|uri|] == uri;
    assert forall j :: 0 <= j < |uri| ==> target[j] == uri[j];
    assert |target[..i]| != |uri|;
    if i == |q| {
      TooLate(target, uri, i + 2);
    } else if target[i] == '/' {
      SkippedOver(target, q, i + 2);
    } else {
      SkippedOver(target, q, i + 1);
    }
  }

  // The scan skips the slash behind such a prefix: whatever its binds, the route accepts its bare prefix only.
  lemma TrailingSlashNeverBinds(q: string, path: string, names: seq<string>, m: Method, target: string, requested: Method)
    requires IsMatchable(q)
    ensures Try(Template(path, q + "/", m, names), target, requested) ==
      Attempt(if requested == m && target == q + "/" then Match else NoMatch, [], 0)
  {
    if StartsWith(target, q + "/") { SkippedOver(target, q, 0); } else { NotThere(target, q + "/", 0); }
    assert (q + "/")[..1] == [q[0]];
  }

  /* ---- A path that ends in a slash ---- */

  // The key of the last bind then runs up to that slash, and takes in any literal segments before it.
  lemma TrailingSlashJoins(prefix: string, key: string)
    requires IsPrefix(prefix) && Free(key, ':')
    ensures Compile(prefix + ("/:" + (key + "/"))) == Some((prefix, [Param(key, "", |prefix| + 1)]))
  {
    hide Keys;
    var rest := "/:" + (key + "/");
    var path := prefix + rest;
    assert StartsWith(path, "/") by { assert path[..1] == [path[0]]; }
    assert BindAt(rest, 0);
    PrefixHasNoBind(prefix, rest, 1);
    assert path[..|prefix|] == prefix && |path| > |prefix|;
    assert path == (prefix + "/:") + (key + "/");
    KeyUpToSlash(prefix + "/:", key, path);
  }

  lemma KeyUpToSlash(a: string, key: string, path: string)
    requires a != [] && a[|a| - 1] == ':' && Free(key, ':') && path == a + (key + "/")
    ensures Keys(path, |a| - 1) == [Param(key, "", |a| - 1)]
  {
    var b := |a|;
    TextAt(a, key, "/", path);
    assert path[|path| - 1] == '/' && path[b - 1] == ':';
    forall j | b <= j < |path| ensures path[j] != ':' { assert path[j] == (key + "/")[j - b]; }
    NoColonNoBind(path, b);
    assert KeyEnd(path, b) == (b + |key|, |path|);
    assert Keys(path, |path| + 1) == [];
    assert Keys(path, b - 1) == [Param(key, "", b - 1)] + [];
  }

  lemma {:induction false} NoColonNoBind(path: string, i: nat)
    requires i <= |path| && forall j :: i <= j < |path| ==> path[j] != ':'
    ensures NextBind(path, i) == |path|
    decreases |path| - i
  {
    if i < |path| { NoColonNoBind(path, i + 1); }
  }

  /* ---- A name at the start of the path ---- */

  // With one bind, matching a target behind the prefix raises an exception exactly when the name stands at the
  // start of the path, as the empty name does.
  lemma OneBindThrowsIff(path: string, prefix: string, name: string, m: Method, more: string, requested: Method)
    requires IsMatchable(prefix)
    ensures Try(Template(path, prefix, m, [name]), prefix + ("/" + more), requested).outcome == Throws <==>
      requested == m && Occurs(path, name, 0)
  {
    var t, target := Template(path, prefix, m, [name]), prefix + ("/" + more);
    ScanFinds(prefix, "/" + more, 0);
    assert target[..1] == [prefix[0]] && |target| > |prefix|;
    var values := Values(target, |prefix| + 1, 1);
    FindFirst(path, name, 0);
    if requested == m {
      var next := ReplaceKey(path, name, values[0]);
      assert Occurs(path, name, 0) <==> next.None?;
      assert next.Some? ==> Substitute(next.value, [name], values, 1) == (next, 1);
    }
  }

  lemma EmptyNameThrows(path: string, prefix: string, m: Method, more: string)
    requires IsMatchable(prefix)
    ensures Try(Template(path, prefix, m, [""]), prefix + ("/" + more), m).outcome == Throws
  {
    assert Occurs(path, "", 0);
    OneBindThrowsIff(path, prefix, "", m, more, m);
  }
}
