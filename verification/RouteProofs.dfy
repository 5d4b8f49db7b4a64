/**
 What routes promise: compiling a rendered template gives its parts back, and matching accepts
 exactly the targets that are the template with slash-free values put in.
 */
module RouteProofs {
  import opened Text
  import opened StringUtils
  import opened Route

  /* ---- Templates and their instances as text ---- */

  // The binds from the i-th on, then the suffix.
  function Binds(names: seq<string>, i: nat, suffix: string): string
    requires i <= |names|
    decreases |names| - i
  {
    if i == |names| then suffix else "/:" + (names[i] + Binds(names, i + 1, suffix))
  }

  function Render(prefix: string, names: seq<string>, suffix: string): string {
    prefix + Binds(names, 0, suffix)
  }

  // The prefix with the first i values put in, and what follows them.
  function Before(prefix: string, values: seq<string>, i: nat): string
    requires i <= |values|
  {
    if i == 0 then prefix else Before(prefix, values, i - 1) + "/" + values[i - 1]
  }

  function Segments(values: seq<string>, i: nat, suffix: string): string
    requires i <= |values|
    decreases |values| - i
  {
    if i == |values| then suffix else "/" + (values[i] + Segments(values, i + 1, suffix))
  }

  function Instance(prefix: string, values: seq<string>, suffix: string): string {
    prefix + Segments(values, 0, suffix)
  }

  // A prefix holds no bind of its own (the scan for one starts after the first character).
  predicate IsPrefix(prefix: string) {
    && prefix != [] && prefix[0] == '/'
    && forall x :: 1 <= x < |prefix| - 1 ==> !(prefix[x] == '/' && prefix[x + 1] == ':')
  }

  predicate IsName(name: string) { Free(name, '/') && Free(name, ':') }

  predicate IsSuffix(suffix: string) {
    suffix != [] ==> suffix[0] == '/' && Free(suffix, ':') && suffix[|suffix| - 1] != '/'
  }

  /* ---- Compiling gives the parts back ---- */

  lemma {:induction false} NextBindShift(a: string, s: string, i: nat)
    requires i <= |s|
    ensures NextBind(a + s, |a| + i) == |a| + NextBind(s, i)
    decreases |s| - i
  {
    if i < |s| {
      assert CharAt(a + s, |a| + i) == CharAt(s, i) && CharAt(a + s, |a| + i + 1) == CharAt(s, i + 1);
      NextBindShift(a, s, i + 1);
    }
  }

  lemma {:induction false} NextBindSkip(name: string, s: string, i: nat)
    requires Free(name, '/') && i <= |name|
    ensures NextBind(name + s, i) == |name| + NextBind(s, 0)
    decreases |name| - i
  {
    if i < |name| { NextBindSkip(name, s, i + 1); } else { NextBindShift(name, s, 0); }
  }

  lemma {:induction false} NoBind(s: string, i: nat)
    requires Free(s, ':') && i <= |s|
    ensures NextBind(s, i) == |s| && (i < |s| ==> !BindAt(s, i))
    decreases |s| - i
  {
    if i < |s| { NoBind(s, i + 1); }
  }

  lemma {:induction false} NoKeys(path: string, i: nat)
    requires forall x :: i <= x < |path| ==> path[x] != ':'
    ensures Keys(path, i) == []
    decreases |path| - i
  {
    if i < |path| { NoKeys(path, i + 1); }
  }

  lemma {:induction false} EndsAt(s: string, c: char, i: nat, j: nat)
    requires i <= j <= |s| && (j < |s| ==> s[j] == c) && forall x :: i <= x < j ==> s[x] != c
    ensures TokenEnd(s, c, i) == j
    decreases j - i
  {
    if i < j { EndsAt(s, c, i + 1, j); }
  }

  // The prefix with the first i binds, and where the colon of the i-th bind stands.
  function Named(prefix: string, names: seq<string>, i: nat): string
    requires i <= |names|
  {
    if i == 0 then prefix else Named(prefix, names, i - 1) + "/:" + names[i - 1]
  }

  function Colon(prefix: string, names: seq<string>, i: nat): nat
    requires i <= |names|
  {
    if i == 0 then |prefix| + 1 else Colon(prefix, names, i - 1) + |names[i - 1]| + 2
  }

  // The parameters the binds from the i-th on should compile to.
  function Expected(prefix: string, names: seq<string>, i: nat): seq<Param>
    requires i <= |names|
    decreases |names| - i
  {
    if i == |names| then [] else [Param(names[i], "", Colon(prefix, names, i))] + Expected(prefix, names, i + 1)
  }

  // The key after a bind's colon is the bind's name; the scan stops where the rest begins.
  lemma KeyOfBind(a: string, name: string, rest: string)
    requires IsName(name) && |a| >= 2 && a[|a| - 1] == ':'
    requires if rest != [] && BindAt(rest, 0) then true else IsSuffix(rest)
    ensures var path := a + (name + rest);
      KeyEnd(path, |a|) == (|a| + |name|, |a| + |name|) && path[|a|..|a| + |name|] == name
  {
    var path := a + (name + rest);
    assert path[|a| - 1] == ':';
    TextAt(a, name, rest, a + (name + rest));
    NextBindShift(a, name + rest, 0);
    NextBindSkip(name, rest, 0);
    if rest == [] || !BindAt(rest, 0) {
      NoBind(rest, 0);
      assert path[|path| - 1] != '/';
      EndsAt(path, '/', |a|, |a| + |name|);
    }
  }

  // One bind taken: its parameter, then the keys after the key's end.
  lemma KeysStep(path: string, colon: nat, end: nat)
    requires colon < |path| && path[colon] == ':' && KeyEnd(path, colon + 1) == (end, end)
    ensures Keys(path, colon) == [Param(path[colon + 1..end], "", colon)] + Keys(path, end + 1)
  {
  }

  lemma NoKeysAfter(a: string, rest: string, path: string, i: nat)
    requires path == a + rest && Free(rest, ':') && i >= |a|
    ensures Keys(path, i) == []
  {
    assert forall x :: i <= x < |path| ==> path[x] == rest[x - |a|];
    NoKeys(path, i);
  }

  lemma KeysAfterBind(a: string, name: string, rest: string, path: string, colon: nat)
    requires IsName(name) && path == (a + "/:") + (name + rest) && colon == |a| + 1
    requires if rest != [] && BindAt(rest, 0) then true else IsSuffix(rest)
    ensures Keys(path, colon) == [Param(name, "", colon)] + Keys(path, colon + |name| + 2)
  {
    KeyOfBind(a + "/:", name, rest);
    assert path[colon] == ':';
    KeysStep(path, colon, colon + 1 + |name|);
  }

  lemma Regroup3(a: string, b: string, c: string, d: string, path: string)
    requires path == a + (b + (c + d))
    ensures path == (a + b) + (c + d) && path == (a + b + c) + d
  {
  }

  lemma BindsStart(names: seq<string>, i: nat, suffix: string)
    requires i <= |names| && IsSuffix(suffix)
    ensures var rest := Binds(names, i, suffix);
      if i < |names| then rest != [] && BindAt(rest, 0) else rest == suffix && (rest == [] || !BindAt(rest, 0))
  {
  }

  lemma {:induction false} RenderSplit(prefix: string, names: seq<string>, i: nat, suffix: string)
    requires i <= |names|
    ensures Render(prefix, names, suffix) == Named(prefix, names, i) + Binds(names, i, suffix)
    ensures |Named(prefix, names, i)| + 1 == Colon(prefix, names, i)
  {
    if i > 0 {
      RenderSplit(prefix, names, i - 1, suffix);
      Regroup3(Named(prefix, names, i - 1), "/:", names[i - 1], Binds(names, i, suffix), Render(prefix, names, suffix));
    }
  }

  lemma RenderAt(prefix: string, names: seq<string>, i: nat, suffix: string)
    requires i < |names|
    ensures Render(prefix, names, suffix) == (Named(prefix, names, i) + "/:") + (names[i] + Binds(names, i + 1, suffix))
    ensures |Named(prefix, names, i)| + 1 == Colon(prefix, names, i)
  {
    RenderSplit(prefix, names, i, suffix);
    Regroup3(Named(prefix, names, i), "/:", names[i], Binds(names, i + 1, suffix), Render(prefix, names, suffix));
  }

  lemma OneBind(a: string, names: seq<string>, i: nat, suffix: string, path: string, colon: nat, next: nat)
    requires i < |names| && IsName(names[i]) && IsSuffix(suffix)
    requires path == (a + "/:") + (names[i] + Binds(names, i + 1, suffix))
    requires colon == |a| + 1 && next == colon + |names[i]| + 2
    ensures Keys(path, colon) == [Param(names[i], "", colon)] + Keys(path, next)
  {
    BindsStart(names, i + 1, suffix);
    KeysAfterBind(a, names[i], Binds(names, i + 1, suffix), path, colon);
  }

  // What one bind of a rendered template adds to the keys that follow it.
  ghost predicate BindTaken(path: string, prefix: string, names: seq<string>, i: nat)
    requires i < |names|
  {
    Keys(path, Colon(prefix, names, i)) ==
      [Param(names[i], "", Colon(prefix, names, i))] + Keys(path, Colon(prefix, names, i + 1))
  }

  lemma TakeBind(prefix: string, names: seq<string>, i: nat, suffix: string)
    requires i < |names| && IsName(names[i]) && IsSuffix(suffix)
    ensures BindTaken(Render(prefix, names, suffix), prefix, names, i)
  {
    RenderAt(prefix, names, i, suffix);
    OneBind(Named(prefix, names, i), names, i, suffix, Render(prefix, names, suffix),
            Colon(prefix, names, i), Colon(prefix, names, i + 1));
  }

  lemma AllTaken(path: string, prefix: string, names: seq<string>, i: nat)
    requires i <= |names| && (forall j :: 0 <= j < |names| ==> BindTaken(path, prefix, names, j))
    requires Keys(path, Colon(prefix, names, |names|)) == []
    ensures Keys(path, Colon(prefix, names, i)) == Expected(prefix, names, i)
    decreases |names| - i
  {
    if i < |names| {
      AllTaken(path, prefix, names, i + 1);
      assert BindTaken(path, prefix, names, i);
    }
  }

  lemma KeysOfRender(prefix: string, names: seq<string>, suffix: string)
    requires (forall j :: 0 <= j < |names| ==> IsName(names[j])) && IsSuffix(suffix)
    ensures Keys(Render(prefix, names, suffix), |prefix| + 1) == Expected(prefix, names, 0)
  {
    var path := Render(prefix, names, suffix);
    forall j | 0 <= j < |names| ensures BindTaken(path, prefix, names, j) { TakeBind(prefix, names, j, suffix); }
    RenderSplit(prefix, names, |names|, suffix);
    NoKeysAfter(Named(prefix, names, |names|), suffix, path, Colon(prefix, names, |names|));
    AllTaken(path, prefix, names, 0);
  }

  lemma {:induction false} PrefixHasNoBind(prefix: string, rest: string, i: nat)
    requires IsPrefix(prefix) && 1 <= i <= |prefix| && BindAt(rest, 0)
    ensures NextBind(prefix + rest, i) == |prefix|
    decreases |prefix| - i
  {
    var path := prefix + rest;
    if i < |prefix| {
      assert path[i] == prefix[i] && path[i + 1] == (if i + 1 < |prefix| then prefix[i + 1] else rest[0]);
      PrefixHasNoBind(prefix, rest, i + 1);
    } else {
      assert path[i] == rest[0] && path[i + 1] == rest[1];
    }
  }

  // Compiling a rendered template gives back its prefix, its names, and where their colons stand.
  lemma CompileRender(prefix: string, names: seq<string>, suffix: string)
    requires IsPrefix(prefix) && names != [] && (forall j :: 0 <= j < |names| ==> IsName(names[j])) && IsSuffix(suffix)
    ensures Compile(Render(prefix, names, suffix)) == Some((prefix, Expected(prefix, names, 0)))
  {
    var rest, path := Binds(names, 0, suffix), Render(prefix, names, suffix);
    assert StartsWith(path, "/") by { assert path[..1] == [path[0]]; }
    PrefixHasNoBind(prefix, rest, 1);
    assert path[..|prefix|] == prefix;
    KeysOfRender(prefix, names, suffix);
  }

  lemma {:induction false} ExpectedName(prefix: string, names: seq<string>, i: nat, j: nat)
    requires i <= j < |names|
    ensures |Expected(prefix, names, i)| == |names| - i
    ensures Expected(prefix, names, i)[j - i] == Param(names[j], "", Colon(prefix, names, j))
    decreases |names| - i
  {
    if i < j {
      ExpectedName(prefix, names, i + 1, j);
    } else if i + 1 < |names| {
      ExpectedName(prefix, names, i + 1, i + 1);
    }
  }

  lemma ExpectedNames(prefix: string, names: seq<string>)
    ensures Names(Expected(prefix, names, 0)) == names
  {
    forall j | 0 <= j < |names|
      ensures |Expected(prefix, names, 0)| == |names| && Expected(prefix, names, 0)[j].name == names[j]
    {
      ExpectedName(prefix, names, 0, j);
    }
  }

  lemma {:induction false} NoBindBefore(key: string, tail: string, i: nat)
    requires Free(key, ':') && i <= |key| && BindAt(tail, 0)
    ensures NextBind(key + tail, i) == |key|
    decreases |key| - i
  {
    if i < |key| {
      assert CharAt(key + tail, i + 1) != ':';
      NoBindBefore(key, tail, i + 1);
    } else {
      assert (key + tail)[i] == tail[0] && (key + tail)[i + 1] == tail[1];
    }
  }

  lemma JoinedKey(a: string, key: string, tail: string, path: string, colon: nat)
    requires Free(key, ':') && BindAt(tail, 0) && path == (a + "/:") + (key + tail) && colon == |a| + 1
    ensures Keys(path, colon) == [Param(key, "", colon)] + Keys(path, colon + |key| + 2)
  {
    var b := a + "/:";
    assert path[colon] == ':';
    NoBindBefore(key, tail, 0);
    NextBindShift(b, key + tail, 0);
    TextAt(b, key, tail, b + (key + tail));
    KeysStep(path, colon, colon + 1 + |key|);
  }

  lemma JoinedKeys(a: string, key: string, last: string, path: string, colon: nat)
    requires Free(key, ':') && IsName(last) && colon == |a| + 1
    requires path == a + ("/:" + (key + ("/:" + (last + []))))
    ensures Keys(path, colon) == [Param(key, "", colon)] + ([Param(last, "", colon + |key| + 2)] + [])
  {
    var tail := "/:" + (last + []);
    Regroup3(a, "/:", key, tail, path);
    assert BindAt(tail, 0);
    JoinedKey(a, key, tail, path, colon);
    Regroup3(a + "/:" + key, "/:", last, [], path);
    KeysAfterBind(a + "/:" + key, last, [], path, colon + |key| + 2);
    NoKeysAfter(path, [], path, colon + |key| + |last| + 4);
  }

  // A literal between two binds is taken into the name of the earlier one.
  lemma LiteralJoinsName(prefix: string, name: string, literal: string, last: string)
    requires IsPrefix(prefix) && IsName(name) && IsName(last) && literal != [] && literal[0] == '/' && Free(literal, ':')
    ensures var r := Compile(prefix + ("/:" + ((name + literal) + ("/:" + (last + [])))));
      r.Some? && r.value.0 == prefix && Names(r.value.1) == [name + literal, last]
  {
    var key := name + literal;
    var rest := "/:" + (key + ("/:" + (last + [])));
    var path := prefix + rest;
    assert StartsWith(path, "/") by { assert path[..1] == [path[0]]; }
    PrefixHasNoBind(prefix, rest, 1);
    assert path[..|prefix|] == prefix;
    JoinedKeys(prefix, key, last, path, |prefix| + 1);
  }
}
