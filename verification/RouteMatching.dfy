/**
 Matching: a compiled template accepts exactly its instances, stores exactly their values, and does
 not remember earlier attempts.
 */
module RouteMatching {
  import opened Text
  import opened StringUtils
  import opened Route
  import opened RouteProofs

  /* ---- Finding the prefix ---- */

  predicate IsMatchable(prefix: string) { IsPrefix(prefix) && prefix[|prefix| - 1] != '/' }

  lemma {:induction false} ScanFinds(prefix: string, rest: string, i: nat)
    requires IsMatchable(prefix) && i <= |prefix| && rest != [] && rest[0] == '/'
    ensures FindPrefix(prefix + rest, prefix, i) == Some(|prefix| + 1)
    decreases |prefix| - i
  {
    var target := prefix + rest;
    if i == |prefix| {
      assert target[..i] == prefix;
    } else {
      assert target[i] == prefix[i] && |target[..i]| != |prefix|;
      if target[i] == '/' { ScanFinds(prefix, rest, i + 2); } else { ScanFinds(prefix, rest, i + 1); }
    }
  }

  /* ---- Extracting the values of an instance ---- */

  // A value ends at the slash that follows it, or with the target.
  lemma ValueEnds(a: string, value: string, rest: string, target: string)
    requires target == a + (value + rest) && Free(value, '/') && (rest != [] ==> rest[0] == '/')
    ensures TokenEnd(target, '/', |a|) == |a| + |value| && target[|a|..|a| + |value|] == value
    ensures |a| + |value| < |target| <==> rest != []
  {
    assert forall x :: 0 <= x < |value| ==> target[|a| + x] == value[x];
    assert rest != [] ==> target[|a| + |value|] == rest[0];
    EndsAt(target, '/', |a|, |a| + |value|);
    TextAt(a, value, rest, a + (value + rest));
  }

  lemma {:induction false} InstanceSplit(prefix: string, values: seq<string>, i: nat, suffix: string)
    requires i <= |values|
    ensures Instance(prefix, values, suffix) == Before(prefix, values, i) + Segments(values, i, suffix)
  {
    if i > 0 {
      InstanceSplit(prefix, values, i - 1, suffix);
      Regroup3(Before(prefix, values, i - 1), "/", values[i - 1], Segments(values, i, suffix), Instance(prefix, values, suffix));
    }
  }

  lemma InstanceAt(prefix: string, values: seq<string>, i: nat, suffix: string)
    requires i < |values|
    ensures Instance(prefix, values, suffix) ==
      (Before(prefix, values, i) + "/") + (values[i] + Segments(values, i + 1, suffix))
  {
    InstanceSplit(prefix, values, i, suffix);
    Regroup3(Before(prefix, values, i), "/", values[i], Segments(values, i + 1, suffix), Instance(prefix, values, suffix));
  }

  predicate StartsSlash(s: string) { s != [] ==> s[0] == '/' }

  predicate AllFree(values: seq<string>) { forall i :: 0 <= i < |values| ==> Free(values[i], '/') }

  lemma SegmentsStart(values: seq<string>, i: nat, suffix: string)
    requires i <= |values| && StartsSlash(suffix)
    ensures StartsSlash(Segments(values, i, suffix)) && (i < |values| ==> Segments(values, i, suffix) != [])
  {
  }

  lemma NextValue(a: string, value: string, rest: string, target: string, start: nat, i: nat)
    requires start <= |target| && ValueStart(target, start, i) == |a|
    requires target == a + (value + rest) && Free(value, '/') && StartsSlash(rest)
    ensures ValueAt(target, start, i) == value
    ensures rest != [] ==> ValueStart(target, start, i + 1) == |a| + |value| + 1
  {
    ValueEnds(a, value, rest, target);
  }

  // Where the i-th value of an instance starts.
  function Place(prefix: string, values: seq<string>, i: nat): nat
    requires i <= |values|
  {
    if i == 0 then |prefix| + 1 else Place(prefix, values, i - 1) + |values[i - 1]| + 1
  }

  lemma {:induction false} PlaceIs(prefix: string, values: seq<string>, i: nat)
    requires i <= |values|
    ensures Place(prefix, values, i) == |Before(prefix, values, i) + "/"|
  {
    if i > 0 { PlaceIs(prefix, values, i - 1); }
  }

  lemma NextOfInstance(prefix: string, values: seq<string>, i: nat, suffix: string, target: string, start: nat)
    requires i < |values| && AllFree(values) && StartsSlash(suffix) && target == Instance(prefix, values, suffix)
    requires start <= |target| && ValueStart(target, start, i) == Place(prefix, values, i)
    ensures ValueAt(target, start, i) == values[i]
    ensures i + 1 < |values| ==> ValueStart(target, start, i + 1) == Place(prefix, values, i + 1)
  {
    PlaceIs(prefix, values, i);
    InstanceAt(prefix, values, i, suffix);
    SegmentsStart(values, i + 1, suffix);
    NextValue(Before(prefix, values, i) + "/", values[i], Segments(values, i + 1, suffix), target, start, i);
  }

  lemma {:induction false} ValueStartIs(prefix: string, values: seq<string>, i: nat, suffix: string, target: string)
    requires i < |values| && AllFree(values) && StartsSlash(suffix) && target == Instance(prefix, values, suffix)
    requires |prefix| + 1 <= |target|
    ensures ValueStart(target, |prefix| + 1, i) == Place(prefix, values, i)
  {
    if i > 0 {
      ValueStartIs(prefix, values, i - 1, suffix, target);
      NextOfInstance(prefix, values, i - 1, suffix, target, |prefix| + 1);
    }
  }

  lemma ValuesOfInstance(prefix: string, values: seq<string>, suffix: string, target: string)
    requires values != [] && AllFree(values) && StartsSlash(suffix) && target == Instance(prefix, values, suffix)
    ensures |prefix| < |target| && Values(target, |prefix| + 1, |values|) == values
  {
    SegmentsStart(values, 0, suffix);
    forall i | 0 <= i < |values| ensures ValueAt(target, |prefix| + 1, i) == values[i] {
      ValueStartIs(prefix, values, i, suffix, target);
      NextOfInstance(prefix, values, i, suffix, target, |prefix| + 1);
    }
  }

  /* ---- Substituting ---- */

  lemma OccursAt(s: string, p: string, j: nat, x: nat)
    requires Occurs(s, p, j) && x < |p|
    ensures s[j + x] == p[x]
  {
    assert s[j..j + |p|][x] == s[j + x];
  }

  // A name cannot reach over a slash: where it occurs, it occurs on one side.
  lemma OccursOneSide(a: string, b: string, name: string, j: nat)
    requires Free(name, '/') && Occurs(a + ("/" + b), name, j)
    ensures Occurs(a, name, j) || (j > |a| && Occurs("/" + b, name, j - |a|))
  {
    var s := a + ("/" + b);
    if j + |name| <= |a| {
      assert s[j..j + |name|] == a[j..j + |name|];
    } else if j <= |a| {
      OccursAt(s, name, j, |a| - j);
      assert false;
    } else {
      OccursShift(a, "/" + b, name, j - |a|);
    }
  }

  lemma NotBeforeBind(d: string, name: string, tail: string, j: nat)
    requires IsName(name) && name != [] && !Contains(d, name) && j < |d| + 2 && tail != [] && tail[0] == ':'
    ensures !Occurs(d + ("/" + tail), name, j)
  {
    var full := d + ("/" + tail);
    if Occurs(full, name, j) {
      OccursOneSide(d, tail, name, j);
      OccursAt(full, name, j, 0);
      assert false;
    }
  }

  // The name is first found in its own bind when it occurs nowhere before.
  lemma KeyFound(d: string, name: string, rest: string, full: string)
    requires IsName(name) && name != [] && !Contains(d, name) && full == (d + "/:") + (name + rest)
    ensures Find(full, name, 0) == Some(|d| + 2)
  {
    var b, tail := d + "/:", ":" + (name + rest);
    assert Occurs(full, name, |b|) by { TextAt(b, name, rest, b + (name + rest)); }
    assert full == d + ("/" + tail);
    forall j: nat | j < |b| ensures !Occurs(full, name, j) { NotBeforeBind(d, name, tail, j); }
    FindIs(full, name, 0, |b|);
  }

  lemma CutBind(d: string, name: string, rest: string, value: string, full: string)
    requires full == (d + "/:") + (name + rest)
    ensures full[..|d| + 1] + value + full[|d| + 2 + |name|..] == (d + "/" + value) + rest
  {
    assert full[..|d| + 1] == d + "/";
    assert full[|d| + 2 + |name|..] == rest;
  }

  lemma KeyReplaced(d: string, name: string, rest: string, value: string, full: string)
    requires IsName(name) && name != [] && !Contains(d, name) && full == (d + "/:") + (name + rest)
    ensures ReplaceKey(full, name, value) == Some((d + "/" + value) + rest)
  {
    KeyFound(d, name, rest, full);
    CutBind(d, name, rest, value, full);
  }

  // No name occurs in the prefix or in an earlier value.
  ghost predicate Clear(prefix: string, names: seq<string>, values: seq<string>)
    requires |names| == |values|
  {
    forall i :: 0 <= i < |names| ==>
      !Contains(prefix, names[i]) && forall j :: 0 <= j < i ==> !Contains(values[j], names[i])
  }

  lemma ContainsJoin(a: string, b: string, name: string)
    requires Free(name, '/') && name != [] && !Contains(a, name) && !Contains(b, name)
    ensures !Contains(a + "/" + b, name)
  {
    assert a + "/" + b == a + ("/" + b);
    forall j: nat ensures !Occurs(a + ("/" + b), name, j) {
      if Occurs(a + ("/" + b), name, j) {
        OccursOneSide(a, b, name, j);
        if j > |a| { OccursShift("/", b, name, j - |a| - 1); }
      }
    }
  }

  lemma {:induction false} ClearBefore(prefix: string, names: seq<string>, values: seq<string>, i: nat, j: nat)
    requires |names| == |values| && Clear(prefix, names, values) && j <= i < |names|
    requires IsName(names[i]) && names[i] != []
    ensures !Contains(Before(prefix, values, j), names[i])
  {
    if j > 0 {
      ClearBefore(prefix, names, values, i, j - 1);
      ContainsJoin(Before(prefix, values, j - 1), values[j - 1], names[i]);
    }
  }

  predicate AreNames(names: seq<string>) { forall i :: 0 <= i < |names| ==> IsName(names[i]) && names[i] != [] }

  lemma {:induction false} SubstituteAll(prefix: string, names: seq<string>, values: seq<string>, i: nat, suffix: string, full: string)
    requires i <= |names| == |values| && AreNames(names) && Clear(prefix, names, values)
    requires full == Before(prefix, values, i) + Binds(names, i, suffix)
    ensures Substitute(full, names, values, i) == (Some(Before(prefix, values, |names|) + suffix), |names|)
    decreases |names| - i
  {
    if i < |names| {
      var d, rest := Before(prefix, values, i), Binds(names, i + 1, suffix);
      Regroup3(d, "/:", names[i], rest, full);
      ClearBefore(prefix, names, values, i, i);
      KeyReplaced(d, names[i], rest, values[i], full);
      SubstituteAll(prefix, names, values, i + 1, suffix, (d + "/" + values[i]) + rest);
    }
  }

  /* ---- The main results ---- */

  ghost predicate IsInstance(target: string, prefix: string, values: seq<string>, suffix: string, k: nat) {
    |values| == k && AllFree(values) && target == Instance(prefix, values, suffix)
  }

  lemma ValuesAreFree(target: string, start: nat, k: nat)
    requires start <= |target|
    ensures AllFree(Values(target, start, k))
  {
    forall i | 0 <= i < k ensures Free(ValueAt(target, start, i), '/') {
      TokenIsFree(target, '/', ValueStart(target, start, i));
    }
  }

  // What the source substitutes, for any target that has the prefix.
  lemma SubstitutedIs(prefix: string, names: seq<string>, values: seq<string>, suffix: string)
    requires |names| == |values| && AreNames(names) && Clear(prefix, names, values)
    ensures Substitute(Render(prefix, names, suffix), names, values, 0) == (Some(Instance(prefix, values, suffix)), |names|)
  {
    SubstituteAll(prefix, names, values, 0, suffix, Render(prefix, names, suffix));
    InstanceSplit(prefix, values, |names|, suffix);
  }

  // The template the constructor of a route makes of a path.
  function TemplateOf(path: string, m: Method): Option<Template> {
    var r := Compile(path);
    if r.None? then None else Some(Template(path, r.value.0, m, Names(r.value.1)))
  }

  lemma TemplateOfRender(prefix: string, names: seq<string>, suffix: string, m: Method)
    requires IsPrefix(prefix) && names != [] && AreNames(names) && IsSuffix(suffix)
    ensures TemplateOf(Render(prefix, names, suffix), m) == Some(Template(Render(prefix, names, suffix), prefix, m, names))
  {
    CompileRender(prefix, names, suffix);
    ExpectedNames(prefix, names);
  }

  // The parts of a target behind the prefix and its slash: what stands between the slashes, and nothing where
  // there are no more.
  function Parts(prefix: string, target: string, k: nat): (vs: seq<string>)
    requires |prefix| < |target|
    ensures |vs| == k
  {
    var ts := Tokens(target[|prefix| + 1..], '/');
    seq(k, i requires 0 <= i < k => if i < |ts| then ts[i] else "")
  }

  lemma {:induction false} ValueStartsToken(target: string, start: nat, i: nat)
    requires start <= |target|
    ensures var ts := TokensFrom(target, '/', start);
      if i < |ts| then TokensFrom(target, '/', ValueStart(target, start, i)) == ts[i..]
      else ValueStart(target, start, i) == |target|
  {
    if i > 0 { ValueStartsToken(target, start, i - 1); }
  }

  // The values the matcher extracts are those parts.
  lemma ValuesAreParts(prefix: string, target: string, k: nat)
    requires |prefix| < |target|
    ensures Values(target, |prefix| + 1, k) == Parts(prefix, target, k)
  {
    var start, rest := |prefix| + 1, target[|prefix| + 1..];
    assert target == target[..start] + rest;
    TokensShift(target[..start], rest, '/', 0);
    forall i | 0 <= i < k ensures ValueAt(target, start, i) == Parts(prefix, target, k)[i] {
      ValueStartsToken(target, start, i);
    }
  }

  lemma InstanceIsFound(prefix: string, values: seq<string>, suffix: string, target: string)
    requires IsMatchable(prefix) && values != [] && target == Instance(prefix, values, suffix)
    ensures FindPrefix(target, prefix, 0) == Some(|prefix| + 1)
  {
    ScanFinds(prefix, Segments(values, 0, suffix), 0);
  }

  function Rendered(prefix: string, names: seq<string>, suffix: string, m: Method): Template {
    Template(Render(prefix, names, suffix), prefix, m, names)
  }

  lemma {:induction false} FoundBehind(target: string, uri: string, i: nat)
    ensures var r := FindPrefix(target, uri, i); r.Some? ==> r.value == |uri| + 1 && |uri| < |target|
    decreases |target| - i
  {
    if i < |target| {
      if target[i] != '/' { FoundBehind(target, uri, i + 1); } else if target[..i] != uri { FoundBehind(target, uri, i + 2); }
    }
  }

  lemma TryPastPrefix(prefix: string, names: seq<string>, suffix: string, m: Method, target: string)
    requires AreNames(names) && target != prefix && StartsWith(target, "/")
    requires FindPrefix(target, prefix, 0).Some? && |prefix| < |target| && Clear(prefix, names, Parts(prefix, target, |names|))
    ensures var values := Parts(prefix, target, |names|);
      Try(Rendered(prefix, names, suffix, m), target, m) ==
        Attempt(if target == Instance(prefix, values, suffix) then Match else NoMatch, values, |names|)
  {
    hide Clear, AreNames, Instance, FindPrefix, Substitute, ValueStart, ValueAt, TokenEnd, Parts;
    FoundBehind(target, prefix, 0);
    ValuesAreParts(prefix, target, |names|);
    SubstitutedIs(prefix, names, Parts(prefix, target, |names|), suffix);
  }

  // An instance with clear values is accepted, and those values are stored.
  lemma TryInstance(prefix: string, names: seq<string>, suffix: string, m: Method, target: string, values: seq<string>)
    requires IsMatchable(prefix) && names != [] && AreNames(names) && IsSuffix(suffix)
    requires IsInstance(target, prefix, values, suffix, |names|) && Clear(prefix, names, values)
    ensures Try(Rendered(prefix, names, suffix, m), target, m) == Attempt(Match, values, |names|)
  {
    InstanceIsFound(prefix, values, suffix, target);
    ValuesOfInstance(prefix, values, suffix, target);
    FoundBehind(target, prefix, 0);
    ValuesAreParts(prefix, target, |names|);
    assert target[..1] == [prefix[0]];
    TryPastPrefix(prefix, names, suffix, m, target);
  }

  lemma MatchedIsInstance(prefix: string, names: seq<string>, suffix: string, m: Method, target: string)
    requires AreNames(names) && target != prefix
    requires |prefix| < |target| ==> Clear(prefix, names, Parts(prefix, target, |names|))
    ensures var r := Try(Rendered(prefix, names, suffix, m), target, m);
      && r.outcome != Throws
      && (r.outcome == Match ==> IsInstance(target, prefix, r.values, suffix, |names|))
  {
    if StartsWith(target, "/") && FindPrefix(target, prefix, 0).Some? {
      FoundBehind(target, prefix, 0);
      TryPastPrefix(prefix, names, suffix, m, target);
      ValuesAreParts(prefix, target, |names|);
      ValuesAreFree(target, |prefix| + 1, |names|);
    }
  }

  // A request with another method is never accepted and stores nothing, whatever the template and the target.
  lemma WrongMethod(t: Template, target: string, m: Method)
    requires m != t.httpMethod
    ensures Try(t, target, m) == Attempt(NoMatch, [], 0)
  {
  }

  // A rendered template accepts a request for a target, other than its bare prefix, exactly when the request has
  // its method and the target is the template with slash-free values put in; it then stores those values.
  lemma MatchIffInstance(prefix: string, names: seq<string>, suffix: string, m: Method, target: string, requested: Method)
    requires IsMatchable(prefix) && names != [] && AreNames(names) && IsSuffix(suffix) && target != prefix
    requires |prefix| < |target| ==> Clear(prefix, names, Parts(prefix, target, |names|))
    ensures var r := Try(Rendered(prefix, names, suffix, m), target, requested);
      && r.outcome != Throws
      && (r.outcome == Match <==> requested == m && exists values :: IsInstance(target, prefix, values, suffix, |names|))
      && (requested != m ==> r == Attempt(NoMatch, [], 0))
      && (requested == m ==>
            forall values :: IsInstance(target, prefix, values, suffix, |names|) ==> r == Attempt(Match, values, |names|))
  {
    MatchedIsInstance(prefix, names, suffix, m, target);
    if requested != m { WrongMethod(Rendered(prefix, names, suffix, m), target, requested); }
    forall values | IsInstance(target, prefix, values, suffix, |names|)
      ensures Try(Rendered(prefix, names, suffix, m), target, m) == Attempt(Match, values, |names|)
    {
      ValuesOfInstance(prefix, values, suffix, target);
      InstanceIsFound(prefix, values, suffix, target);
      FoundBehind(target, prefix, 0);
      ValuesAreParts(prefix, target, |names|);
      TryInstance(prefix, names, suffix, m, target, values);
    }
  }

  /* ---- A name that does occur in the prefix ---- */

  // Two texts with the same end, cut at their last slash before it, have the same parts.
  lemma CutsMeet(x: string, y: string, a: string, b: string, s: string)
    requires x + ("/" + (a + s)) == y + ("/" + (b + s)) && Free(a, '/') && Free(b, '/')
    ensures x == y && a == b
  {
    var l, r := x + ("/" + (a + s)), y + ("/" + (b + s));
    assert l[|x|] == '/' && r[|y|] == '/';
    assert |x| + |a| == |y| + |b|;
    assert forall i :: 0 <= i < |a| ==> l[|x| + 1 + i] == a[i];
    assert forall i :: 0 <= i < |b| ==> r[|y| + 1 + i] == b[i];
    if |x| < |y| { assert false; }
    if |y| < |x| { assert false; }
    assert l[..|x|] == x && r[..|y|] == y;
    assert l[|x| + 1..|x| + 1 + |a|] == a && r[|y| + 1..|y| + 1 + |b|] == b;
  }

  lemma FoundInPrefix(prefix: string, tail: string, name: string, q: nat)
    requires Find(prefix, name, 0) == Some(q)
    ensures Find(prefix + tail, name, 0) == Some(q)
  {
    FindFirst(prefix, name, 0);
    assert (prefix + tail)[q..q + |name|] == prefix[q..q + |name|];
    forall j: nat | j < q ensures !Occurs(prefix + tail, name, j) {
      assert !Occurs(prefix, name, j);
      assert (prefix + tail)[j..j + |name|] == prefix[j..j + |name|];
    }
    FindIs(prefix + tail, name, 0, q);
  }

  // With one bind whose name occurs in the prefix, the matcher compares a target with this text.
  function Misplaced(prefix: string, q: nat, name: string, value: string, suffix: string): string
    requires 0 < q && q + |name| <= |prefix|
  {
    prefix[..q - 1] + value + prefix[q + |name|..] + ("/" + ((":" + name) + suffix))
  }

  lemma CutPrefix(prefix: string, tail: string, i: nat, j: nat)
    requires i <= j <= |prefix|
    ensures (prefix + tail)[..i] == prefix[..i] && (prefix + tail)[j..] == prefix[j..] + tail
  {
  }

  lemma ReplacedInPrefix(prefix: string, q: nat, name: string, value: string, suffix: string)
    requires Find(prefix, name, 0) == Some(q) && 0 < q
    ensures ReplaceKey(Render(prefix, [name], suffix), name, value) == Some(Misplaced(prefix, q, name, value, suffix))
  {
    var tail, full := "/" + ((":" + name) + suffix), Render(prefix, [name], suffix);
    assert Binds([name], 0, suffix) == tail;
    FoundInPrefix(prefix, tail, name, q);
    CutPrefix(prefix, tail, q - 1, q + |name|);
    assert Misplaced(prefix, q, name, value, suffix) == prefix[..q - 1] + value + (prefix[q + |name|..] + tail);
  }

  lemma MisplacedThenBind(prefix: string, q: nat, name: string, value: string, suffix: string)
    requires 0 < q && q + |name| <= |prefix| && Free(value, '/') && IsName(name)
    requires Misplaced(prefix, q, name, value, suffix) == prefix + ("/" + (value + suffix))
    ensures prefix[q - 1] == ':' && value == ":" + name
  {
    var x := prefix[..q - 1] + value + prefix[q + |name|..];
    CutsMeet(x, prefix, ":" + name, value, suffix);
    assert x[q - 1] == value[0];
  }

  lemma BindThenMisplaced(prefix: string, q: nat, name: string, suffix: string)
    requires 0 < q && q + |name| <= |prefix| && prefix[q..q + |name|] == name && prefix[q - 1] == ':'
    ensures Misplaced(prefix, q, name, ":" + name, suffix) == prefix + ("/" + ((":" + name) + suffix))
  {
    assert prefix == prefix[..q - 1] + ([prefix[q - 1]] + prefix[q..q + |name|]) + prefix[q + |name|..];
  }

  lemma MisplacedIff(prefix: string, q: nat, name: string, value: string, suffix: string)
    requires 0 < q && q + |name| <= |prefix| && prefix[q..q + |name|] == name && Free(value, '/') && IsName(name)
    ensures Instance(prefix, [value], suffix) == Misplaced(prefix, q, name, value, suffix) <==>
      prefix[q - 1] == ':' && value == ":" + name
  {
    assert Segments([value], 1, suffix) == suffix;
    assert Instance(prefix, [value], suffix) == prefix + ("/" + (value + suffix));
    if Instance(prefix, [value], suffix) == Misplaced(prefix, q, name, value, suffix) {
      MisplacedThenBind(prefix, q, name, value, suffix);
    }
    if prefix[q - 1] == ':' { BindThenMisplaced(prefix, q, name, suffix); }
  }

  lemma TryOne(t: Template, target: string, start: nat, value: string, full: string)
    requires |t.names| == 1 && StartsWith(target, "/") && target != t.uri && start <= |target|
    requires FindPrefix(target, t.uri, 0) == Some(start) && Values(target, start, 1) == [value]
    requires ReplaceKey(t.path, t.names[0], value) == Some(full)
    ensures Try(t, target, t.httpMethod).outcome == if target == full then Match else NoMatch
  {
    assert Substitute(full, t.names, [value], 1) == (Some(full), 1);
  }

  lemma OneValue(prefix: string, suffix: string, value: string, target: string)
    requires IsMatchable(prefix) && IsSuffix(suffix) && Free(value, '/') && target == Instance(prefix, [value], suffix)
    ensures StartsWith(target, "/") && target != prefix && |prefix| + 1 <= |target|
    ensures FindPrefix(target, prefix, 0) == Some(|prefix| + 1) && Values(target, |prefix| + 1, 1) == [value]
  {
    InstanceIsFound(prefix, [value], suffix, target);
    ValuesOfInstance(prefix, [value], suffix, target);
    assert target[..1] == [prefix[0]];
  }

  lemma TryAmbiguous(prefix: string, name: string, suffix: string, m: Method, value: string, q: nat, target: string)
    requires IsMatchable(prefix) && IsSuffix(suffix) && Free(value, '/') && Find(prefix, name, 0) == Some(q) && q > 0
    requires target == Instance(prefix, [value], suffix)
    ensures Try(Rendered(prefix, [name], suffix, m), target, m).outcome ==
      if target == Misplaced(prefix, q, name, value, suffix) then Match else NoMatch
  {
    OneValue(prefix, suffix, value, target);
    ReplacedInPrefix(prefix, q, name, value, suffix);
    TryOne(Rendered(prefix, [name], suffix, m), target, |prefix| + 1, value, Misplaced(prefix, q, name, value, suffix));
  }

  // Exactly when a one-bind template whose name occurs in its prefix still accepts an instance: the
  // first such place in the prefix follows a colon, and the value is the bind itself.
  lemma AmbiguousMatchIff(prefix: string, name: string, suffix: string, m: Method, value: string, q: nat, requested: Method)
    requires IsMatchable(prefix) && IsName(name) && name != [] && IsSuffix(suffix) && Free(value, '/')
    requires Find(prefix, name, 0) == Some(q)
    ensures q > 0
    ensures Try(Rendered(prefix, [name], suffix, m), Instance(prefix, [value], suffix), requested).outcome == Match <==>
      requested == m && prefix[q - 1] == ':' && value == ":" + name
  {
    FindFirst(prefix, name, 0);
    OccursAt(prefix, name, q, 0);
    if requested != m { WrongMethod(Rendered(prefix, [name], suffix, m), Instance(prefix, [value], suffix), requested); }
    TryAmbiguous(prefix, name, suffix, m, value, q, Instance(prefix, [value], suffix));
    MisplacedIff(prefix, q, name, value, suffix);
  }

  // The natural match of /user/:user fails: its name is first found in the prefix.
  lemma AmbiguousExample()
    ensures Try(Rendered("/user", ["user"], "", Get), "/user/x", Get).outcome != Match
  {
    assert "/user"[1..5] == "user" && "/user"[0..4] == "/use";
    FindIs("/user", "user", 0, 1);
    AmbiguousMatchIff("/user", "user", "", Get, "x", 1, Get);
    assert Instance("/user", ["x"], "") == "/user/x" by { assert Segments(["x"], 1, "") == ""; }
  }

  /* ---- History ---- */

  // The values a route holds after a sequence of attempts.
  function AfterAttempts(t: Template, params: seq<Param>, attempts: seq<(string, Method)>): (r: seq<Param>)
    requires Names(params) == t.names
    ensures Names(r) == t.names
    decreases |attempts|
  {
    if attempts == [] then params
    else
      var r := Try(t, attempts[0].0, attempts[0].1);
      StoreKeepsNames(params, r.values, r.stored);
      AfterAttempts(t, Store(params, r.values, r.stored), attempts[1..])
  }

  lemma StoreKeepsNames(params: seq<Param>, values: seq<string>, n: nat)
    requires n <= |values| <= |params|
    ensures Names(Store(params, values, n)) == Names(params)
  {
  }

  function Bound(params: seq<Param>, values: seq<string>): seq<Param>
    requires |params| <= |values|
  {
    seq(|params|, i requires 0 <= i < |params| => params[i].(value := values[i]))
  }

  // Whatever was tried before, with whatever success, a match that is accepted by binding leaves
  // every parameter with its value from the current target; the names and places never change.
  lemma HistoryIndependence(t: Template, params: seq<Param>, history: seq<(string, Method)>, target: string, m: Method)
    requires Names(params) == t.names && Try(t, target, m).outcome == Match && target != t.uri
    ensures Names(AfterAttempts(t, params, history)) == t.names
    ensures AfterAttempts(t, params, history + [(target, m)]) == Bound(params, Try(t, target, m).values)
  {
    LastAttempt(t, params, history, (target, m));
    SamePlaces(t, params, history);
    var r := Try(t, target, m);
    StoredAll(params, AfterAttempts(t, params, history), r.values);
  }

  // The bare prefix is accepted too, and leaves the values of whatever was tried before: a request for it is
  // given another request's parameters.
  lemma BarePrefixKeepsOld(t: Template, params: seq<Param>, history: seq<(string, Method)>)
    requires Names(params) == t.names && StartsWith(t.uri, "/")
    ensures Try(t, t.uri, t.httpMethod).outcome == Match
    ensures AfterAttempts(t, params, history + [(t.uri, t.httpMethod)]) == AfterAttempts(t, params, history)
  {
    LastAttempt(t, params, history, (t.uri, t.httpMethod));
    SamePlaces(t, params, history);
    assert Store(AfterAttempts(t, params, history), [], 0) == AfterAttempts(t, params, history);
  }

  lemma StoredAll(params: seq<Param>, now: seq<Param>, values: seq<string>)
    requires |params| == |now| == |values| && Names(params) == Names(now)
    requires forall i :: 0 <= i < |params| ==> now[i].bindPos == params[i].bindPos
    ensures Store(now, values, |values|) == Bound(params, values)
  {
    forall i | 0 <= i < |params| ensures Store(now, values, |values|)[i] == Bound(params, values)[i] {
      assert Names(params)[i] == Names(now)[i];
    }
  }

  lemma {:induction false} LastAttempt(t: Template, params: seq<Param>, history: seq<(string, Method)>, last: (string, Method))
    requires Names(params) == t.names
    ensures var r, before := Try(t, last.0, last.1), AfterAttempts(t, params, history);
      AfterAttempts(t, params, history + [last]) == Store(before, r.values, r.stored)
    decreases |history|
  {
    if history == [] {
      assert [last][1..] == [] && history + [last] == [last];
    } else {
      var r := Try(t, history[0].0, history[0].1);
      StoreKeepsNames(params, r.values, r.stored);
      assert (history + [last])[1..] == history[1..] + [last];
      LastAttempt(t, Store(params, r.values, r.stored), history[1..], last);
    }
  }

  lemma {:induction false} SamePlaces(t: Template, params: seq<Param>, history: seq<(string, Method)>)
    requires Names(params) == t.names
    ensures |AfterAttempts(t, params, history)| == |params|
    ensures forall i :: 0 <= i < |params| ==> AfterAttempts(t, params, history)[i].bindPos == params[i].bindPos
    decreases |history|
  {
    if history != [] {
      var r := Try(t, history[0].0, history[0].1);
      StoreKeepsNames(params, r.values, r.stored);
      SamePlaces(t, Store(params, r.values, r.stored), history[1..]);
    }
  }
}
