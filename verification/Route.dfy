/**
 Route templates: compiling a template into a prefix and named binds, and matching a request target
 by extracting values and substituting them back into the template.
 */
module Route {
  import opened Text
  import opened StringUtils

  datatype Method = Unknown | Post | Get | Delete | Options | Patch

  datatype Param = Param(name: string, value: string, bindPos: nat)

  // What compiling leaves fixed for good.
  datatype Template = Template(path: string, uri: string, httpMethod: Method, names: seq<string>)

  datatype Outcome = NoMatch | Match | Throws

  // Reading at the end of a string gives NUL.
  function CharAt(s: string, i: nat): char { if i < |s| then s[i] else '\0' }

  /* ---- Compiling ---- */

  predicate BindAt(path: string, i: nat) { CharAt(path, i) == '/' && CharAt(path, i + 1) == ':' }

  // The first "/:" at or after i, or the end.
  function NextBind(path: string, i: nat): (j: nat)
    requires i <= |path|
    ensures i <= j <= |path| && (j < |path| ==> BindAt(path, j)) && forall x: nat :: i <= x < j ==> !BindAt(path, x)
    decreases |path| - i
  {
    if i == |path| || BindAt(path, i) then i else NextBind(path, i + 1)
  }

  // Where the key that starts at b (just after its colon) ends, and where its scan stops.
  function KeyEnd(path: string, b: nat): (r: (nat, nat))
    requires 0 < b <= |path| && path[b - 1] == ':'
    ensures b <= r.0 <= |path| && b <= r.1 <= |path|
  {
    var next := NextBind(path, b);
    if next < |path| then (next, next)
    else if path[|path| - 1] == '/' then (|path| - 1, |path|)
    else (TokenEnd(path, '/', b), TokenEnd(path, '/', b))
  }

  // The binds found from i on.
  function Keys(path: string, i: nat): seq<Param>
    decreases |path| - i
  {
    if i >= |path| then []
    else if path[i] != ':' then Keys(path, i + 1)
    else
      var (end, stop) := KeyEnd(path, i + 1);
      [Param(path[i + 1..end], "", i)] + Keys(path, stop + 1)
  }

  // None when the source throws. Otherwise the target prefix and the binds.
  function Compile(path: string): Option<(string, seq<Param>)> {
    if !StartsWith(path, "/") then None
    else
      var j := NextBind(path, 1);
      if j == |path| then Some((path, [])) else Some((path[..j], Keys(path, j + 1)))
  }

  function Names(params: seq<Param>): (r: seq<string>)
    ensures |r| == |params|
  {
    seq(|params|, i requires 0 <= i < |params| => params[i].name)
  }

  /* ---- Matching ---- */

  // Looking for a slash before which the target is the prefix; a slash that does not fit makes the
  // scan skip the character after it. The result is the position after the slash.
  function FindPrefix(target: string, uri: string, i: nat): (r: Option<nat>)
    ensures r.Some? ==> 0 < r.value <= |target| && target[r.value - 1] == '/' && target[..r.value - 1] == uri
    decreases |target| - i
  {
    if i >= |target| then None
    else if target[i] != '/' then FindPrefix(target, uri, i + 1)
    else if target[..i] == uri then Some(i + 1)
    else FindPrefix(target, uri, i + 2)
  }

  // Where the i-th value starts, when the first one starts at `start`: the slash that ends a value
  // is eaten.
  function ValueStart(target: string, start: nat, i: nat): (r: nat)
    requires start <= |target|
    ensures r <= |target|
    decreases i
  {
    if i == 0 then start
    else
      var e := TokenEnd(target, '/', ValueStart(target, start, i - 1));
      if e < |target| then e + 1 else e
  }

  function ValueAt(target: string, start: nat, i: nat): string
    requires start <= |target|
  {
    var first := ValueStart(target, start, i);
    target[first..TokenEnd(target, '/', first)]
  }

  // The next k values of the target, up to a slash each; none is missing, but some may be empty.
  function Values(target: string, start: nat, k: nat): (vs: seq<string>)
    requires start <= |target|
    ensures |vs| == k && forall i :: 0 <= i < k ==> vs[i] == ValueAt(target, start, i)
  {
    seq(k, i requires 0 <= i < k => ValueAt(target, start, i))
  }

  // Replacing a name, and the character before it, by a value at the first place it occurs. None
  // when that is position 0, where the source throws.
  function ReplaceKey(full: string, name: string, value: string): Option<string> {
    var key := Find(full, name, 0);
    if key.None? then Some(full)
    else if key.value == 0 then None
    else Some(full[..key.value - 1] + value + full[key.value + |name|..])
  }

  // Substituting the values by name, from the i-th on: the text (None when the source throws), and
  // how many values are stored. A value is stored before its substitution can throw.
  function Substitute(full: string, names: seq<string>, values: seq<string>, i: nat): (r: (Option<string>, nat))
    requires i <= |names| == |values|
    ensures i <= r.1 <= |names| && (r.0.Some? ==> r.1 == |names|)
    decreases |names| - i
  {
    if i == |names| then (Some(full), i)
    else
      var next := ReplaceKey(full, names[i], values[i]);
      if next.None? then (None, i + 1) else Substitute(next.value, names, values, i + 1)
  }

  // What a match attempt does: its outcome, and how many of which values it stores.
  datatype Attempt = Attempt(outcome: Outcome, values: seq<string>, stored: nat)

  function Try(t: Template, target: string, m: Method): (r: Attempt)
    ensures r.stored <= |r.values| <= |t.names|
  {
    if !StartsWith(target, "/") || m != t.httpMethod then Attempt(NoMatch, [], 0)
    else if target == t.uri then Attempt(Match, [], 0)
    else
      var start := FindPrefix(target, t.uri, 0);
      if start.None? then Attempt(NoMatch, [], 0)
      else
        var values := Values(target, start.value, |t.names|);
        var (full, stored) := Substitute(t.path, t.names, values, 0);
        Attempt(if full.None? then Throws else if target == full.value then Match else NoMatch, values, stored)
  }

  function Store(params: seq<Param>, values: seq<string>, n: nat): (r: seq<Param>)
    requires n <= |values| <= |params|
    ensures |r| == |params|
  {
    seq(|params|, i requires 0 <= i < |params| =>
      if i < n then params[i].(value := values[i]) else params[i])
  }

  lemma StoreNext(params: seq<Param>, values: seq<string>, i: nat)
    requires i < |values| <= |params|
    ensures var r := Store(params, values, i);
      r[i] == params[i] && r[i := r[i].(value := values[i])] == Store(params, values, i + 1)
  {
  }

  lemma StoreNone(params: seq<Param>, values: seq<string>)
    requires |values| <= |params|
    ensures Store(params, values, 0) == params
  {
  }

  lemma SubstituteNext(full: string, names: seq<string>, values: seq<string>, i: nat)
    requires i < |names| == |values|
    ensures var next := ReplaceKey(full, names[i], values[i]);
      Substitute(full, names, values, i) ==
        if next.None? then (None, i + 1) else Substitute(next.value, names, values, i + 1)
  {
  }

  lemma SubstituteDone(full: string, names: seq<string>, values: seq<string>)
    requires |names| == |values|
    ensures Substitute(full, names, values, |names|) == (Some(full), |names|)
  {
  }

  /* ---- The route object ---- */

  class Route {
    const path: string
    const httpMethod: Method
    var uriTarget: string
    var params: seq<Param>

    // The constructor throws exactly when the path does not start with a slash.
    constructor (httpMethod: Method, path: string)
      requires Compile(path).Some?
      ensures this.path == path && this.httpMethod == httpMethod
      ensures Compile(path) == Some((uriTarget, params))
    {
      this.path, this.httpMethod := path, httpMethod;
      uriTarget, params := "", [];
      new;
      Parse();
    }

    ghost function Fixed(): Template
      reads this
    {
      Template(path, uriTarget, httpMethod, Names(params))
    }

    method Parse()
      requires StartsWith(path, "/") && uriTarget == "" && params == []
      modifies this
      ensures Compile(path) == Some((uriTarget, params))
    {
      var end, it := |path|, 1;
      while it < end
        invariant 1 <= it <= end
        invariant uriTarget == "" && params == [] && NextBind(path, 1) == NextBind(path, it)
      {
        if path[it] == '/' && CharAt(path, it + 1) == ':' {
          uriTarget := path[..it];
          it := it + 1;
          break;
        }
        it := it + 1;
      }
      if uriTarget == "" {
        uriTarget := path[..it];
        assert uriTarget == path;
        return;
      }
      ghost var start := it;
      assert NextBind(path, 1) == start - 1 && uriTarget == path[..start - 1] && params == [];
      while it < end
        invariant start <= it && uriTarget == path[..start - 1]
        invariant params + Keys(path, it) == Keys(path, start)
        decreases end - it
      {
        if path[it] == ':' {
          var pos := it;
          var key;
          key, it := ExtractNextBindKey(it);
          ghost var before := params;
          params := params + [Param(key, "", pos)];
          Assoc(before, [Param(key, "", pos)], Keys(path, it + 1));
        }
        it := it + 1;
      }
      assert params == params + Keys(path, it);
    }

    // From the colon at position colon: the key, and where the scan for it stops.
    method ExtractNextBindKey(colon: nat) returns (key: string, it: nat)
      requires colon < |path| && path[colon] == ':'
      ensures it == KeyEnd(path, colon + 1).1 && key == path[colon + 1..KeyEnd(path, colon + 1).0]
    {
      var begin, last := colon + 1, |path|;
      it := begin;
      while it < last
        invariant begin <= it <= last && NextBind(path, begin) == NextBind(path, it)
      {
        if path[it] == '/' && CharAt(path, it + 1) == ':' {
          return path[begin..it], it;
        }
        it := it + 1;
      }
      if path[last - 1] == '/' {
        return path[begin..last - 1], it;
      }
      it := begin;
      while it < last
        invariant begin <= it <= last && TokenEnd(path, '/', begin) == TokenEnd(path, '/', it)
      {
        if path[it] == '/' {
          return path[begin..it], it;
        }
        it := it + 1;
      }
      return path[begin..last], it;
    }

    method IsMatchWithTargetRequest(target: string, m: Method) returns (outcome: Outcome)
      modifies `params
      ensures var r := Try(old(Fixed()), target, m);
        outcome == r.outcome && params == Store(old(params), r.values, r.stored)
      ensures Fixed() == old(Fixed())
    {
      assert Store(params, [], 0) == params;
      if !StartsWith(target, "/") || m != httpMethod { return NoMatch; }
      if target == uriTarget { return Match; }
      var start := ScanForPrefix(target);
      if start.None? { return NoMatch; }
      var full := BindValues(target, start.value);
      return if full.None? then Throws else if target == full.value then Match else NoMatch;
    }

    method ScanForPrefix(target: string) returns (start: Option<nat>)
      ensures start == FindPrefix(target, uriTarget, 0)
    {
      var it := 0;
      while it < |target|
        invariant FindPrefix(target, uriTarget, 0) == FindPrefix(target, uriTarget, it)
        decreases |target| - it
      {
        if target[it] == '/' {
          var realTarget := target[..it];
          it := it + 1;
          if realTarget == uriTarget { return Some(it); }
        }
        it := it + 1;
      }
      return None;
    }

    // The lambda of the source: the value at `first`, which it moves to the value's end.
    method FindNextPathParameterValue(target: string, first: nat) returns (value: string, it: nat)
      requires first <= |target|
      ensures it == TokenEnd(target, '/', first) && value == target[first..it]
    {
      it := first;
      while it < |target|
        invariant first <= it <= |target| && TokenEnd(target, '/', first) == TokenEnd(target, '/', it)
      {
        if target[it] == '/' { return target[first..it], it; }
        it := it + 1;
      }
      value := target[first..it];
    }

    // None when the substitution throws.
    method BindValues(target: string, start: nat) returns (bound: Option<string>)
      requires start <= |target|
      modifies `params
      ensures var names := Names(old(params));
        var values := Values(target, start, |names|);
        var r := Substitute(path, names, values, 0);
        bound == r.0 && params == Store(old(params), values, r.1)
    {
      hide ReplaceKey, Store, Substitute, TokenEnd;
      var full, it := path, start;
      ghost var names := Names(params);
      ghost var values := Values(target, start, |names|);
      StoreNone(params, values);
      for i := 0 to |params|
        invariant params == Store(old(params), values, i) && it == ValueStart(target, start, i)
        invariant Substitute(full, names, values, i) == Substitute(path, names, values, 0)
      {
        StoreNext(old(params), values, i);
        SubstituteNext(full, names, values, i);
        var value;
        value, it := FindNextPathParameterValue(target, it);
        var name := params[i].name;
        params := params[i := params[i].(value := value)];
        var next := ReplaceKey(full, name, value);
        if next.None? { return None; }
        full := next.value;
        if CharAt(target, it) == '/' { it := it + 1; }
      }
      SubstituteDone(full, names, values);
      return Some(full);
    }
  }
}
