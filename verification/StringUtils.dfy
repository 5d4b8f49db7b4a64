/**
 `string_utils`: splitting at a delimiter and replacing a pattern, in place and left to right.
 */
module StringUtils {
  import opened Text

  predicate StartsWith(s: string, prefix: string) { |s| >= |prefix| && s[..|prefix|] == prefix }

  /* ---- split ---- */

  predicate Free(s: string, d: char) { forall i :: 0 <= i < |s| ==> s[i] != d }

  // Where the token that starts at `from` ends: at the next delimiter or at the end of the string.
  function TokenEnd(s: string, d: char, from: nat): (e: nat)
    requires from <= |s|
    ensures from <= e <= |s| && (e < |s| ==> s[e] == d)
    decreases |s| - from
  {
    if from == |s| || s[from] == d then from else TokenEnd(s, d, from + 1)
  }

  lemma {:induction false} TokenEndIsFind(s: string, d: char, from: nat)
    requires from <= |s|
    ensures var e := TokenEnd(s, d, from);
      Find(s, [d], from) == (if e == |s| then None else Some(e)) && (e < |s| ==> s[e..e + 1] == [d])
    decreases |s| - from
  {
    OccursChar(s, d, from);
    if from < |s| && s[from] != d { TokenEndIsFind(s, d, from + 1); }
  }

  lemma {:induction false} TokenIsFree(s: string, d: char, from: nat)
    requires from <= |s|
    ensures Free(s[from..TokenEnd(s, d, from)], d)
    decreases |s| - from
  {
    var e := TokenEnd(s, d, from);
    if from < e {
      TokenIsFree(s, d, from + 1);
      assert s[from..e] == [s[from]] + s[from + 1..e];
    }
  }

  lemma {:induction false} TokenEndShift(a: string, s: string, d: char, from: nat)
    requires from <= |s|
    ensures TokenEnd(a + s, d, |a| + from) == |a| + TokenEnd(s, d, from)
    decreases |s| - from
  {
    if from < |s| {
      assert (a + s)[|a| + from] == s[from];
      TokenEndShift(a, s, d, from + 1);
    }
  }

  // A token followed by the delimiter, or by nothing, ends there.
  lemma {:induction false} TokenEndIs(t: string, s: string, d: char, from: nat)
    requires Free(t, d) && from <= |t| && (s == [] || s[0] == d)
    ensures TokenEnd(t + s, d, from) == |t|
    decreases |t| - from
  {
    if from < |t| { TokenEndIs(t, s, d, from + 1); }
  }

  // The tokens of the string from a position on.
  function TokensFrom(s: string, d: char, from: nat): (ts: seq<string>)
    requires from <= |s|
    ensures ts != []
    decreases |s| - from
  {
    var e := TokenEnd(s, d, from);
    if e == |s| then [s[from..e]] else [s[from..e]] + TokensFrom(s, d, e + 1)
  }

  function Tokens(s: string, d: char): seq<string> { TokensFrom(s, d, 0) }

  function NonEmpty(ts: seq<string>): seq<string> {
    if ts == [] then [] else (if ts[0] == [] then [] else [ts[0]]) + NonEmpty(ts[1..])
  }

  function Join(ts: seq<string>, sep: string): string {
    if ts == [] then [] else if |ts| == 1 then ts[0] else ts[0] + sep + Join(ts[1..], sep)
  }

  lemma JoinCons(t: string, ts: seq<string>, sep: string, rest: string, whole: string)
    requires ts != [] && Join(ts, sep) == rest && whole == t + sep + rest
    ensures Join([t] + ts, sep) == whole
  {
    assert ([t] + ts)[1..] == ts;
  }

  lemma Cut(s: string, from: nat, e: nat, d: char)
    requires from <= e < |s| && s[e..e + 1] == [d]
    ensures s[from..] == s[from..e] + [d] + s[e + 1..]
  {
    assert s[from..] == s[from..e] + s[e..e + 1] + s[e + 1..];
  }

  lemma {:induction false} JoinTokensFrom(s: string, d: char, from: nat)
    requires from <= |s|
    ensures Join(TokensFrom(s, d, from), [d]) == s[from..]
    decreases |s| - from
  {
    var e := TokenEnd(s, d, from);
    if e < |s| {
      JoinTokensFrom(s, d, e + 1);
      TokenEndIsFind(s, d, from);
      Cut(s, from, e, d);
      JoinCons(s[from..e], TokensFrom(s, d, e + 1), [d], s[e + 1..], s[from..]);
    }
  }

  lemma {:induction false} TokensFree(s: string, d: char, from: nat)
    requires from <= |s|
    ensures forall t :: t in TokensFrom(s, d, from) ==> Free(t, d)
    decreases |s| - from
  {
    TokenIsFree(s, d, from);
    if TokenEnd(s, d, from) < |s| { TokensFree(s, d, TokenEnd(s, d, from) + 1); }
  }

  // Joining the tokens with the delimiter gives the string back, and no token holds the delimiter.
  lemma JoinTokens(s: string, d: char)
    ensures Join(Tokens(s, d), [d]) == s
    ensures forall t :: t in Tokens(s, d) ==> Free(t, d)
  {
    JoinTokensFrom(s, d, 0);
    TokensFree(s, d, 0);
    assert s[0..] == s;
  }

  lemma SliceShift(a: string, s: string, i: nat, j: nat)
    requires i <= j <= |s|
    ensures (a + s)[|a| + i..|a| + j] == s[i..j]
  {
  }

  lemma {:induction false} TokensShift(a: string, s: string, d: char, from: nat)
    requires from <= |s|
    ensures TokensFrom(a + s, d, |a| + from) == TokensFrom(s, d, from)
    decreases |s| - from
  {
    var e := TokenEnd(s, d, from);
    TokenEndShift(a, s, d, from);
    SliceShift(a, s, from, e);
    if e < |s| { TokensShift(a, s, d, e + 1); }
  }

  // Conversely the tokens are the only delimiter-free pieces that join to the string.
  lemma {:induction false} TokensJoin(ts: seq<string>, d: char)
    requires ts != [] && forall t :: t in ts ==> Free(t, d)
    ensures Tokens(Join(ts, [d]), d) == ts
  {
    var t := ts[0];
    if |ts| == 1 {
      TokenEndIs(t, [], d, 0);
      assert t + [] == t && t[0..|t|] == t;
    } else {
      var rest := Join(ts[1..], [d]);
      assert ts == [t] + ts[1..];
      TokensJoin(ts[1..], d);
      TokensShift(t + [d], rest, d, 0);
      TokenEndIs(t, [d] + rest, d, 0);
      assert t + ([d] + rest) == (t + [d]) + rest == Join(ts, [d]);
      SliceShift([], t + ([d] + rest), 0, |t|);
      assert (t + ([d] + rest))[0..|t|] == t;
    }
  }

  lemma {:induction false} NonEmptyAppend(ts: seq<string>, t: string)
    ensures NonEmpty(ts + [t]) == NonEmpty(ts) + (if t == [] then [] else [t])
  {
    if ts == [] {
      assert (ts + [t])[1..] == [];
    } else {
      assert (ts + [t])[1..] == ts[1..] + [t];
      NonEmptyAppend(ts[1..], t);
    }
  }

  // Where the tokens that skip_empty keeps stand.
  function Kept(ts: seq<string>): seq<nat> {
    if ts == [] then []
    else
      var n := |ts| - 1;
      Kept(ts[..n]) + if ts[n] == [] then [] else [n]
  }

  // skip_empty drops exactly the empty tokens and keeps the others in their order.
  lemma {:induction false} NonEmptyKeeps(ts: seq<string>)
    ensures var r, at := NonEmpty(ts), Kept(ts);
      && |r| == |at| && (forall i :: 0 <= i < |at| ==> at[i] < |ts| && r[i] == ts[at[i]])
      && (forall i, j :: 0 <= i < j < |at| ==> at[i] < at[j])
      && (forall k: nat :: k in at <==> k < |ts| && ts[k] != [])
  {
    if ts != [] {
      var n := |ts| - 1;
      assert ts == ts[..n] + [ts[n]];
      NonEmptyKeeps(ts[..n]);
      NonEmptyAppend(ts[..n], ts[n]);
    }
  }

  lemma Assoc<T>(a: seq<T>, b: seq<T>, c: seq<T>)
    ensures a + (b + c) == (a + b) + c
  {
  }

  // One round of the loop, for any tokens `goal` that are to be reached.
  lemma SplitRound(s: string, d: char, all: seq<string>, from: nat, goal: seq<string>)
    requires from <= |s| && all + TokensFrom(s, d, from) == goal
    ensures var e := TokenEnd(s, d, from);
      if e == |s| then all + [s[from..e]] == goal
      else (all + [s[from..e]]) + TokensFrom(s, d, e + 1) == goal
  {
    var e := TokenEnd(s, d, from);
    if e < |s| { Assoc(all, [s[from..e]], TokensFrom(s, d, e + 1)); }
  }

  method Split(str: string, delimiter: char, skipEmpty: bool) returns (tokens: seq<string>)
    ensures tokens == if skipEmpty then NonEmpty(Tokens(str, delimiter)) else Tokens(str, delimiter)
  {
    hide Find, TokenEnd;
    tokens := [];
    ghost var all: seq<string> := [];
    var posLast := 0;
    while true
      invariant posLast <= |str| && all + TokensFrom(str, delimiter, posLast) == Tokens(str, delimiter)
      invariant tokens == if skipEmpty then NonEmpty(all) else all
      decreases |str| - posLast
    {
      var found := Find(str, [delimiter], posLast);
      TokenEndIsFind(str, delimiter, posLast);
      var posCurrent := if found.None? then |str| else found.value;
      var length := posCurrent - posLast;
      var token := str[posLast..posLast + length];
      assert posLast + length == TokenEnd(str, delimiter, posLast);
      SplitRound(str, delimiter, all, posLast, Tokens(str, delimiter));
      NonEmptyAppend(all, token);
      if !skipEmpty || length != 0 {
        tokens := tokens + [token];
      }
      all := all + [token];
      if posCurrent == |str| { break; }
      posLast := posCurrent + 1;
    }
  }

  /* ---- replace_all ---- */

  // Leftmost, non-overlapping replacement of p by w, from a position on.
  function ReplacedFrom(s: string, from: nat, p: string, w: string): string
    requires p != [] && from <= |s|
    decreases |s| - from
  {
    var i := Find(s, p, from);
    if i.None? then s[from..] else s[from..i.value] + w + ReplacedFrom(s, i.value + |p|, p, w)
  }

  function Replaced(s: string, p: string, w: string): string
    requires p != []
  {
    ReplacedFrom(s, 0, p, w)
  }

  // The string the loop works on: from pos on it is still s from k on.
  ghost predicate Unsettled(out: string, pos: nat, s: string, k: nat) {
    pos <= |out| && k <= |s| && out[pos..] == s[k..]
  }

  lemma Whole(out: string, pos: nat, s: string, k: nat)
    requires Unsettled(out, pos, s, k)
    ensures out == out[..pos] + s[k..]
  {
  }

  lemma {:induction false} FindUnsettled(out: string, pos: nat, s: string, k: nat, p: string)
    requires Unsettled(out, pos, s, k)
    ensures var r := Find(s, p, k); Find(out, p, pos) == (if r.Some? then Some(pos + r.value - k) else None)
  {
    var rest := s[k..];
    assert out == out[..pos] + rest && s == s[..k] + rest;
    FindShift(out[..pos], rest, p, 0);
    FindShift(s[..k], rest, p, 0);
  }

  // What one replacement does to the string, when position i of it is position j of s.
  lemma ReplaceShape(out: string, pos: nat, s: string, k: nat, j: nat, n: nat, w: string)
    requires Unsettled(out, pos, s, k) && k <= j && j + n <= |s|
    ensures var i := pos + j - k;
      && i + n <= |out|
      && var out' := out[..i] + w + out[i + n..];
      Unsettled(out', i + |w|, s, j + n) && out'[..i + |w|] == out[..pos] + s[k..j] + w
  {
    var i := pos + j - k;
    assert out == out[..pos] + s[k..];
    assert forall x :: 0 <= x < |s| - k ==> out[pos + x] == out[pos..][x] == s[k + x];
    assert out[..i] == out[..pos] + s[k..j] && out[i + n..] == s[j + n..];
  }

  lemma Regroup(x: string, a: string, a': string, piece: string, w: string, r: string, r': string)
    requires x == a' + r' && a' == a + piece + w && r == piece + w + r'
    ensures x == a + r
  {
  }

  // The replacement as the source makes it: one occurrence after another, in the string itself.
  function ReplacedInPlace(out: string, pos: nat, p: string, w: string): string
    requires p != []
    decreases |out| - pos
  {
    var i := Find(out, p, pos);
    if i.None? then out
    else ReplacedInPlace(out[..i.value] + w + out[i.value + |p|..], i.value + |w|, p, w)
  }

  lemma {:induction false} InPlaceIsLeftmost(out: string, pos: nat, s: string, k: nat, p: string, w: string)
    requires p != [] && Unsettled(out, pos, s, k)
    ensures ReplacedInPlace(out, pos, p, w) == out[..pos] + ReplacedFrom(s, k, p, w)
    decreases |s| - k
  {
    FindUnsettled(out, pos, s, k, p);
    var r := Find(s, p, k);
    if r.None? {
      Whole(out, pos, s, k);
    } else {
      var i, k' := pos + r.value - k, r.value + |p|;
      ReplaceShape(out, pos, s, k, r.value, |p|, w);
      InPlaceIsLeftmost(out[..i] + w + out[i + |p|..], i + |w|, s, k', p, w);
      Regroup(ReplacedInPlace(out, pos, p, w), out[..pos], (out[..i] + w + out[i + |p|..])[..i + |w|],
              s[k..r.value], w, ReplacedFrom(s, k, p, w), ReplacedFrom(s, k', p, w));
    }
  }

  lemma InPlaceIsReplaced(s: string, p: string, w: string)
    requires p != []
    ensures ReplacedInPlace(s, 0, p, w) == Replaced(s, p, w)
  {
    InPlaceIsLeftmost(s, 0, s, 0, p, w);
    assert s[..0] + ReplacedFrom(s, 0, p, w) == ReplacedFrom(s, 0, p, w);
  }

  lemma InPlaceRound(out: string, pos: nat, p: string, w: string)
    requires p != []
    ensures var i := Find(out, p, pos);
      ReplacedInPlace(out, pos, p, w) ==
        if i.None? then out
        else ReplacedInPlace(out[..i.value] + w + out[i.value + |p|..], i.value + |w|, p, w)
  {
  }

  // The source loops forever on an empty pattern.
  method ReplaceAll(str: string, substr: string, with: string) returns (out: string, result: bool)
    requires substr != []
    ensures out == Replaced(str, substr, with)
    ensures result <==> Find(str, substr, 0).Some?
  {
    hide Find, Replaced, ReplacedInPlace;
    out, result := str, false;
    var pos: nat := 0;
    while true
      invariant ReplacedInPlace(out, pos, substr, with) == ReplacedInPlace(str, 0, substr, with)
      invariant if result then Find(str, substr, 0).Some? else pos == 0 && out == str
      decreases |out| - pos
    {
      var found := Find(out, substr, pos);
      InPlaceRound(out, pos, substr, with);
      if found.None? { break; }
      pos := found.value;
      out := out[..pos] + with + out[pos + |substr|..];
      pos := pos + |with|;
      result := true;
    }
    InPlaceIsReplaced(str, substr, with);
  }

  // With a one-character pattern, replacing is joining the tokens with the replacement.
  lemma {:induction false} ReplaceIsJoinFrom(s: string, d: char, from: nat, w: string)
    requires from <= |s|
    ensures ReplacedFrom(s, from, [d], w) == Join(TokensFrom(s, d, from), w)
    decreases |s| - from
  {
    var e := TokenEnd(s, d, from);
    TokenEndIsFind(s, d, from);
    if e < |s| {
      ReplaceIsJoinFrom(s, d, e + 1, w);
      JoinCons(s[from..e], TokensFrom(s, d, e + 1), w, ReplacedFrom(s, e + 1, [d], w), ReplacedFrom(s, from, [d], w));
    }
  }

  lemma ReplaceIsJoinSplit(s: string, d: char, w: string)
    ensures Replaced(s, [d], w) == Join(Tokens(s, d), w)
  {
    ReplaceIsJoinFrom(s, d, 0, w);
  }
}
