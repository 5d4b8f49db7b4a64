/**
 What the printed fields of a request say, read off the fields themselves: the value of a name, the length and
 the content type they announce, the boundary they name. The parser's map and its decisions agree with it.
 */
module RequestHeaders {
  import opened Text
  import opened CharClasses
  import opened StringUtils
  import opened HttpParser
  import opened ParserProofs

  /* ---- Names without regard to case ---- */

  predicate SameLetter(c: char, d: char) {
    c == d || ('A' <= c <= 'Z' && d as int == c as int + 32) || ('A' <= d <= 'Z' && c as int == d as int + 32)
  }

  predicate SameName(a: string, b: string) { |a| == |b| && forall i :: 0 <= i < |a| ==> SameLetter(a[i], b[i]) }

  lemma LowerIff(c: char, d: char)
    ensures Lower(c) == Lower(d) <==> SameLetter(c, d)
  {
  }

  // Lower-casing makes two names equal exactly when they differ in case only.
  lemma SameNameIff(a: string, b: string)
    ensures ToLower(a) == ToLower(b) <==> SameName(a, b)
  {
    forall i | 0 <= i < |a| && i < |b| ensures ToLower(a)[i] == ToLower(b)[i] <==> SameLetter(a[i], b[i]) {
      LowerIff(a[i], b[i]);
    }
    if SameName(a, b) { assert ToLower(a) == ToLower(b); }
  }

  predicate IsLower(name: string) { forall i :: 0 <= i < |name| ==> !('A' <= name[i] <= 'Z') }

  lemma LowerIsLower(name: string)
    ensures IsLower(ToLower(name))
    ensures IsLower(name) ==> ToLower(name) == name
  {
  }

  /* ---- The value of a name ---- */

  // The value of the first field, from the i-th on, that has the name in any case.
  function ValueFrom(fields: seq<Field>, i: nat, name: string): Option<string>
    requires i <= |fields|
    decreases |fields| - i
  {
    if i == |fields| then None
    else if SameName(fields[i].name, name) then Some(fields[i].value)
    else ValueFrom(fields, i + 1, name)
  }

  function ValueOf(fields: seq<Field>, name: string): Option<string> { ValueFrom(fields, 0, name) }

  predicate Named(fields: seq<Field>, i: nat, name: string) { i < |fields| && ToLower(fields[i].name) == name }

  // The header map holds, under each lower-case name some field has, the value of the first such field.
  lemma {:induction false} FirstFieldWins(fields: seq<Field>, n: nat, i: nat, name: string)
    requires i < n <= |fields| && Named(fields, i, name) && forall j: nat :: j < i ==> !Named(fields, j, name)
    ensures name in FieldMap(fields, n) && FieldMap(fields, n)[name] == fields[i].value
  {
    hide ToLower;
    if i == n - 1 { AbsentField(fields, i, name); } else { FirstFieldWins(fields, n - 1, i, name); }
  }

  lemma {:induction false} AbsentField(fields: seq<Field>, n: nat, name: string)
    requires n <= |fields| && forall j: nat :: j < n ==> !Named(fields, j, name)
    ensures name !in FieldMap(fields, n)
  {
    hide ToLower;
    if n > 0 {
      AbsentField(fields, n - 1, name);
      assert !Named(fields, n - 1, name);
    }
  }

  lemma {:induction false} MapHoldsFrom(fields: seq<Field>, i: nat, name: string)
    requires i <= |fields| && IsLower(name) && forall j: nat :: j < i ==> !Named(fields, j, name)
    ensures var m := FieldMap(fields, |fields|);
      ValueFrom(fields, i, name) == if name in m then Some(m[name]) else None
    decreases |fields| - i
  {
    hide FieldMap, ToLower, SameName, IsLower;
    if i == |fields| {
      AbsentField(fields, i, name);
    } else {
      LowerIsLower(name);
      SameNameIff(fields[i].name, name);
      if Named(fields, i, name) { FirstFieldWins(fields, |fields|, i, name); } else { MapHoldsFrom(fields, i + 1, name); }
    }
  }

  // The header map of printed fields: under a lower-case name the value of the first field of that name in any
  // case, and nothing else.
  lemma MapHolds(fields: seq<Field>, name: string)
    requires IsLower(name)
    ensures var m := FieldMap(fields, |fields|);
      ValueOf(fields, name) == if name in m then Some(m[name]) else None
  {
    MapHoldsFrom(fields, 0, name);
  }

  /* ---- The announced length ---- */

  const LENGTH := "content-length"
  const TYPE := "content-type"

  lemma NamesAreLower()
    ensures IsLower(LENGTH) && IsLower(TYPE)
  {
  }

  // The fields announce a body of n bytes; without the field it is 0.
  predicate Announces(fields: seq<Field>, n: nat) {
    match ValueOf(fields, LENGTH)
    case None => n == 0
    case Some(value) => value == Decimal(n)
  }

  lemma AnnouncedLength(fields: seq<Field>, n: nat)
    requires Announces(fields, n)
    ensures var m := FieldMap(fields, |fields|);
      && ContentLength(m) == (if ValueOf(fields, LENGTH).None? then None else Some(n))
      && (LENGTH in m <==> ValueOf(fields, LENGTH).Some?)
      && (LENGTH in m ==> AsSize(Atoi(m[LENGTH])) == n)
  {
    hide ToLower, FieldMap, Atoi, Decimal, IsLower, ValueOf;
    NamesAreLower();
    MapHolds(fields, LENGTH);
    AtoiDecimal(n);
  }

  // How many bytes the fields let a part have before it counts as complete: the announced length, or, under a
  // minus sign, what is left to 2^64.
  ghost predicate Limit(fields: seq<Field>, total: nat) {
    match ValueOf(fields, LENGTH)
    case None => false
    case Some(value) =>
      value == Decimal(total) || exists n: nat :: n <= 0x8000_0000 && value == "-" + Decimal(n) &&
                                                  total == (if n == 0 then 0 else 0x1_0000_0000_0000_0000 - n)
  }

  lemma LimitIs(fields: seq<Field>, total: nat)
    requires Limit(fields, total)
    ensures var m := FieldMap(fields, |fields|); LENGTH in m && AsSize(Atoi(m[LENGTH])) == total
  {
    hide ToLower, FieldMap, Atoi, Decimal, IsLower, ValueOf;
    NamesAreLower();
    MapHolds(fields, LENGTH);
    var value := ValueOf(fields, LENGTH).value;
    if value == Decimal(total) {
      AtoiDecimal(total);
    } else {
      var n: nat :| n <= 0x8000_0000 && value == "-" + Decimal(n) &&
        total == (if n == 0 then 0 else 0x1_0000_0000_0000_0000 - n);
      AtoiNegative(n);
    }
  }

  lemma AtoiNegative(n: nat)
    ensures Atoi("-" + Decimal(n)) == 0 - n
  {
    hide Decimal, ReadDigits;
    var s := "-" + Decimal(n);
    assert s[0] == '-' && s[1..] == Decimal(n);
    ReadDecimal(n);
  }

  /* ---- The content type ---- */

  // A content type is a type's name, perhaps with parameters behind a semicolon.
  predicate HasType(value: string, t: string) { value == t || t + ";" <= value }

  // No content type, or one whose body is taken as it is.
  predicate PlainBody(fields: seq<Field>) {
    match ValueOf(fields, TYPE)
    case None => true
    case Some(value) => HasType(value, "application/json") || HasType(value, "application/x-www-form-urlencoded")
  }

  predicate MediaBody(fields: seq<Field>) {
    match ValueOf(fields, TYPE)
    case None => false
    case Some(value) => HasType(value, "multipart/form-data") || HasType(value, "image/jpeg")
  }

  lemma TypeFirst(t: string, rest: string)
    requires Free(t, ';') && (rest == [] || rest[0] == ';')
    ensures Tokens(t + rest, ';')[0] == t
  {
    TokenEndIs(t, rest, ';', 0);
    assert (t + rest)[0..|t|] == t;
  }

  // The first token is the type's name.
  lemma HasTypeIff(value: string, t: string)
    requires Free(t, ';')
    ensures Tokens(value, ';')[0] == t <==> HasType(value, t)
  {
    var e := TokenEnd(value, ';', 0);
    TokenIsFree(value, ';', 0);
    assert Tokens(value, ';')[0] == value[0..e] == value[..e];
    assert value == value[..e] + value[e..];
    if value[..e] == t && e < |value| { assert value[..e + 1] == t + ";"; }
    if value == t {
      TypeFirst(t, "");
      assert t + "" == t;
    } else if t + ";" <= value {
      var rest := value[|t|..];
      assert value == t + rest && rest[0] == (t + ";")[|t|];
      TypeFirst(t, rest);
    }
  }

  lemma TypesAreFree()
    ensures Free("multipart/form-data", ';') && Free("application/json", ';') && Free("image/jpeg", ';')
    ensures Free("application/x-www-form-urlencoded", ';')
  {
  }

  // What the parser decides from the header map is what the fields say.
  lemma TypeDecided(fields: seq<Field>)
    ensures var contentType := ContentTypeOf(FieldMap(fields, |fields|));
      && (IsBodyType(contentType) <==> PlainBody(fields)) && (IsMediaType(contentType) <==> MediaBody(fields))
      && (contentType == UnknownType <==> !PlainBody(fields) && !MediaBody(fields))
  {
    hide FieldMap, Tokens, HasType, Free, ToLower, IsLower, ValueOf;
    NamesAreLower();
    MapHolds(fields, TYPE);
    TypesAreFree();
    var value := ValueOf(fields, TYPE);
    if value.Some? {
      HasTypeIff(value.value, "multipart/form-data");
      HasTypeIff(value.value, "application/json");
      HasTypeIff(value.value, "image/jpeg");
      HasTypeIff(value.value, "application/x-www-form-urlencoded");
    }
  }

  /* ---- The boundary ---- */

  const WORD := "boundary="

  predicate IsFill(fill: string) { forall i :: 0 <= i < |fill| ==> fill[i] == '=' || fill[i] == '-' }

  // The boundary stands behind the first "boundary=", after any equals signs and dashes.
  ghost predicate NamesBoundary(value: string, b: string) {
    exists pre, fill ::
      && value == pre + (WORD + (fill + b)) && IsFill(fill) && (forall j: nat :: j < |pre| ==> !Occurs(value, WORD, j))
      && (b != [] ==> b[0] != '=' && b[0] != '-')
  }

  lemma BoundaryIs(value: string, b: string)
    requires NamesBoundary(value, b)
    ensures BoundaryOf(value) == Some(b)
  {
    hide Occurs;
    var pre, fill :|
      && value == pre + (WORD + (fill + b)) && IsFill(fill) && (forall j: nat :: j < |pre| ==> !Occurs(value, WORD, j))
      && (b != [] ==> b[0] != '=' && b[0] != '-');
    WordStands(pre, fill + b, value);
    FindIs(value, WORD, 0, |pre|);
    FilledBoundary(fill, b, value[|pre|..]);
  }

  lemma WordStands(pre: string, rest: string, value: string)
    requires value == pre + (WORD + rest)
    ensures Occurs(value, WORD, |pre|) && value[|pre|..] == WORD + rest
  {
    TextAt(pre, WORD, rest, value);
  }

  lemma FilledBoundary(fill: string, b: string, named: string)
    requires named == WORD + (fill + b) && IsFill(fill) && (b != [] ==> b[0] != '=' && b[0] != '-')
    ensures named[SkipWhile(IsFiller, named, 8, |named|)..] == b
  {
    assert WORD == "boundary" + "=";
    var word, filler := "boundary", "=" + fill;
    WordAndFill(WORD, word, "=", fill, b, named);
    assert forall x :: 0 <= x < |filler| ==> IsFiller(filler[x]);
    SkipOver(IsFiller, word, filler, b, named);
  }

  lemma WordAndFill(whole: string, word: string, sign: string, fill: string, b: string, named: string)
    requires whole == word + sign && named == whole + (fill + b)
    ensures named == word + ((sign + fill) + b) && named[|word| + |sign + fill|..] == b
  {
    assert named == (word + (sign + fill)) + b;
  }

  // Without the word there is no boundary.
  lemma NoBoundary(value: string)
    requires forall j: nat :: !Occurs(value, WORD, j)
    ensures BoundaryOf(value) == None
  {
    FindNone(value, WORD, 0);
  }

  /* ---- A request with media ---- */

  // The fields announce media of some length, with this boundary.
  ghost predicate AnnouncesMedia(fields: seq<Field>, b: string) {
    && MediaBody(fields) && ValueOf(fields, LENGTH).Some?
    && ValueOf(fields, TYPE).Some? && NamesBoundary(ValueOf(fields, TYPE).value, b)
  }

  lemma MediaKeys(fields: seq<Field>, b: string)
    requires AnnouncesMedia(fields, b)
    ensures var m := FieldMap(fields, |fields|);
      && IsMediaType(ContentTypeOf(m)) && LENGTH in m && TYPE in m && BoundaryOf(m[TYPE]) == Some(b)
  {
    hide FieldMap, ContentTypeOf, BoundaryOf, ValueOf, NamesBoundary, IsLower, PlainBody, MediaBody;
    TypeDecided(fields);
    NamesAreLower();
    MapHolds(fields, LENGTH);
    MapHolds(fields, TYPE);
    BoundaryIs(ValueOf(fields, TYPE).value, b);
  }

  lemma TypeKey(fields: seq<Field>)
    ensures TYPE in FieldMap(fields, |fields|) <==> ValueOf(fields, TYPE).Some?
  {
    hide FieldMap, ValueOf, IsLower;
    NamesAreLower();
    MapHolds(fields, TYPE);
  }
}
