/** Message templates: finding the {{placeholders}} and filling them in. */
module MessageRendering {
  import opened Basics
  import opened Sorting

  // ---------------------------------------------------------------------------------------------
  // Placeholders

  predicate WordChar(c: char) { 'a' <= c <= 'z' || 'A' <= c <= 'Z' || '0' <= c <= '9' || c == '_' }

  predicate Word(s: string) { s != [] && forall i :: 0 <= i < |s| ==> WordChar(s[i]) }

  /** The placeholder `{{key}}` stands at `i`. */
  predicate Occurs(body: string, i: nat, key: string) {
    && Word(key) && i + |key| + 4 <= |body|
    && body[i] == '{' && body[i + 1] == '{' && body[i + 2..i + 2 + |key|] == key
    && body[i + 2 + |key|] == '}' && body[i + 3 + |key|] == '}'
  }

  /** Where the run of word characters from `i` ends. */
  function WordEnd(body: string, i: nat): (e: nat)
    requires i <= |body|
    ensures i <= e <= |body| && (forall j :: i <= j < e ==> WordChar(body[j])) && (e < |body| ==> !WordChar(body[e]))
    decreases |body| - i
  {
    if i < |body| && WordChar(body[i]) then WordEnd(body, i + 1) else i
  }

  /** What the pattern matches at `i`. */
  function KeyAt(body: string, i: nat): Option<string> {
    if i + 2 <= |body| && body[i] == '{' && body[i + 1] == '{' then
      var e := WordEnd(body, i + 2);
      if i + 2 < e && e + 2 <= |body| && body[e] == '}' && body[e + 1] == '}' then Some(body[i + 2..e]) else None
    else None
  }

  lemma {:induction false} KeyAtIsExact(body: string, i: nat, key: string)
    ensures KeyAt(body, i) == Some(key) <==> Occurs(body, i, key)
  {
    if i + 2 <= |body| && body[i] == '{' && body[i + 1] == '{' {
      var e := WordEnd(body, i + 2);
      if Occurs(body, i, key) {
        assert forall j :: 0 <= j < |key| ==> body[i + 2 + j] == key[j];
        assert !WordChar(body[i + 2 + |key|]);
        assert e == i + 2 + |key|;
      }
      if KeyAt(body, i) == Some(key) {
        assert |key| == e - i - 2;
      }
    }
  }

  /** Two placeholders never overlap. */
  lemma {:induction false} NoOverlap(body: string, i: nat, key: string, j: nat, other: string)
    requires Occurs(body, i, key) && Occurs(body, j, other) && i < j
    ensures i + |key| + 4 <= j
  {
    var inner := body[i + 2..i + 2 + |key|];
    assert forall k :: i + 2 <= k < i + 2 + |key| ==> body[k] == inner[k - i - 2];
  }

  // ---------------------------------------------------------------------------------------------
  // Reading a template from left to right

  datatype Token = Lit(c: char) | Hole(key: string)

  function Tokens(body: string): seq<Token>
    decreases |body|
  {
    if body == [] then []
    else
      match KeyAt(body, 0)
      case Some(key) => KeyFits(body, key); [Hole(key)] + Tokens(body[|key| + 4..])
      case None => [Lit(body[0])] + Tokens(body[1..])
  }

  lemma {:induction false} KeyFits(body: string, key: string)
    requires KeyAt(body, 0) == Some(key)
    ensures key != [] && |key| + 4 <= |body|
  {
    KeyAtIsExact(body, 0, key);
  }

  lemma {:induction false} OccursInPrefix(body: string, n: nat, i: nat, key: string)
    requires n <= |body|
    ensures Occurs(body[..n], i, key) <==> Occurs(body, i, key) && i + |key| + 4 <= n
  {
    if i + |key| + 4 <= n { assert body[..n][i + 2..i + 2 + |key|] == body[i + 2..i + 2 + |key|]; }
  }

  lemma {:induction false} OccursInSuffix(body: string, n: nat, i: nat, key: string)
    requires n <= |body|
    ensures Occurs(body[n..], i, key) <==> Occurs(body, n + i, key)
  {
    if n + i + |key| + 4 <= |body| { assert body[n..][i + 2..i + 2 + |key|] == body[n + i + 2..n + i + 2 + |key|]; }
  }

  /** Whatever stands around it, an occurrence is read as a placeholder, and what is before and behind it is read as if
      alone. */
  lemma {:induction false} TokensSplit(body: string, i: nat, key: string, before: string, after: string)
    requires Occurs(body, i, key) && before == body[..i] && after == body[i + |key| + 4..]
    ensures Tokens(body) == Tokens(before) + [Hole(key)] + Tokens(after)
    decreases |body|
  {
    if i == 0 {
      SplitAtStart(body, key, before, after);
    } else {
      var n, first := SameFirst(body, i, key, before);
      OccursInSuffix(body, n, i - n, key);
      Slices(body, i, n, i + |key| + 4);
      TokensSplit(body[n..], i - n, key, before[n..], after);
      Regroup(Tokens(body), Tokens(before), Tokens(body[n..]), first, Tokens(before[n..]), Hole(key), Tokens(after));
    }
  }

  lemma {:induction false} SplitAtStart(body: string, key: string, before: string, after: string)
    requires Occurs(body, 0, key) && before == [] && after == body[|key| + 4..]
    ensures Tokens(body) == Tokens(before) + [Hole(key)] + Tokens(after)
  {
    KeyAtIsExact(body, 0, key);
    FirstHole(body, key);
    assert Tokens(before) == [];
  }

  lemma {:induction false} Slices(body: string, i: nat, n: nat, e: nat)
    requires n <= i <= e <= |body|
    ensures body[n..][..i - n] == body[..i][n..] && body[n..][e - n..] == body[e..]
  {
  }

  /** The whole and the part before the occurrence begin with the same token. */
  lemma {:induction false} SameFirst(body: string, i: nat, key: string, before: string) returns (n: nat, first: Token)
    requires Occurs(body, i, key) && i > 0 && before == body[..i]
    ensures 0 < n <= i && Tokens(body) == [first] + Tokens(body[n..]) && Tokens(before) == [first] + Tokens(before[n..])
  {
    if KeyAt(body, 0).Some? {
      var k := KeyAt(body, 0).value;
      HoleBefore(body, i, key, k);
      n, first := |k| + 4, Hole(k);
    } else {
      if KeyAt(before, 0).Some? {
        var k := KeyAt(before, 0).value;
        KeyAtIsExact(before, 0, k);
        OccursInPrefix(body, i, 0, k);
        KeyAtIsExact(body, 0, k);
      }
      n, first := 1, Lit(body[0]);
    }
  }

  lemma {:induction false} HoleBefore(body: string, i: nat, key: string, first: string)
    requires Occurs(body, i, key) && i > 0 && KeyAt(body, 0) == Some(first)
    ensures |first| + 4 <= i && Tokens(body) == [Hole(first)] + Tokens(body[|first| + 4..])
    ensures Tokens(body[..i]) == [Hole(first)] + Tokens(body[..i][|first| + 4..])
  {
    KeyAtIsExact(body, 0, first);
    NoOverlap(body, 0, first, i, key);
    OccursInPrefix(body, i, 0, first);
    KeyAtIsExact(body[..i], 0, first);
    FirstHole(body, first);
    FirstHole(body[..i], first);
  }

  lemma {:induction false} FirstHole(body: string, key: string)
    requires KeyAt(body, 0) == Some(key)
    ensures |key| + 4 <= |body| && Tokens(body) == [Hole(key)] + Tokens(body[|key| + 4..])
  {
    KeyFits(body, key);
  }

  lemma {:induction false} Regroup(
    whole: seq<Token>, front: seq<Token>, rest: seq<Token>, x: Token, a: seq<Token>, y: Token, b: seq<Token>)
    requires whole == [x] + rest && front == [x] + a && rest == a + [y] + b
    ensures whole == front + [y] + b
  {
  }

  /** The placeholders read are exactly the ones that occur. */
  lemma {:induction false} HolesOccur(body: string, key: string)
    ensures Hole(key) in Tokens(body) <==> exists i: nat :: Occurs(body, i, key)
    decreases |body|
  {
    if exists i: nat :: Occurs(body, i, key) {
      var i: nat :| Occurs(body, i, key);
      TokensSplit(body, i, key, body[..i], body[i + |key| + 4..]);
    }
    if Hole(key) in Tokens(body) { HoleOccurs(body, key); }
  }

  lemma {:induction false} HoleOccurs(body: string, key: string)
    requires Hole(key) in Tokens(body)
    ensures exists i: nat :: Occurs(body, i, key)
    decreases |body|
  {
    match KeyAt(body, 0)
    case Some(first) =>
      KeyAtIsExact(body, 0, first);
      if first != key {
        HoleOccurs(body[|first| + 4..], key);
        var i: nat :| Occurs(body[|first| + 4..], i, key);
        OccursInSuffix(body, |first| + 4, i, key);
      }
    case None =>
      HoleOccurs(body[1..], key);
      var i: nat :| Occurs(body[1..], i, key);
      OccursInSuffix(body, 1, i, key);
  }

  // ---------------------------------------------------------------------------------------------
  // Filling in

  /** Where values come from: nothing for a key without a value. */
  type Source = string -> Option<string>

  /** What stands for a token in the result. */
  function Shown(look: Source): Token -> string {
    (t: Token) => match t case Lit(c) => [c] case Hole(key) => (var v := look(key); if v.Some? then v.value
        else "{{" + key + "}}")
  }

  /** The key a token lacks a value for. */
  function Lacking(look: Source): Token -> seq<string> {
    (t: Token) => if t.Hole? && look(t.key).None? then [t.key] else []
  }

  function Gather<T>(ts: seq<Token>, f: Token -> seq<T>): seq<T> {
    if ts == [] then [] else Gather(ts[..|ts| - 1], f) + f(ts[|ts| - 1])
  }

  function Fill(body: string, look: Source): string { Gather(Tokens(body), Shown(look)) }

  function Lacks(body: string, look: Source): seq<string> { Gather(Tokens(body), Lacking(look)) }

  lemma {:induction false} GatherJoins<T>(a: seq<Token>, b: seq<Token>, f: Token -> seq<T>)
    ensures Gather(a + b, f) == Gather(a, f) + Gather(b, f)
    decreases |b|
  {
    if b == [] {
      assert a + b == a;
    } else {
      var n := |b| - 1;
      assert (a + b)[..|a + b| - 1] == a + b[..n];
      GatherJoins(a, b[..n], f);
    }
  }

  /** Every occurrence of a placeholder is replaced by its value, wherever it stands, and values are not read again. */
  lemma {:induction false} EveryPlaceholderIsFilled(body: string, look: Source, i: nat, key: string)
    requires Occurs(body, i, key)
    ensures Fill(body, look)
         == Fill(body[..i], look) + (if look(key).Some? then look(key).value else "{{" + key + "}}")
             + Fill(body[i + |key| + 4..], look)
  {
    var before, after := Tokens(body[..i]), Tokens(body[i + |key| + 4..]);
    TokensSplit(body, i, key, body[..i], body[i + |key| + 4..]);
    GatherJoins(before + [Hole(key)], after, Shown(look));
    assert (before + [Hole(key)])[..|before|] == before;
  }

  /** Text without placeholders stays as it is. */
  lemma {:induction false} PlainTextStays(body: string, look: Source)
    requires forall i: nat, key :: !Occurs(body, i, key)
    ensures Fill(body, look) == body
    decreases |body|
  {
    if body != [] {
      if KeyAt(body, 0).Some? { KeyAtIsExact(body, 0, KeyAt(body, 0).value); }
      forall i: nat, key ensures !Occurs(body[1..], i, key) { OccursInSuffix(body, 1, i, key); }
      PlainTextStays(body[1..], look);
      GatherJoins([Lit(body[0])], Tokens(body[1..]), Shown(look));
      assert Gather([Lit(body[0])], Shown(look)) == Gather([], Shown(look)) + [body[0]];
      assert body == [body[0]] + body[1..];
    }
  }

  lemma {:induction false} GatherMembers<T>(ts: seq<Token>, f: Token -> seq<T>, x: T)
    ensures x in Gather(ts, f) <==> exists t :: t in ts && x in f(t)
  {
    if ts != [] {
      var n := |ts| - 1;
      GatherMembers(ts[..n], f, x);
      assert ts == ts[..n] + [ts[n]];
    }
  }

  /** The missing variables are the placeholders that occur and have no value. */
  lemma {:induction false} LacksAreMissing(body: string, look: Source, key: string)
    ensures key in Lacks(body, look) <==> look(key).None? && exists i: nat :: Occurs(body, i, key)
  {
    GatherMembers(Tokens(body), Lacking(look), key);
    HolesOccur(body, key);
    if key in Lacks(body, look) {
      var t :| t in Tokens(body) && key in Lacking(look)(t);
      assert t == Hole(key);
    }
    if Hole(key) in Tokens(body) && look(key).None? { assert key in Lacking(look)(Hole(key)); }
  }

  function Unknown(keys: seq<string>, allowed: seq<string>): seq<string> {
    if keys == [] then [] else (if keys[0] in allowed then [] else [keys[0]]) + Unknown(keys[1..], allowed)
  }

  lemma {:induction false} UnknownMembers(keys: seq<string>, allowed: seq<string>, key: string)
    ensures key in Unknown(keys, allowed) <==> key in keys && key !in allowed
  {
    if keys != [] { UnknownMembers(keys[1..], allowed, key); }
  }

  // ---------------------------------------------------------------------------------------------
  // Variables

  /** An object with string values, its keys in enumeration order. */
  datatype Record = Record(keys: seq<string>, values: map<string, string>)

  predicate Proper(r: Record) {
    Distinct(r.keys) && (forall k :: k in r.keys ==> k in r.values) && (forall k :: k in r.values ==> k in r.keys)
  }

  type Variables = r: Record | Proper(r) witness Record([], map[])

  /** What the test `key in variables` also finds: the members every plain object inherits, as text. */
  function Inherited(key: string): Option<string> {
    if key == "__proto__" then Some("[object Object]")
    else if key == "constructor" then Some("function Object() { [native code] }")
    else if key in ["__defineGetter__", "__defineSetter__", "hasOwnProperty", "__lookupGetter__",
        "__lookupSetter__", "isPrototypeOf",
                    "propertyIsEnumerable", "toString", "valueOf", "toLocaleString"]
    then Some("function " + key + "() { [native code] }")
    else None
  }

  function Lookup(vars: Variables, key: string): Option<string> {
    if key in vars.values then Some(vars.values[key]) else Inherited(key)
  }

  function Reads(vars: Variables): Source { (key: string) => Lookup(vars, key) }

  /** The scan of a template. */
  method RenderTemplate(
    body: string, allowed: seq<string>, vars: Variables)
    returns (content: string, missing: seq<string>, unknown: seq<string>)
    ensures content == Fill(body, Reads(vars)) && missing == Lacks(body, Reads(vars))
    ensures unknown == Unknown(vars.keys, allowed)
  {
    var look := Reads(vars);
    unknown := Unknown(vars.keys, allowed);
    content, missing := [], [];
    var i := 0;
    ghost var done: seq<Token> := [];
    while i < |body|
      invariant i <= |body| && done + Tokens(body[i..]) == Tokens(body)
      invariant content == Gather(done, Shown(look)) && missing == Gather(done, Lacking(look))
      decreases |body| - i
    {
      var key := KeyAt(body, i);
      var token := if key.Some? then Hole(key.value) else Lit(body[i]);
      var next := i + (if key.Some? then |key.value| + 4 else 1);
      NextToken(body, i, token, next);
      Shift(done, token, Tokens(body[i..]), Tokens(body[next..]));
      missing := missing + Lacking(look)(token);
      content := content + Shown(look)(token);
      done, i := done + [token], next;
    }
    assert body[i..] == [] && done + [] == done;
  }

  /** One step of the scan. */
  lemma {:induction false} NextToken(body: string, i: nat, token: Token, next: nat)
    requires i < |body|
    requires match KeyAt(body, i) case Some(key) => token == Hole(key)
        && next == i + |key| + 4 case None => token == Lit(body[i]) && next == i + 1
    ensures i < next <= |body| && Tokens(body[i..]) == [token] + Tokens(body[next..])
  {
    var rest := body[i..];
    MatchInSuffix(body, i);
    if token.Hole? { FirstHole(rest, token.key); }
    assert rest[next - i..] == body[next..];
  }

  lemma {:induction false} Shift(done: seq<Token>, t: Token, rest: seq<Token>, rest': seq<Token>)
    requires rest == [t] + rest'
    ensures done + rest == (done + [t]) + rest' && (done + [t])[..|done|] == done
  {
  }

  lemma {:induction false} MatchInSuffix(body: string, n: nat)
    requires n <= |body|
    ensures KeyAt(body[n..], 0) == KeyAt(body, n)
  {
    if KeyAt(body, n).Some? {
      var k := KeyAt(body, n).value;
      KeyAtIsExact(body, n, k);
      OccursInSuffix(body, n, 0, k);
      KeyAtIsExact(body[n..], 0, k);
    } else if KeyAt(body[n..], 0).Some? {
      var k := KeyAt(body[n..], 0).value;
      KeyAtIsExact(body[n..], 0, k);
      OccursInSuffix(body, n, 0, k);
      KeyAtIsExact(body, n, k);
    }
  }
}
