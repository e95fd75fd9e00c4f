/**
 JSON pointers (section 4 of RFC 6901) as `serde_json::Value::pointer` evaluates them, and the
 edge conditions of the workflow graph that are built on them.
 */
module Pointer {
  import opened Json

  /** `str::split('/')`: never empty. */
  function Split(s: string): (r: seq<string>)
    ensures |r| >= 1
  {
    if s == [] then [""]
    else if s[0] == '/' then [""] + Split(s[1..])
    else
      var r := Split(s[1..]);
      [[s[0]] + r[0]] + r[1..]
  }

  /** `str::replace` of the two characters `~c` by `d`, left to right. */
  function ReplaceTilde(s: string, c: char, d: char): string {
    if |s| < 2 then s
    else if s[0] == '~' && s[1] == c then [d] + ReplaceTilde(s[2..], c, d)
    else [s[0]] + ReplaceTilde(s[1..], c, d)
  }

  function Unescape(t: string): string {
    ReplaceTilde(ReplaceTilde(t, '1', '/'), '0', '~')
  }

  function Tokens(pointer: string): Option<seq<string>> {
    if pointer == "" then Some([])
    else if pointer[0] != '/' then None
    else
      var parts := Split(pointer)[1..];
      Some(seq(|parts|, i requires 0 <= i < |parts| => Unescape(parts[i])))
  }

  predicate IsDigit(c: char) {
    '0' <= c <= '9'
  }

  function Decimal(s: string): nat
    requires forall i | 0 <= i < |s| :: IsDigit(s[i])
  {
    if s == [] then 0
    else
      assert IsDigit(s[|s| - 1]);
      10 * Decimal(s[..|s| - 1]) + (s[|s| - 1] as int - '0' as int)
  }

  /** An array index token: digits only, no sign, no leading zero. */
  function ParseIndex(t: string): Option<nat> {
    if t == "" || (t[0] == '0' && |t| != 1) then None
    else if forall i | 0 <= i < |t| :: IsDigit(t[i]) then Some(Decimal(t))
    else None
  }

  function Child(v: Value, token: string): Option<Value> {
    match v
    case Obj(es) => Get(es, token)
    case Arr(items) =>
      var i := ParseIndex(token);
      if i.Some? && i.value < |items| then Some(items[i.value]) else None
    case _ => None
  }

  function Walk(v: Value, tokens: seq<string>): Option<Value>
    decreases |tokens|
  {
    if tokens == [] then Some(v)
    else
      match Child(v, tokens[0])
      case None => None
      case Some(c) => Walk(c, tokens[1..])
  }

  function Lookup(v: Value, pointer: string): Option<Value> {
    match Tokens(pointer)
    case None => None
    case Some(ts) => Walk(v, ts)
  }

  datatype EdgeCondition =
    | Always
    | JsonEq(pointer: string, value: Value)

  /** `EdgeCondition::evaluate`. */
  predicate Evaluate(c: EdgeCondition, output: Value) {
    match c
    case Always => true
    case JsonEq(pointer, value) =>
      var o := Lookup(output, pointer);
      o.Some? && Equiv(o.value, value)
  }

  // ----- pointer lookup commutes with canonicalisation

  lemma ChildOfCanon(v: Value, token: string)
    requires WellFormed(v)
    ensures Child(Canon(v), token) == CanonOption(Child(v, token))
    ensures Child(v, token).Some? ==> WellFormed(Child(v, token).value)
  {
    match v {
      case Obj(es) =>
        CanonObject(es);
        if Get(es, token).Some? {
          var i := GetIndex(es, token);
        }
      case _ =>
    }
  }

  lemma {:induction false} WalkOfCanon(v: Value, tokens: seq<string>)
    requires WellFormed(v)
    ensures Walk(Canon(v), tokens) == CanonOption(Walk(v, tokens))
    ensures Walk(v, tokens).Some? ==> WellFormed(Walk(v, tokens).value)
    decreases |tokens|
  {
    if tokens != [] {
      ChildOfCanon(v, tokens[0]);
      if Child(v, tokens[0]).Some? {
        WalkOfCanon(Child(v, tokens[0]).value, tokens[1..]);
      }
    }
  }

  /** A condition fires on a value exactly when it fires on the canonical form that is hashed. */
  lemma EvaluateOnCanon(c: EdgeCondition, v: Value)
    requires WellFormed(v) && (c.JsonEq? ==> WellFormed(c.value))
    ensures Evaluate(c, Canon(v)) == Evaluate(c, v)
  {
    if c.JsonEq? && Tokens(c.pointer).Some? {
      var ts := Tokens(c.pointer).value;
      WalkOfCanon(v, ts);
      if Walk(v, ts).Some? {
        var x := Walk(v, ts).value;
        CanonWellFormed(x);
        CanonIdempotent(x);
        CanonIffEquiv(x, c.value);
        CanonIffEquiv(Canon(x), c.value);
      }
    }
  }

  /** Outputs that differ only in key order fire the same edges. */
  lemma EvaluateUpToKeyOrder(c: EdgeCondition, a: Value, b: Value)
    requires WellFormed(a) && WellFormed(b) && (c.JsonEq? ==> WellFormed(c.value))
    requires Equiv(a, b)
    ensures Evaluate(c, a) == Evaluate(c, b)
  {
    CanonIffEquiv(a, b);
    EvaluateOnCanon(c, a);
    EvaluateOnCanon(c, b);
  }

  // ----- every field path has a pointer that reads back as that path

  function Escape(t: string): string {
    if t == [] then []
    else (if t[0] == '~' then "~0" else if t[0] == '/' then "~1" else [t[0]]) + Escape(t[1..])
  }

  function Render(tokens: seq<string>): string {
    if tokens == [] then [] else "/" + Escape(tokens[0]) + Render(tokens[1..])
  }

  function EscapeTilde(t: string): string {
    if t == [] then []
    else (if t[0] == '~' then "~0" else [t[0]]) + EscapeTilde(t[1..])
  }

  lemma KeepZero(rest: string)
    ensures ReplaceTilde("~0" + rest, '1', '/') == "~0" + ReplaceTilde(rest, '1', '/')
  {
    assert ("~0" + rest)[1..] == "0" + rest && ("0" + rest)[1..] == rest;
    assert ReplaceTilde("0" + rest, '1', '/') == "0" + ReplaceTilde(rest, '1', '/');
    assert ['~'] + ("0" + ReplaceTilde(rest, '1', '/')) == "~0" + ReplaceTilde(rest, '1', '/');
  }

  lemma {:induction false} UnescapeSlash(t: string)
    ensures ReplaceTilde(Escape(t), '1', '/') == EscapeTilde(t)
  {
    if t != [] {
      UnescapeSlash(t[1..]);
      var rest := Escape(t[1..]);
      if t[0] == '~' {
        KeepZero(rest);
      } else if t[0] == '/' {
        assert Escape(t)[2..] == rest;
      } else {
        assert Escape(t)[1..] == rest;
      }
    }
  }

  lemma {:induction false} UnescapeTilde(t: string)
    ensures ReplaceTilde(EscapeTilde(t), '0', '~') == t
  {
    if t != [] {
      UnescapeTilde(t[1..]);
      var rest := EscapeTilde(t[1..]);
      assert t == [t[0]] + t[1..];
      if t[0] == '~' {
        assert EscapeTilde(t)[2..] == rest;
      } else {
        assert EscapeTilde(t)[1..] == rest;
      }
    }
  }

  function EscapeAll(tokens: seq<string>): seq<string> {
    seq(|tokens|, i requires 0 <= i < |tokens| => Escape(tokens[i]))
  }

  lemma {:induction false} EscapeHasNoSlash(t: string)
    ensures '/' !in Escape(t)
  {
    if t != [] {
      EscapeHasNoSlash(t[1..]);
    }
  }

  lemma {:induction false} SplitPrefix(e: string, rest: string)
    requires '/' !in e && (rest == "" || rest[0] == '/')
    ensures Split(e + rest) == [e] + Split(rest)[1..]
  {
    if e == [] {
      assert e + rest == rest;
    } else {
      assert (e + rest)[1..] == e[1..] + rest;
      SplitPrefix(e[1..], rest);
      assert [e[0]] + e[1..] == e;
    }
  }

  lemma SplitSlash(x: string)
    ensures Split("/" + x)[1..] == Split(x)
  {
    assert ("/" + x)[1..] == x;
  }

  lemma {:induction false} SplitRender(tokens: seq<string>)
    ensures Split(Render(tokens))[1..] == EscapeAll(tokens)
  {
    if tokens != [] {
      var t, rest := Escape(tokens[0]), Render(tokens[1..]);
      calc {
        Split(Render(tokens))[1..];
      == { assert Render(tokens) == "/" + (t + rest); }
        Split("/" + (t + rest))[1..];
      == { SplitSlash(t + rest); }
        Split(t + rest);
      == { EscapeHasNoSlash(tokens[0]); SplitPrefix(t, rest); }
        [t] + Split(rest)[1..];
      == { SplitRender(tokens[1..]); }
        [t] + EscapeAll(tokens[1..]);
      ==
        EscapeAll(tokens);
      }
    }
  }

  lemma RenderReadsBack(tokens: seq<string>)
    ensures Tokens(Render(tokens)) == Some(tokens)
  {
    SplitRender(tokens);
    if tokens != [] {
      var parts := Split(Render(tokens))[1..];
      assert parts == EscapeAll(tokens);
      forall i | 0 <= i < |tokens| ensures Unescape(parts[i]) == tokens[i] {
        UnescapeSlash(tokens[i]);
        UnescapeTilde(tokens[i]);
      }
      assert seq(|parts|, i requires 0 <= i < |parts| => Unescape(parts[i])) == tokens;
    }
  }

  // ----- lookup goes down one step per token

  lemma {:induction false} WalkConcat(v: Value, a: seq<string>, b: seq<string>)
    ensures Walk(v, a + b) == match Walk(v, a) case None => None case Some(x) => Walk(x, b)
    decreases |a|
  {
    if a == [] {
      assert a + b == b;
    } else {
      assert (a + b)[0] == a[0] && (a + b)[1..] == a[1..] + b;
      if Child(v, a[0]).Some? {
        WalkConcat(Child(v, a[0]).value, a[1..], b);
      }
    }
  }

  lemma {:induction false} RenderConcat(a: seq<string>, b: seq<string>)
    ensures Render(a + b) == Render(a) + Render(b)
  {
    if a == [] {
      assert a + b == b;
    } else {
      assert (a + b)[0] == a[0] && (a + b)[1..] == a[1..] + b;
      RenderConcat(a[1..], b);
    }
  }

  /** Following one pointer and then another is following their concatenation. */
  lemma LookupConcat(v: Value, a: seq<string>, b: seq<string>)
    ensures Lookup(v, Render(a) + Render(b)) ==
            match Lookup(v, Render(a)) case None => None case Some(x) => Lookup(x, Render(b))
  {
    RenderConcat(a, b);
    RenderReadsBack(a);
    RenderReadsBack(b);
    RenderReadsBack(a + b);
    WalkConcat(v, a, b);
  }

  /** The empty pointer is the whole value; any other pointer has to begin with a slash. */
  lemma LookupRoot(v: Value, pointer: string)
    ensures Lookup(v, "") == Some(v)
    ensures pointer != "" && pointer[0] != '/' ==> Lookup(v, pointer) == None
  {
  }

  lemma LookupOne(v: Value, k: string)
    ensures Lookup(v, Render([k])) == Child(v, k)
  {
    RenderReadsBack([k]);
    assert [k][1..] == [];
    if Child(v, k).Some? {
      assert Walk(Child(v, k).value, []) == Child(v, k);
    }
  }

  /** A pointer of one token finds the field of that name, and nothing below a scalar. */
  lemma LookupField(v: Value, k: string)
    ensures v.Obj? ==> Lookup(v, Render([k])) == Get(v.entries, k)
    ensures !v.Obj? && !v.Arr? ==> Lookup(v, Render([k])) == None
  {
    LookupOne(v, k);
  }

  /** Field or element `k` of `v` is there and equals `x`. */
  ghost predicate ChildEquals(v: Value, k: string, x: Value) {
    if v.Obj? then Get(v.entries, k).Some? && Equiv(Get(v.entries, k).value, x)
    else v.Arr? && exists n :: 0 <= n < |v.items| && k == Digits(n) && Equiv(v.items[n], x)
  }

  /**
   The condition on field `k` below the path `path` fires exactly when the path leads to an object
   whose field `k` equals the literal, or to an array that has an equal element of that index.
   */
  lemma FieldCondition(v: Value, path: seq<string>, k: string, x: Value)
    ensures Evaluate(JsonEq(Render(path) + Render([k]), x), v) <==>
            Lookup(v, Render(path)).Some? && ChildEquals(Lookup(v, Render(path)).value, k, x)
  {
    LookupConcat(v, path, [k]);
    RenderConcat(path, [k]);
    RenderReadsBack(path + [k]);
    if Lookup(v, Render(path)).Some? {
      var parent := Lookup(v, Render(path)).value;
      LookupField(parent, k);
      if parent.Arr? {
        ElementIff(parent.items, k);
      }
    }
  }

  /** `v` at the end of the path `path`, and nothing else. */
  function Nest(path: seq<string>, v: Value): Value {
    if path == [] then v else Obj([Entry(path[0], Nest(path[1..], v))])
  }

  /** However deep a value lies, its pointer finds it. */
  lemma {:induction false} NestedIsFound(path: seq<string>, v: Value)
    ensures Lookup(Nest(path, v), Render(path)) == Some(v)
  {
    if path != [] {
      NestedIsFound(path[1..], v);
      LookupConcat(Nest(path, v), [path[0]], path[1..]);
      assert [path[0]] + path[1..] == path;
      RenderConcat([path[0]], path[1..]);
      LookupField(Nest(path, v), path[0]);
    }
  }

  lemma {:induction false} EscapePlain(t: string)
    requires '~' !in t && '/' !in t
    ensures Escape(t) == t
  {
    if t != [] {
      EscapePlain(t[1..]);
      assert t == [t[0]] + t[1..];
    }
  }

  lemma RenderPlain(t: string)
    requires '~' !in t && '/' !in t
    ensures Render([t]) == "/" + t
  {
    EscapePlain(t);
    assert [t][1..] == [];
  }

  /** A name without special characters needs no escape. */
  lemma LookupName(v: Value, k: string)
    requires '~' !in k && '/' !in k
    ensures v.Obj? ==> Lookup(v, "/" + k) == Get(v.entries, k)
    ensures !v.Obj? && !v.Arr? ==> Lookup(v, "/" + k) == None
  {
    RenderPlain(k);
    LookupField(v, k);
  }

  /** The escapes are those of the standard: `~1` for a slash and `~0` for a tilde. */
  lemma StandardEscapes(v: Value)
    ensures v.Obj? ==> Lookup(v, "/a~1b") == Get(v.entries, "a/b")
    ensures v.Obj? ==> Lookup(v, "/m~0n") == Get(v.entries, "m~n")
  {
    RenderSlash();
    RenderTilde();
    LookupField(v, "a/b");
    LookupField(v, "m~n");
  }

  lemma EscapeConcat(a: string, b: string)
    ensures Escape(a + b) == Escape(a) + Escape(b)
    decreases a
  {
    if a == [] {
      assert a + b == b;
    } else {
      assert (a + b)[1..] == a[1..] + b;
      EscapeConcat(a[1..], b);
    }
  }

  lemma RenderSlash()
    ensures Render(["a/b"]) == "/a~1b"
  {
    EscapePlain("a");
    EscapePlain("b");
    EscapeConcat("a", "/" + "b");
    EscapeConcat("/", "b");
    assert "a" + ("/" + "b") == "a/b" && "/"[1..] == "";
    assert Escape("/") == "~1";
    assert ["a/b"][1..] == [];
  }

  lemma RenderTilde()
    ensures Render(["m~n"]) == "/m~0n"
  {
    EscapePlain("m");
    EscapePlain("n");
    EscapeConcat("m", "~" + "n");
    EscapeConcat("~", "n");
    assert "m" + ("~" + "n") == "m~n" && "~"[1..] == "";
    assert Escape("~") == "~0";
    assert ["m~n"][1..] == [];
  }

  lemma RenderResult()
    ensures Render(["result"]) == "/result"
  {
    RenderPlain("result");
    assert "/" + "result" == "/result";
  }

  lemma RenderOk()
    ensures Render(["ok"]) == "/ok"
  {
    RenderPlain("ok");
    assert "/" + "ok" == "/ok";
  }

  lemma RenderResultOk()
    ensures Render(["result"]) + Render(["ok"]) == "/result/ok"
  {
    RenderResult();
    RenderOk();
    assert "/result" + "/ok" == "/result/ok";
  }

  lemma NestOne(k: string, v: Value)
    ensures Nest([k], v) == Obj([Entry(k, v)])
  {
    assert [k][1..] == [];
    assert Nest([], v) == v;
  }

  lemma NestedCondition(path: seq<string>, k: string, x: Value, y: Value)
    ensures Evaluate(JsonEq(Render(path) + Render([k]), x), Nest(path, Obj([Entry(k, y)]))) <==> Equiv(y, x)
  {
    NestedIsFound(path, Obj([Entry(k, y)]));
    FieldCondition(Nest(path, Obj([Entry(k, y)])), path, k, x);
    assert Get([Entry(k, y)], k) == Some(y);
  }

  /** The documented form of a condition, `/result/ok`. */
  lemma ResultOk(b: bool)
    ensures Evaluate(JsonEq("/result/ok", Bool(true)), Obj([Entry("result", Obj([Entry("ok", Bool(b))]))])) <==> b
  {
    var inner := Obj([Entry("ok", Bool(b))]);
    RenderResultOk();
    NestOne("result", inner);
    NestedCondition(["result"], "ok", Bool(true), Bool(b));
  }

  // ----- array indices

  function Digits(n: nat): string {
    var last := [('0' as int + n % 10) as char];
    if n < 10 then last else Digits(n / 10) + last
  }

  lemma {:induction false} DigitsReadBack(n: nat)
    ensures Digits(n) != "" && (forall i | 0 <= i < |Digits(n)| :: IsDigit(Digits(n)[i])) && Decimal(Digits(n)) == n
    ensures Digits(n)[0] == '0' <==> n == 0
    ensures n == 0 ==> |Digits(n)| == 1
  {
    if n < 10 {
      assert Digits(n)[..0] == "";
      assert Decimal("") == 0;
    } else {
      DigitsReadBack(n / 10);
      var s := Digits(n);
      assert s[..|s| - 1] == Digits(n / 10);
    }
  }

  /** A pointer to element `n` of an array finds that element, if there is one. */
  lemma ElementPointer(items: seq<Value>, n: nat)
    ensures Lookup(Arr(items), Render([Digits(n)])) == if n < |items| then Some(items[n]) else None
  {
    DigitsReadBack(n);
    assert ParseIndex(Digits(n)) == Some(n);
    LookupOne(Arr(items), Digits(n));
  }

  /** The only index tokens are decimal forms: no sign, no leading zero, no empty token. */
  lemma {:induction false} IndexIsDecimal(t: string)
    requires t != "" && (t[0] == '0' ==> |t| == 1) && forall i | 0 <= i < |t| :: IsDigit(t[i])
    ensures Digits(Decimal(t)) == t
  {
    var k := |t| - 1;
    if k == 0 {
      assert Decimal(t[..0]) == 0;
      assert t == [t[0]];
    } else {
      var init := t[..k];
      IndexIsDecimal(init);
      DigitsReadBack(Decimal(init));
      assert init[0] == t[0];
      assert IsDigit(t[k]);
      assert t == init + [t[k]];
    }
  }

  /** A token finds an element of an array exactly if it is the decimal form of that element's index. */
  lemma ElementIff(items: seq<Value>, t: string)
    ensures Lookup(Arr(items), Render([t])).Some? <==> exists n :: 0 <= n < |items| && t == Digits(n)
    ensures forall n | 0 <= n < |items| && t == Digits(n) :: Lookup(Arr(items), Render([t])) == Some(items[n])
  {
    forall n | 0 <= n < |items| && t == Digits(n) ensures Lookup(Arr(items), Render([t])) == Some(items[n]) {
      ElementPointer(items, n);
    }
    LookupOne(Arr(items), t);
    if ParseIndex(t).Some? && ParseIndex(t).value < |items| {
      IndexIsDecimal(t);
      assert t == Digits(ParseIndex(t).value);
    }
  }

  /** The decimal form is the usual one. */
  lemma TenthElement(items: seq<Value>)
    ensures Lookup(Arr(items), "/10") == if 10 < |items| then Some(items[10]) else None
  {
    assert Digits(1) == "1";
    assert Digits(10) == "10";
    RenderPlain("10");
    assert "/" + "10" == "/10";
    ElementPointer(items, 10);
  }
}
