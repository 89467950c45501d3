/**
 * `generateSignature(params, secret)`: the request signature the upload
 * provider expects. Every own property of `params` whose value is truthy
 * becomes a token `key=String(value)`; the tokens are sorted in JavaScript's
 * default string order, joined with `&`, and the secret is appended with no
 * delimiter. The result is the lower-case hex of the SHA-1 of that string.
 *
 * SHA-1 of the UTF-8 bytes of a string is not modelled: it is the parameter
 * `digest`, any function from strings to twenty bytes.
 */
module Signature {
  import opened Wrappers
  import opened Js
  import opened Hex

  /** A JavaScript value a parameter object may hold. */
  datatype Value = Str(s: string) | Num(n: int) | Bool(b: bool) | Null | Undefined

  /** One property as `for...in` visits it: own or inherited from a prototype. */
  datatype Prop = Prop(key: string, value: Value, own: bool)

  /** A SHA-1 digest: 160 bits. */
  type Sha1Digest = s: seq<Byte> | |s| == 20 witness seq(20, i => 0)

  /** JavaScript truthiness: `""`, `0`, `false`, `null` and `undefined` are falsy. */
  predicate Truthy(v: Value)
  {
    match v
    case Str(s) => s != ""
    case Num(n) => n != 0
    case Bool(b) => b
    case Null => false
    case Undefined => false
  }

  /** `String(value)`. */
  function Render(v: Value): string
  {
    match v
    case Str(s) => s
    case Num(n) => NumberToString(n)
    case Bool(b) => if b then "true" else "false"
    case Null => "null"
    case Undefined => "undefined"
  }

  /** Whether the loop keeps a property: it is own and its value is truthy. */
  predicate Kept(p: Prop) { p.own && Truthy(p.value) }

  /** The token for one property. */
  function Token(p: Prop): string { p.key + "=" + Render(p.value) }

  /** The tokens of the kept properties, in visiting order. */
  function Tokens(props: seq<Prop>): seq<string>
  {
    if props == [] then []
    else
      var last := props[|props| - 1];
      Tokens(props[..|props| - 1]) + (if Kept(last) then [Token(last)] else [])
  }

  /** The string that is hashed. */
  function CanonicalString(props: seq<Prop>, secret: string): string
  {
    Join(Sort(Tokens(props)), "&") + secret
  }

  /** The signature: lower-case hex of the digest of the canonical string. */
  function Sign(props: seq<Prop>, secret: string, digest: string -> Sha1Digest): (sig: string)
    ensures |sig| == 40 && IsLowerHex(sig)
    ensures DecodeHexLowerCase(sig) == Some(digest(CanonicalString(props, secret)))
  {
    var sig := EncodeHexLowerCase(digest(CanonicalString(props, secret)));
    DecodeEncode(digest(CanonicalString(props, secret)));
    sig
  }

  /**
   * The loop of `generateSignature`: visit the properties, push one token
   * per kept property, sort in place, join, append the secret, hash, encode.
   */
  method GenerateSignature(params: seq<Prop>, secret: string, digest: string -> Sha1Digest)
    returns (signature: string)
    ensures signature == Sign(params, secret, digest)
  {
    var tempParams: seq<string> := [];
    var i := 0;
    while i < |params|
      invariant 0 <= i <= |params|
      invariant tempParams == Tokens(params[..i])
    {
      var key := params[i].key;
      if params[i].own {
        var element := params[i].value;
        if Truthy(element) {
          var param := key + "=" + Render(element);
          tempParams := tempParams + [param];
        }
      }
      assert params[..i + 1][..i] == params[..i];
      i := i + 1;
    }
    assert params[..i] == params;
    tempParams := Sort(tempParams);
    var stringToEncode := Join(tempParams, "&") + secret;
    signature := EncodeHexLowerCase(digest(stringToEncode));
  }

  // ---------------------------------------------------------------------
  // Which properties contribute
  // ---------------------------------------------------------------------

  lemma {:induction false} TokensAppend(a: seq<Prop>, b: seq<Prop>)
    ensures Tokens(a + b) == Tokens(a) + Tokens(b)
  {
    if b != [] {
      var ab := a + b;
      assert ab[..|ab| - 1] == a + b[..|b| - 1];
      assert ab[|ab| - 1] == b[|b| - 1];
      TokensAppend(a, b[..|b| - 1]);
    } else {
      assert a + b == a;
    }
  }

  /** A token appears exactly when some own property with a truthy value renders to it. */
  lemma {:induction false} TokensMembership(props: seq<Prop>, t: string)
    ensures t in Tokens(props) <==> exists i :: 0 <= i < |props| && Kept(props[i]) && t == Token(props[i])
  {
    if t in Tokens(props) {
      var i := TokenSource(props, t);
    }
    if exists i :: 0 <= i < |props| && Kept(props[i]) && t == Token(props[i]) {
      var i :| 0 <= i < |props| && Kept(props[i]) && t == Token(props[i]);
      TokenPresent(props, i);
    }
  }

  /** Every token comes from a kept property. */
  lemma {:induction false} TokenSource(props: seq<Prop>, t: string) returns (i: nat)
    requires t in Tokens(props)
    ensures i < |props| && Kept(props[i]) && t == Token(props[i])
  {
    var n := |props| - 1;
    var init, last := props[..n], props[n];
    assert Tokens(props) == Tokens(init) + (if Kept(last) then [Token(last)] else []);
    if t in Tokens(init) {
      i := TokenSource(init, t);
      assert props[i] == init[i];
    } else {
      i := n;
    }
  }

  /** Every kept property contributes its token. */
  lemma {:induction false} TokenPresent(props: seq<Prop>, i: nat)
    requires i < |props| && Kept(props[i])
    ensures Token(props[i]) in Tokens(props)
  {
    var n := |props| - 1;
    var init, last := props[..n], props[n];
    assert Tokens(props) == Tokens(init) + (if Kept(last) then [Token(last)] else []);
    if i < n {
      TokenPresent(init, i);
      assert init[i] == props[i];
    }
  }

  /** One token per kept property, and none for the others. */
  lemma {:induction false} TokensCount(props: seq<Prop>)
    ensures |Tokens(props)| == |set i | 0 <= i < |props| && Kept(props[i])|
  {
    if props != [] {
      var n := |props| - 1;
      var init := props[..n];
      TokensCount(init);
      var before := set i | 0 <= i < n && Kept(init[i]);
      var after := set i | 0 <= i < |props| && Kept(props[i]);
      if Kept(props[n]) {
        assert after == before + {n};
      } else {
        assert after == before;
      }
    }
  }

  /** Inserting a property that is inherited or falsy changes nothing. */
  lemma IgnoredPropertyIsInvisible(props: seq<Prop>, k: nat, p: Prop, secret: string)
    requires k <= |props| && !Kept(p)
    ensures CanonicalString(props[..k] + [p] + props[k..], secret) == CanonicalString(props, secret)
  {
    var before, after := props[..k], props[k..];
    TokensAppend(before + [p], after);
    TokensAppend(before, [p]);
    TokensAppend(before, after);
    SingleTokenList(p);
    assert Tokens(before + [p]) == Tokens(before);
    assert before + after == props;
    assert Tokens(before + [p] + after) == Tokens(props);
  }

  // ---------------------------------------------------------------------
  // Order independence
  // ---------------------------------------------------------------------

  /** The canonical string depends only on the multiset of tokens. */
  lemma CanonicalDependsOnTokens(p: seq<Prop>, q: seq<Prop>, secret: string)
    requires multiset(Tokens(p)) == multiset(Tokens(q))
    ensures CanonicalString(p, secret) == CanonicalString(q, secret)
  {
    var sp, sq := Sort(Tokens(p)), Sort(Tokens(q));
    assert multiset(sp) == multiset(Tokens(p)) && multiset(sq) == multiset(Tokens(q));
    SortedUnique(sp, sq);
  }

  /** Any sorted arrangement of the tokens, joined, gives the canonical string. */
  lemma CanonicalFromSortedTokens(props: seq<Prop>, order: seq<string>, secret: string)
    requires Sorted(order) && multiset(order) == multiset(Tokens(props))
    ensures CanonicalString(props, secret) == Join(order, "&") + secret
  {
    var sorted := Sort(Tokens(props));
    assert multiset(sorted) == multiset(Tokens(props));
    SortedUnique(sorted, order);
  }

  /** Taking the same property out of both sides keeps two multisets equal. */
  lemma RemoveOne(init: seq<Prop>, x: Prop, a: seq<Prop>, b: seq<Prop>)
    requires multiset(init + [x]) == multiset(a + [x] + b)
    ensures multiset(init) == multiset(a + b)
  {
    assert multiset(init + [x]) == multiset(init) + multiset{x};
    assert multiset(a + [x] + b) == multiset(a) + multiset{x} + multiset(b);
    assert multiset(a + b) == multiset(a) + multiset(b);
    assert multiset(init) == multiset(init + [x]) - multiset{x};
    assert multiset(a + b) == multiset(a + [x] + b) - multiset{x};
  }

  /** A property's tokens count the same wherever it is visited. */
  lemma TokensSplice(a: seq<Prop>, x: Prop, b: seq<Prop>)
    ensures multiset(Tokens(a + [x] + b)) == multiset(Tokens(a + b)) + multiset(Tokens([x]))
  {
    TokensAppend(a + [x], b);
    TokensAppend(a, [x]);
    TokensAppend(a, b);
  }

  /** Visiting the same properties in another order gives the same tokens, up to order. */
  lemma {:induction false} TokensPermutation(p: seq<Prop>, q: seq<Prop>)
    requires multiset(p) == multiset(q)
    ensures multiset(Tokens(p)) == multiset(Tokens(q))
  {
    if p != [] {
      var n := |p| - 1;
      var init, x := p[..n], p[n];
      assert p == init + [x];
      assert x in multiset(q);
      var j :| 0 <= j < |q| && q[j] == x;
      var a, b := q[..j], q[j + 1..];
      assert q == a + [x] + b;
      RemoveOne(init, x, a, b);
      TokensPermutation(init, a + b);
      TokensAppend(init, [x]);
      TokensSplice(a, x, b);
    }
  }

  /** Insertion order is irrelevant: a reordering of the properties signs the same. */
  lemma SignatureOrderIndependent(p: seq<Prop>, q: seq<Prop>, secret: string, digest: string -> Sha1Digest)
    requires multiset(p) == multiset(q)
    ensures CanonicalString(p, secret) == CanonicalString(q, secret)
    ensures Sign(p, secret, digest) == Sign(q, secret, digest)
  {
    TokensPermutation(p, q);
    CanonicalDependsOnTokens(p, q, secret);
  }

  // ---------------------------------------------------------------------
  // Shape of the canonical string
  // ---------------------------------------------------------------------

  /** With nothing kept the canonical string is the secret alone. */
  lemma {:induction false} NothingKeptSignsSecretAlone(props: seq<Prop>, secret: string)
    requires forall i :: 0 <= i < |props| ==> !Kept(props[i])
    ensures CanonicalString(props, secret) == secret
  {
    NoKeptNoTokens(props);
    assert Sort([]) == [] by { assert |multiset(Sort([]))| == 0; }
  }

  lemma {:induction false} NoKeptNoTokens(props: seq<Prop>)
    requires forall i :: 0 <= i < |props| ==> !Kept(props[i])
    ensures Tokens(props) == []
  {
    if props != [] {
      NoKeptNoTokens(props[..|props| - 1]);
    }
  }

  /**
   * When no token contains `&`, the part before the secret splits back into
   * exactly the sorted tokens: `&` sits only between tokens, never at an end.
   */
  lemma CanonicalSplitsIntoTokens(props: seq<Prop>, secret: string)
    requires Tokens(props) != []
    requires forall i :: 0 <= i < |props| ==> Kept(props[i]) ==> '&' !in Token(props[i])
    ensures var c := CanonicalString(props, secret);
      |c| >= |secret| && c[|c| - |secret|..] == secret &&
      Split(c[..|c| - |secret|], '&') == Sort(Tokens(props))
  {
    var sorted := Sort(Tokens(props));
    forall k | 0 <= k < |sorted| ensures '&' !in sorted[k] {
      assert sorted[k] in multiset(Tokens(props));
      TokensMembership(props, sorted[k]);
    }
    assert |sorted| >= 1 by { assert |multiset(sorted)| == |multiset(Tokens(props))|; }
    var c := CanonicalString(props, secret);
    assert c[..|c| - |secret|] == Join(sorted, "&");
    SplitJoin(sorted, '&');
  }

  /**
   * The sort is over whole tokens, not keys: `=` (U+003D) decides against the
   * next character of a longer key. A key that extends another with a
   * character above `=` sorts after it; one extending it with a character
   * below `=` sorts before it.
   */
  lemma PrefixKeyOrder(k: string, rest: string, v: Value, w: Value)
    requires rest != []
    ensures UnitBefore('=', rest[0]) ==> Less(Token(Prop(k, v, true)), Token(Prop(k + rest, w, true)))
    ensures UnitBefore(rest[0], '=') ==> Less(Token(Prop(k + rest, w, true)), Token(Prop(k, v, true)))
  {
    var a := "=" + Render(v);
    var b := rest + "=" + Render(w);
    assert Token(Prop(k, v, true)) == k + a;
    assert Token(Prop(k + rest, w, true)) == k + b;
    assert a[0] == '=' && b[0] == rest[0];
    if rest[0] != '=' {
      LessAtFirst(a, b);
      LessAtFirst(b, a);
    }
    LessAfterCommonPrefix(k, a, b);
    LessAfterCommonPrefix(k, b, a);
  }

  /** Key order and token order can disagree: `a` before `a+` as keys, after as tokens. */
  lemma TokenOrderIsNotKeyOrder()
    ensures Less("a", "a+")
    ensures Less(Token(Prop("a+", Num(1), true)), Token(Prop("a", Num(1), true)))
  {
    PrefixKeyOrder("a", "+", Num(1), Num(1));
  }

  /**
   * Different parameter sets can share a canonical string, and so a
   * signature: `=` inside a key or a value is not escaped, so
   * `{a: "b=c"}` and `{"a=b": "c"}` give the same token.
   */
  lemma EqualsSignIsNotEscaped(secret: string)
    ensures CanonicalString([Prop("a", Str("b=c"), true)], secret)
         == CanonicalString([Prop("a=b", Str("c"), true)], secret)
  {
    SingleToken(Prop("a", Str("b=c"), true), secret);
    SingleToken(Prop("a=b", Str("c"), true), secret);
  }

  /** Likewise `&` inside a value: `{a: "1&b=2"}` signs like `{a: 1, b: 2}`. */
  lemma AmpersandIsNotEscaped(one: seq<Prop>, two: seq<Prop>, secret: string)
    requires one == [Prop("a", Str("1&b=2"), true)]
    requires two == [Prop("a", Num(1), true), Prop("b", Num(2), true)]
    ensures CanonicalString(one, secret) == CanonicalString(two, secret)
  {
    SingleToken(one[0], secret);
    assert one == [one[0]];
    assert Token(two[0]) == "a=1" && Token(two[1]) == "b=2" by {
      assert DigitChar(1) == '1' && DigitChar(2) == '2';
    }
    LessAtFirst(Token(two[0]), Token(two[1]));
    TwoTokens(two, secret);
    AmpersandText(Token(one[0]), Token(two[0]), Token(two[1]));
  }

  lemma AmpersandText(t: string, x: string, y: string)
    requires t == "a" + "=" + "1&b=2" && x == "a=1" && y == "b=2"
    ensures t == x + "&" + y
  {
  }

  /** Three distinct tokens in ascending order are joined in that order. */
  lemma ThreeTokens(props: seq<Prop>, x: string, y: string, z: string, secret: string)
    requires multiset(Tokens(props)) == multiset([x, y, z])
    requires Less(x, y) && Less(y, z)
    ensures CanonicalString(props, secret) == x + "&" + y + "&" + z + secret
  {
    SortedThree(x, y, z);
    CanonicalFromSortedTokens(props, [x, y, z], secret);
    JoinThree(x, y, z, "&");
  }

  /** Two kept properties whose tokens are already in order. */
  lemma TwoTokens(props: seq<Prop>, secret: string)
    requires |props| == 2 && Kept(props[0]) && Kept(props[1])
    requires Less(Token(props[0]), Token(props[1]))
    ensures CanonicalString(props, secret) == Token(props[0]) + "&" + Token(props[1]) + secret
  {
    var x, y := Token(props[0]), Token(props[1]);
    assert props == [props[0]] + [props[1]];
    TokensAppend([props[0]], [props[1]]);
    SingleTokenList(props[0]);
    SingleTokenList(props[1]);
    SortedTwo(x, y);
    CanonicalFromSortedTokens(props, [x, y], secret);
    JoinTwo(x, y, "&");
  }

  lemma ThreeProps(a: Prop, b: Prop, c: Prop)
    ensures Tokens([a, b, c])
      == (if Kept(a) then [Token(a)] else []) + (if Kept(b) then [Token(b)] else []) + (if Kept(c) then [Token(c)] else [])
  {
    assert [a, b, c] == [a] + [b] + [c];
    TokensAppend([a] + [b], [c]);
    TokensAppend([a], [b]);
    SingleTokenList(a);
    SingleTokenList(b);
    SingleTokenList(c);
  }

  lemma SingleTokenList(p: Prop)
    ensures Tokens([p]) == if Kept(p) then [Token(p)] else []
  {
    assert [p][..0] == [];
  }

  lemma SingleToken(p: Prop, secret: string)
    requires Kept(p)
    ensures CanonicalString([p], secret) == Token(p) + secret
  {
    SingleTokenList(p);
    assert Sorted([Token(p)]);
    SortedUnique(Sort([Token(p)]), [Token(p)]);
  }

  /** The falsy-filtering example: `{a: 1, b: "", c: 0, d: null}` signs like `{a: 1}`. */
  lemma FalsyValuesDropped(props: seq<Prop>, secret: string, digest: string -> Sha1Digest)
    requires props == [Prop("a", Num(1), true), Prop("b", Str(""), true), Prop("c", Num(0), true), Prop("d", Null, true)]
    ensures Sign(props, secret, digest) == Sign(props[..1], secret, digest)
  {
    var falsy := props[1..];
    assert forall i :: 0 <= i < |falsy| ==> !Kept(falsy[i]) by {
      assert falsy == [Prop("b", Str(""), true), Prop("c", Num(0), true), Prop("d", Null, true)];
    }
    NoKeptNoTokens(falsy);
    TokensAppend(props[..1], falsy);
    assert props[..1] + falsy == props;
    CanonicalDependsOnTokens(props, props[..1], secret);
  }
}
