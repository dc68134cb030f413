/** The request's query parameters as Flask exposes them (`request.args`, a
    werkzeug MultiDict built from the decoded `key=value` pairs of the URL),
    and the message whose HMAC `verify_web_call` checks.

    A MultiDict keeps every value, but `get(key)` answers with the first
    value given for `key`, and `items()` lists each key once, in the order
    of its first appearance, with that first value. */
module QueryArgs {
  import opened Basics

  /** One decoded `key=value` pair of the query string, in request order. */
  type Param = (string, string)

  const HMAC_KEY := "hmac"

  /** Index of the first parameter named `key`; `|params|` when there is none. */
  function FirstIndex(params: seq<Param>, key: string): (i: nat)
    ensures i <= |params|
    ensures i < |params| ==> params[i].0 == key
    ensures forall j :: 0 <= j < i ==> params[j].0 != key
  {
    if params == [] then 0
    else if params[0].0 == key then 0
    else 1 + FirstIndex(params[1..], key)
  }

  /** `request.args.get(key)`: the first value given for `key`, if any. */
  function Get(query: seq<Param>, key: string): (v: Option<string>)
    ensures v.None? <==> forall j :: 0 <= j < |query| ==> query[j].0 != key
    ensures v.Some? ==>
      exists i :: 0 <= i < |query| && query[i] == (key, v.value) && (forall j :: 0 <= j < i ==> query[j].0 != key)
  {
    var i := FirstIndex(query, key);
    if i < |query| then Some(query[i].1) else None
  }

  /** `request.args.items()`: each key once, at its first appearance, with its first value. */
  function Items(query: seq<Param>): seq<Param>
    decreases |query|
  {
    if query == [] then []
    else
      var init := query[..|query| - 1];
      var last := query[|query| - 1];
      if FirstIndex(init, last.0) < |init| then Items(init) else Items(init) + [last]
  }

  /** The comprehension's filter `if key != 'hmac'`, keeping order. */
  function Unsigned(items: seq<Param>): seq<Param>
    decreases |items|
  {
    if items == [] then []
    else
      var init := items[..|items| - 1];
      var last := items[|items| - 1];
      Unsigned(init) + (if last.0 == HMAC_KEY then [] else [last])
  }

  /** Each pair written as `f"{key}={value}"`. */
  function Render(params: seq<Param>): seq<string> {
    seq(|params|, i requires 0 <= i < |params| => params[i].0 + "=" + params[i].1)
  }

  /** A rendered pair whose key holds no `=` reads back: its first `=` ends
      the key, and the pieces after it join back into the value. */
  lemma RenderReadsBack(params: seq<Param>, i: nat)
    requires i < |params| && '=' !in params[i].0
    ensures i < |Render(params)|
    ensures var pieces := Split('=', Render(params)[i]);
      |pieces| >= 2 && pieces[0] == params[i].0 && Join("=", pieces[1..]) == params[i].1
  {
    var (key, value) := params[i];
    assert Render(params)[i] == key + ['='] + value;
    SplitAtSep('=', key, value);
    assert Split('=', Render(params)[i])[1..] == Split('=', value);
  }

  /** The text `verify_web_call` signs (before UTF-8 encoding). The
      `sorted(get_args)` call before it discards its result, so the pairs
      keep the request's order. */
  function Message(query: seq<Param>): string {
    Join("&", Render(Unsigned(Items(query))))
  }

  // ---------------------------------------------------------------------------
  // Properties

  /** Appending a parameter moves no key's first appearance. */
  lemma FirstIndexSnoc(query: seq<Param>, p: Param, key: string)
    ensures FirstIndex(query + [p], key) ==
      if FirstIndex(query, key) < |query| then FirstIndex(query, key)
      else if p.0 == key then |query| else |query| + 1
  {
    var q' := query + [p];
    var i := FirstIndex(query, key);
    var i' := FirstIndex(q', key);
    if i < |query| {
      assert q'[i].0 == key;
    } else if p.0 == key {
      assert q'[|query|].0 == key;
    }
  }

  lemma ItemsSnoc(query: seq<Param>, p: Param)
    ensures Items(query + [p]) == if FirstIndex(query, p.0) < |query| then Items(query) else Items(query) + [p]
  {
    assert (query + [p])[..|query|] == query;
  }

  lemma UnsignedSnoc(items: seq<Param>, p: Param)
    ensures Unsigned(items + [p]) == Unsigned(items) + (if p.0 == HMAC_KEY then [] else [p])
  {
    assert (items + [p])[..|items|] == items;
  }

  lemma GetSnoc(query: seq<Param>, p: Param, key: string)
    ensures Get(query + [p], key) ==
      if Get(query, key).Some? then Get(query, key)
      else if p.0 == key then Some(p.1) else None
  {
    FirstIndexSnoc(query, p, key);
  }

  /** The signed pairs are exactly the non-`hmac` keys of the request, each
      with the first value the request gives it. */
  lemma {:induction false} SignedPairs(query: seq<Param>)
    ensures forall p :: p in Unsigned(Items(query)) <==> p.0 != HMAC_KEY && Get(query, p.0) == Some(p.1)
    decreases |query|
  {
    if query != [] {
      var init := query[..|query| - 1];
      var last := query[|query| - 1];
      assert query == init + [last];
      SignedPairs(init);
      var before := Unsigned(Items(init));
      ItemsSnoc(init, last);
      UnsignedSnoc(Items(init), last);
      forall p: Param
        ensures p in Unsigned(Items(query)) <==> p.0 != HMAC_KEY && Get(query, p.0) == Some(p.1)
      {
        GetSnoc(init, last, p.0);
        FirstIndexSnoc(init, last, p.0);
      }
    }
  }

  /** The signed pairs are ordered by where each key first appears in the request. */
  lemma {:induction false} SignedOrder(query: seq<Param>)
    ensures var signed := Unsigned(Items(query));
      forall i, j :: 0 <= i < j < |signed| ==> FirstIndex(query, signed[i].0) < FirstIndex(query, signed[j].0)
    decreases |query|
  {
    if query != [] {
      var init := query[..|query| - 1];
      var last := query[|query| - 1];
      assert query == init + [last];
      SignedOrder(init);
      var before := Unsigned(Items(init));
      var signed := Unsigned(Items(query));
      ItemsSnoc(init, last);
      UnsignedSnoc(Items(init), last);
      assert |before| <= |signed| && signed[..|before|] == before;
      forall i | 0 <= i < |before|
        ensures FirstIndex(query, before[i].0) == FirstIndex(init, before[i].0) < |init|
      {
        SignedPairs(init);
        assert before[i] in before;
        FirstIndexSnoc(init, last, before[i].0);
      }
      if |signed| > |before| {
        assert signed[|before|] == last;
        assert FirstIndex(init, last.0) == |init|;
        FirstIndexSnoc(init, last, last.0);
      }
    }
  }

  /** No pair named `hmac` is ever part of the signed pairs. */
  lemma HmacNeverSigned(query: seq<Param>)
    ensures forall p :: p in Unsigned(Items(query)) ==> p.0 != HMAC_KEY
  {
    SignedPairs(query);
  }

  /** Splitting the message at `&` gives back the signed pairs, rendered, when
      no key or value holds `&`. */
  lemma MessageSplits(query: seq<Param>)
    requires forall p :: p in query ==> '&' !in p.0 && '&' !in p.1
    requires Unsigned(Items(query)) != []
    ensures Split('&', Message(query)) == Render(Unsigned(Items(query)))
  {
    SignedPairs(query);
    var texts := Render(Unsigned(Items(query)));
    forall t | t in texts
      ensures '&' !in t
    {
      var i :| 0 <= i < |texts| && texts[i] == t;
      var p := Unsigned(Items(query))[i];
      assert Get(query, p.0) == Some(p.1);
    }
    SplitJoin('&', texts);
  }

  /** The message follows request order, not sorted order: `sorted(get_args)`
      has no effect. */
  lemma MessageKeepsRequestOrder()
    ensures Message([("shop", "a.myshopify.com"), ("hmac", "f0"), ("code", "x")]) == "shop=a.myshopify.com&code=x"
  {
    var a, h, c := ("shop", "a.myshopify.com"), ("hmac", "f0"), ("code", "x");
    var signed := Unsigned(Items([a, h, c]));
    assert signed == [a, c] by {
      DistinctKeysAllItems(a, h, c);
      UnsignedDropsMiddle(a, h, c);
    }
    var texts := Render(signed);
    assert texts == ["shop=a.myshopify.com", "code=x"] by {
      assert texts[0] == "shop" + "=" + "a.myshopify.com" == "shop=a.myshopify.com";
      assert texts[1] == "code" + "=" + "x" == "code=x";
    }
    assert Join("&", texts) == "shop=a.myshopify.com&code=x" by {
      assert texts[1..] == ["code=x"];
    }
  }

  lemma DistinctKeysAllItems(a: Param, h: Param, c: Param)
    requires a.0 != h.0 && a.0 != c.0 && h.0 != c.0
    ensures Items([a, h, c]) == [a, h, c]
  {
    assert Items([a]) == [a];
    assert FirstIndex([a], h.0) == 1;
    ItemsSnoc([a], h);
    assert [a] + [h] == [a, h];
    assert FirstIndex([a, h], c.0) == 2;
    ItemsSnoc([a, h], c);
    assert [a, h] + [c] == [a, h, c];
  }

  lemma UnsignedDropsMiddle(a: Param, h: Param, c: Param)
    requires a.0 != HMAC_KEY && h.0 == HMAC_KEY && c.0 != HMAC_KEY
    ensures Unsigned([a, h, c]) == [a, c]
  {
    assert [a, h, c][..2] == [a, h] && [a, h][..1] == [a] && [a][..0] == [];
    assert Unsigned([a]) == [a];
    assert Unsigned([a, h]) == [a];
  }

  /** A repeated key is signed once, with its first value. */
  lemma RepeatedKeySignedOnce()
    ensures Message([("shop", "a"), ("shop", "b")]) == "shop=a"
  {
    var a, b := ("shop", "a"), ("shop", "b");
    assert Items([a]) == [a];
    assert FirstIndex([a], b.0) == 0;
    ItemsSnoc([a], b);
    assert [a] + [b] == [a, b];
    assert Items([a, b]) == [a];
    assert Unsigned([a]) == [a];
    assert Render([a]) == ["shop=a"] by {
      assert Render([a])[0] == "shop" + "=" + "a" == "shop=a";
    }
  }
}
