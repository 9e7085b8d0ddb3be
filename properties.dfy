/** `initObjectProperties`: the custom properties of a host object are
    sorted into a phobos dictionary. With a phobostype `T`, a key holding
    `T/` and one `/` lands at top level without `T/`; a key `x/a/b` with
    two `/` that holds `T/` lands in the category dictionary `$a` (named
    after its second segment) under `b`; a foreign key `a/b` lands in `$a`
    unless `a` is ignored; every other key is dropped. Without a
    phobostype every custom property is copied as it is. */
module Properties {

  import opened PyValues
  import opened PyStr
  import opened Scene

  /** The `ignoretypes` argument: a list of names (membership test) or a
      single string, for which `in` is a substring test. */
  datatype IgnoreTypes = Names(names: seq<string>) | Text(text: string)

  /** `category in ignoretypes`. */
  predicate Ignored(ig: IgnoreTypes, category: string)
  {
    match ig
    case Names(ns) => category in ns
    case Text(t) => Contains(t, category)
  }

  /** Where one custom property goes. */
  datatype Route =
    | Drop
    | Top(key: string)
    | Nested(category: string, specifier: string)

  /** `if not phobostype` is false: a phobostype is given and is not empty. */
  predicate Truthy(phobostype: Option<string>)
  {
    phobostype.Some? && phobostype.value != ""
  }

  /** The classification of one key under phobostype `t`. */
  function RouteKey(t: string, ig: IgnoreTypes, key: string): Route
    requires t != ""
  {
    if '/' !in key then Drop
    else if Contains(key, t + "/") then
      var specs := Split(key, '/')[1..];
      if |specs| == 1 then Top(RemoveAll(key, t + "/"))
      else if |specs| == 2 then Nested(specs[0], specs[1])
      else Drop
    else if Count(key, '/') == 1 then
      var parts := Split(key, '/');
      if Ignored(ig, parts[0]) then Drop else Nested(parts[0], parts[1])
    else Drop
  }

  /** The route of a key in either mode: without a phobostype every key
      is copied under its own name. */
  function Routed(phobostype: Option<string>, ig: IgnoreTypes, key: string): Route
  {
    if Truthy(phobostype) then RouteKey(phobostype.value, ig, key) else Top(key)
  }

  /** The value that is stored: id-arrays become lists, with a phobostype only. */
  function Delivered(phobostype: Option<string>, v: Value): Value
  {
    if Truthy(phobostype) then ToList(v) else v
  }

  /** The dictionary write for one routed property. Writing into a
      category entry that holds something other than a dictionary raises. */
  function Store(props: Props, route: Route, v: Value): Result<Props>
  {
    match route
    case Drop => Ok(props)
    case Top(k) => Ok(props[k := v])
    case Nested(c, s) =>
      var ck := "$" + c;
      var cur := if ck in props then props[ck] else Dict(map[]);
      if cur.Dict? then Ok(props[ck := Dict(cur.entries[s := v])]) else Err(TypeError)
  }

  /** The custom properties written one after the other, in order. */
  function StoreAll(props: Props, phobostype: Option<string>, ig: IgnoreTypes,
                    items: seq<(string, Value)>): Result<Props>
    decreases |items|
  {
    if items == [] then Ok(props)
    else
      match Store(props, Routed(phobostype, ig, items[0].0), Delivered(phobostype, items[0].1))
      case Err(e) => Err(e)
      case Ok(next) => StoreAll(next, phobostype, ig, items[1..])
  }

  /** The dictionary `initObjectProperties` returns for an object whose
      exported name is `name`. */
  function InitSpec(name: string, items: seq<(string, Value)>,
                    phobostype: Option<string>, ig: IgnoreTypes): Result<Props>
  {
    StoreAll(map["name" := Str(name)], phobostype, ig, items)
  }

  /** `initObjectProperties(obj, phobostype, ignoretypes)`. */
  method InitObjectProperties(obj: Obj, nameOf: NameFn, phobostype: Option<string>,
                              ignoretypes: IgnoreTypes)
    returns (r: Result<Props>)
    ensures r == InitSpec(nameOf(obj, Some("material")), obj.custom, phobostype, ignoretypes)
  {
    var props: Props := map["name" := Str(nameOf(obj, Some("material")))];
    var items := obj.custom;
    var i := 0;
    while i < |items|
      invariant 0 <= i <= |items|
      invariant StoreAll(props, phobostype, ignoretypes, items[i..])
                == InitSpec(nameOf(obj, Some("material")), items, phobostype, ignoretypes)
    {
      assert items[i..][1..] == items[i + 1..];
      ghost var before := props;
      var (key, value) := items[i];
      if !Truthy(phobostype) {
        props := props[key := value];
      } else {
        value := ToList(value);
        match RouteKey(phobostype.value, ignoretypes, key)
        case Drop =>
        case Top(k) =>
          props := props[k := value];
        case Nested(category, specifier) =>
          var ck := "$" + category;
          if ck !in props {
            props := props[ck := Dict(map[])];
          }
          if !props[ck].Dict? {
            assert Store(before, Nested(category, specifier), value) == Err(TypeError);
            return Err(TypeError);
          }
          ghost var cur := props[ck];
          assert cur == if ck in before then before[ck] else Dict(map[]);
          props := props[ck := Dict(props[ck].entries[specifier := value])];
          assert props == before[ck := Dict(cur.entries[specifier := value])];
      }
      assert Store(before, Routed(phobostype, ignoretypes, key), Delivered(phobostype, items[i].1))
             == Ok(props);
      i := i + 1;
    }
    return Ok(props);
  }

  // ---------------------------------------------------------------------
  // The classification of keys

  /** With a phobostype, a key without `/` is dropped. */
  lemma RouteNoSlash(t: string, ig: IgnoreTypes, key: string)
    requires t != "" && '/' !in key
    ensures RouteKey(t, ig, key) == Drop
  {
  }

  /** A key `a/b` with exactly one `/`. When `a` ends with the phobostype
      `t` (a substring test on the key, not a prefix test) it lands at top
      level under the key with `t/` cut out. Otherwise it is a foreign key
      and lands in category `$a` unless `a` is ignored. */
  lemma RouteOneSlash(t: string, ig: IgnoreTypes, a: string, b: string)
    requires t != "" && '/' !in t && '/' !in a && '/' !in b
    ensures RouteKey(t, ig, a + "/" + b) ==
              if |t| <= |a| && a[|a| - |t|..] == t then Top(a[..|a| - |t|] + b)
              else if Ignored(ig, a) then Drop
              else Nested(a, b)
  {
    var key := a + "/" + b;
    OneSeparator(t, a, b, '/');
    SplitAfterPiece(a, '/', b);
    SplitNone(b, '/');
    CountAppend(a, "/" + b, '/');
    CountAppend("/", b, '/');
    assert a + "/" + b == a + ("/" + b);
    assert key[|a|] == '/';
  }

  /** A key `a/b/c` with exactly two `/` that holds `t/` lands in category
      `$b` under `c`; without `t/` it is dropped. */
  lemma RouteTwoSlashes(t: string, ig: IgnoreTypes, a: string, b: string, c: string)
    requires t != "" && '/' !in a && '/' !in b && '/' !in c
    ensures RouteKey(t, ig, a + "/" + b + "/" + c) ==
              if Contains(a + "/" + b + "/" + c, t + "/") then Nested(b, c) else Drop
  {
    SplitTwoSlashes(a, b, c);
  }

  lemma SplitTwoSlashes(a: string, b: string, c: string)
    requires '/' !in a && '/' !in b && '/' !in c
    ensures Split(a + "/" + b + "/" + c, '/') == [a, b, c]
    ensures Count(a + "/" + b + "/" + c, '/') == 2
  {
    var key := a + "/" + b + "/" + c;
    assert key == a + ['/'] + (b + ['/'] + c);
    SplitAfterPiece(a, '/', b + "/" + c);
    SplitAfterPiece(b, '/', c);
    SplitNone(c, '/');
    assert Split(key, '/') == [a, b, c];
  }

  /** Keys with three or more `/` are always dropped. */
  lemma RouteDeep(t: string, ig: IgnoreTypes, key: string)
    requires t != "" && Count(key, '/') >= 3
    ensures RouteKey(t, ig, key) == Drop
  {
  }

  /** Every top-level key a phobostype routes to is the key with every
      occurrence of `t/` removed, and the key held exactly one `/`. */
  lemma RouteTopShape(t: string, ig: IgnoreTypes, key: string)
    requires t != ""
    requires RouteKey(t, ig, key).Top?
    ensures Count(key, '/') == 1 && Contains(key, t + "/")
    ensures RouteKey(t, ig, key).key == RemoveAll(key, t + "/")
  {
  }

  /** A string `ignoretypes` ignores every substring of itself, the empty
      category included, where a list ignores only its members. */
  lemma IgnoredStringIsSubstringTest()
    ensures Ignored(Text("geometry"), "metr")
    ensures Ignored(Text("geometry"), "")
    ensures !Ignored(Names(["geometry"]), "metr")
    ensures !Ignored(Names(["geometry"]), "")
  {
    var g := "geometry";
    assert "metr" <= g[3..];
    assert Contains(g[3..], "metr");
    assert Contains(g[2..], "metr");
    assert Contains(g[1..], "metr");
  }

  // ---------------------------------------------------------------------
  // The dictionary the properties build

  /** The value of the last property whose route is `route`, as stored. */
  function LastRouted(phobostype: Option<string>, ig: IgnoreTypes,
                      items: seq<(string, Value)>, route: Route): Option<Value>
    decreases |items|
  {
    if items == [] then None
    else
      match LastRouted(phobostype, ig, items[1..], route)
      case Some(v) => Some(v)
      case None =>
        if Routed(phobostype, ig, items[0].0) == route
        then Some(Delivered(phobostype, items[0].1))
        else None
  }

  /** A route that writes into the category entry stored under key `k`. */
  predicate NestsUnder(route: Route, k: string)
  {
    route.Nested? && "$" + route.category == k
  }

  /** Keys of the form `$...`: the keys category entries live under. */
  predicate DollarKey(k: string)
  {
    |k| > 0 && k[0] == '$'
  }

  /** `LastRouted` picks the property at the last index routed to `route`,
      and finds one whenever some property is routed there. */
  lemma {:induction false} LastRoutedIsLast(phobostype: Option<string>, ig: IgnoreTypes,
                                            items: seq<(string, Value)>, route: Route)
    ensures LastRouted(phobostype, ig, items, route).Some? <==>
              exists j :: 0 <= j < |items| && Routed(phobostype, ig, items[j].0) == route
    ensures LastRouted(phobostype, ig, items, route).Some? ==>
              exists j :: 0 <= j < |items| && Routed(phobostype, ig, items[j].0) == route
                && LastRouted(phobostype, ig, items, route).value == Delivered(phobostype, items[j].1)
                && forall j' :: j < j' < |items| ==> Routed(phobostype, ig, items[j'].0) != route
  {
    if items != [] {
      var rest := items[1..];
      LastRoutedIsLast(phobostype, ig, rest, route);
      assert forall j :: 1 <= j < |items| ==> items[j] == rest[j - 1];
      if LastRouted(phobostype, ig, rest, route).Some? {
        var j :| 0 <= j < |rest| && Routed(phobostype, ig, rest[j].0) == route
                 && LastRouted(phobostype, ig, rest, route).value == Delivered(phobostype, rest[j].1)
                 && forall j' :: j < j' < |rest| ==> Routed(phobostype, ig, rest[j'].0) != route;
        assert Routed(phobostype, ig, items[j + 1].0) == route;
      }
    }
  }

  /** Writing `xs + ys` is writing `xs`, then `ys` on the result. */
  lemma {:induction false} StoreAllAppend(props: Props, phobostype: Option<string>, ig: IgnoreTypes,
                                          xs: seq<(string, Value)>, ys: seq<(string, Value)>)
    decreases |xs|
    ensures StoreAll(props, phobostype, ig, xs + ys) ==
              match StoreAll(props, phobostype, ig, xs)
              case Err(e) => Err(e)
              case Ok(q) => StoreAll(q, phobostype, ig, ys)
  {
    if xs == [] {
      assert xs + ys == ys;
    } else {
      assert (xs + ys)[0] == xs[0];
      assert (xs + ys)[1..] == xs[1..] + ys;
      match Store(props, Routed(phobostype, ig, xs[0].0), Delivered(phobostype, xs[0].1))
      case Err(e) =>
      case Ok(q) => StoreAllAppend(q, phobostype, ig, xs[1..], ys);
    }
  }

  /** A dropped property changes nothing: inserting one anywhere leaves
      the dictionary as it was. With a phobostype this covers every key
      without `/`, every key with three or more `/`, and ignored foreign
      keys. */
  lemma DroppedPropertyIsInert(name: string, items: seq<(string, Value)>, phobostype: Option<string>,
                               ig: IgnoreTypes, k: nat, key: string, v: Value)
    requires k <= |items|
    requires Routed(phobostype, ig, key) == Drop
    ensures InitSpec(name, items[..k] + [(key, v)] + items[k..], phobostype, ig)
            == InitSpec(name, items, phobostype, ig)
  {
    var p0 := map["name" := Str(name)];
    StoreAllAppend(p0, phobostype, ig, items[..k] + [(key, v)], items[k..]);
    StoreAllAppend(p0, phobostype, ig, items[..k], [(key, v)]);
    StoreAllAppend(p0, phobostype, ig, items[..k], items[k..]);
    assert items[..k] + items[k..] == items;
  }

  /** A key that no property nests under holds the value of the last
      property routed to it at top level, or what it held before. */
  lemma {:induction false} TopKeyLastWins(props: Props, phobostype: Option<string>, ig: IgnoreTypes,
                                          items: seq<(string, Value)>, k: string)
    decreases |items|
    requires forall j :: 0 <= j < |items| ==> !NestsUnder(Routed(phobostype, ig, items[j].0), k)
    requires StoreAll(props, phobostype, ig, items).Ok?
    ensures var m := StoreAll(props, phobostype, ig, items).value;
            var last := LastRouted(phobostype, ig, items, Top(k));
            && (k in m <==> k in props || last.Some?)
            && (k in m ==> m[k] == if last.Some? then last.value else props[k])
  {
    if items != [] {
      var route := Routed(phobostype, ig, items[0].0);
      var q := Store(props, route, Delivered(phobostype, items[0].1)).value;
      assert forall j :: 1 <= j < |items| ==> items[j] == items[1..][j - 1];
      TopKeyLastWins(q, phobostype, ig, items[1..], k);
    }
  }

  /** Category `$c`, when no property is routed to key `$c` at top level:
      it exists exactly when some property nests under it, it is a
      dictionary, and entry `s` holds the value of the last property
      routed to `$c`/`s`. */
  lemma {:induction false} CategoryLastWins(props: Props, phobostype: Option<string>, ig: IgnoreTypes,
                                            items: seq<(string, Value)>, c: string, s: string)
    decreases |items|
    requires forall j :: 0 <= j < |items| ==> Routed(phobostype, ig, items[j].0) != Top("$" + c)
    requires "$" + c in props ==> props["$" + c].Dict?
    requires StoreAll(props, phobostype, ig, items).Ok?
    ensures var m := StoreAll(props, phobostype, ig, items).value;
            var ck := "$" + c;
            var last := LastRouted(phobostype, ig, items, Nested(c, s));
            && (ck in m <==>
                  (ck in props
                   || exists j :: 0 <= j < |items| && NestsUnder(Routed(phobostype, ig, items[j].0), ck)))
            && (ck in m ==> m[ck].Dict?)
            && (ck in m ==> (s in m[ck].entries <==>
                               (ck in props && s in props[ck].entries) || last.Some?))
            && (ck in m && s in m[ck].entries ==>
                  m[ck].entries[s] == if last.Some? then last.value else props[ck].entries[s])
  {
    if items != [] {
      var route := Routed(phobostype, ig, items[0].0);
      var q := Store(props, route, Delivered(phobostype, items[0].1)).value;
      assert forall j :: 1 <= j < |items| ==> items[j] == items[1..][j - 1];
      CategoryLastWins(q, phobostype, ig, items[1..], c, s);
      var ck := "$" + c;
      if route.Nested? && route.category != c {
        assert "$" + route.category != ck by {
          assert ("$" + route.category)[1..] == route.category;
          assert ck[1..] == c;
        }
      }
    }
  }

  /** Writes can only fail on a category key `$c` that holds something
      other than a dictionary; such a key can only come from a property
      routed to `$c` at top level. Without those, every write succeeds. */
  lemma {:induction false} NoErrorWithoutDollarTopKeys(props: Props, phobostype: Option<string>,
                                                       ig: IgnoreTypes, items: seq<(string, Value)>)
    decreases |items|
    requires forall j :: 0 <= j < |items| ==>
               !(Routed(phobostype, ig, items[j].0).Top? && DollarKey(Routed(phobostype, ig, items[j].0).key))
    requires forall k :: k in props && DollarKey(k) ==> props[k].Dict?
    ensures StoreAll(props, phobostype, ig, items).Ok?
  {
    if items != [] {
      var route := Routed(phobostype, ig, items[0].0);
      var q := Store(props, route, Delivered(phobostype, items[0].1));
      assert q.Ok?;
      assert forall j :: 1 <= j < |items| ==> items[j] == items[1..][j - 1];
      NoErrorWithoutDollarTopKeys(q.value, phobostype, ig, items[1..]);
    }
  }

  /** Without a phobostype no write can fail. */
  lemma {:induction false} UntypedNeverFails(props: Props, phobostype: Option<string>, ig: IgnoreTypes,
                                             items: seq<(string, Value)>)
    decreases |items|
    requires !Truthy(phobostype)
    ensures StoreAll(props, phobostype, ig, items).Ok?
  {
    if items != [] {
      UntypedNeverFails(props[items[0].0 := items[0].1], phobostype, ig, items[1..]);
    }
  }

  /** Without a phobostype, the result holds `name` and every custom key;
      each key holds the value of its last property, so a custom `name`
      overrides the exported name. */
  lemma UntypedCopiesEveryProperty(name: string, items: seq<(string, Value)>, phobostype: Option<string>,
                                   ig: IgnoreTypes, k: string)
    requires !Truthy(phobostype)
    ensures InitSpec(name, items, phobostype, ig).Ok?
    ensures var m := InitSpec(name, items, phobostype, ig).value;
            && (k in m <==> k == "name" || exists j :: 0 <= j < |items| && items[j].0 == k)
            && (k in m ==> (exists j :: 0 <= j < |items| && items[j] == (k, m[k])
                                        && forall j' :: j < j' < |items| ==> items[j'].0 != k)
                           || (k == "name" && m[k] == Str(name)))
  {
    var p0 := map["name" := Str(name)];
    UntypedNeverFails(p0, phobostype, ig, items);
    TopKeyLastWins(p0, phobostype, ig, items, k);
    LastRoutedIsLast(phobostype, ig, items, Top(k));
  }

  /** With or without a phobostype, a dictionary that was built holds
      `name`: the exported name unless a property was routed to `name`,
      in which case the last such property wins. */
  lemma NameAlwaysPresent(name: string, items: seq<(string, Value)>, phobostype: Option<string>,
                          ig: IgnoreTypes)
    requires InitSpec(name, items, phobostype, ig).Ok?
    ensures var m := InitSpec(name, items, phobostype, ig).value;
            var last := LastRouted(phobostype, ig, items, Top("name"));
            "name" in m && m["name"] == if last.Some? then last.value else Str(name)
  {
    var p0 := map["name" := Str(name)];
    forall j | 0 <= j < |items|
      ensures !NestsUnder(Routed(phobostype, ig, items[j].0), "name")
    {
      var route := Routed(phobostype, ig, items[j].0);
      if route.Nested? {
        assert ("$" + route.category)[0] == '$';
      }
    }
    TopKeyLastWins(p0, phobostype, ig, items, "name");
  }

  /** When no property is routed anywhere, the fold leaves the dictionary
      as it was. */
  lemma {:induction false} NothingRoutedKeepsName(props: Props, phobostype: Option<string>,
                                                  ig: IgnoreTypes, items: seq<(string, Value)>)
    decreases |items|
    requires forall j :: 0 <= j < |items| ==> Routed(phobostype, ig, items[j].0) == Drop
    ensures StoreAll(props, phobostype, ig, items) == Ok(props)
  {
    if items != [] {
      assert Routed(phobostype, ig, items[0].0) == Drop;
      assert forall j :: 1 <= j < |items| ==> items[j] == items[1..][j - 1];
      NothingRoutedKeepsName(props, phobostype, ig, items[1..]);
    }
  }

  /** A key `T/$a` followed by a key `T/a/b` makes the properties raise:
      the first stores a plain value under `$a`, the second indexes it as
      a dictionary. */
  lemma DollarKeyCollision(name: string, t: string, ig: IgnoreTypes, a: string, b: string,
                           v1: Value, v2: Value)
    requires t != "" && '/' !in t && '/' !in a && '/' !in b
    requires !v1.Dict?
    ensures InitSpec(name, [(t + "/$" + a, v1), (t + "/" + a + "/" + b, v2)], Some(t), ig)
            == Err(TypeError)
  {
    var pt := Some(t);
    var k1, k2 := t + "/$" + a, t + "/" + a + "/" + b;
    var items := [(k1, v1), (k2, v2)];
    CollisionRoutes(t, ig, a, b);
    var p0 := map["name" := Str(name)];
    var p1 := p0["$" + a := ToList(v1)];
    assert Store(p0, Routed(pt, ig, k1), Delivered(pt, v1)) == Ok(p1);
    assert StoreAll(p0, pt, ig, items) == StoreAll(p1, pt, ig, items[1..]);
    assert items[1..] == [(k2, v2)];
    assert "$" + a in p1 && p1["$" + a] == ToList(v1);
    assert Store(p1, Routed(pt, ig, k2), Delivered(pt, v2)) == Err(TypeError);
  }

  lemma CollisionRoutes(t: string, ig: IgnoreTypes, a: string, b: string)
    requires t != "" && '/' !in t && '/' !in a && '/' !in b
    ensures Routed(Some(t), ig, t + "/$" + a) == Top("$" + a)
    ensures Routed(Some(t), ig, t + "/" + a + "/" + b) == Nested(a, b)
  {
    RouteOneSlash(t, ig, t, "$" + a);
    assert t + "/" + ("$" + a) == t + "/$" + a;
    assert t[..0] + ("$" + a) == "$" + a;
    assert t + "/" <= t + "/" + a + "/" + b;
    RouteTwoSlashes(t, ig, t, a, b);
  }
}
