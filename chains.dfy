/** Kinematic chains: an object that names chains in its `endChain`
    property ends each of them; the chain runs up the parent relation to
    the first ancestor whose `startChain` property holds the chain's name. */
module Chains {

  import opened PyValues
  import opened Scene

  /** A chain dictionary: `name`, `start`, `end` and `elements`. */
  datatype Chain = Chain(name: Value, start: string, end: string, elements: seq<string>)

  /** How a chain closes: at the exported name of the ancestor that starts
      it, with the names collected on the way up. */
  datatype Closed = Closed(start: string, elements: seq<string>)

  /** `chainName in parent['startChain']` when the object has that
      property, `False` otherwise. */
  function StartsChain(holder: Obj, chainName: Value): Result<bool>
  {
    match Get(holder.custom, "startChain")
    case None => Ok(false)
    case Some(startchain) => PyIn(chainName, startchain)
  }

  /** `elements` in front of the elements of a closed chain. */
  function Prefixed(elements: seq<string>, r: Result<Option<Closed>>): Result<Option<Closed>>
  {
    match r
    case Ok(Some(c)) => Ok(Some(Closed(c.start, elements + c.elements)))
    case _ => r
  }

  /** The walk from object `cur` up to the start of chain `chainName`:
      `None` when the walk reaches a root first. */
  function ChainFrom(scene: seq<Obj>, cur: nat, chainName: Value, nameOf: NameFn): Result<Option<Closed>>
    requires ParentsPrecede(scene) && cur < |scene|
    decreases cur
  {
    var o := scene[cur];
    if o.parent.None? then Ok(None)
    else
      var holder := scene[o.parent.value];
      var closes :- StartsChain(holder, chainName);
      if closes then Ok(Some(Closed(nameOf(holder, None), [o.name, nameOf(holder, None)])))
      else Prefixed([o.name], ChainFrom(scene, o.parent.value, chainName, nameOf))
  }

  lemma PrefixedTwice(xs: seq<string>, ys: seq<string>, r: Result<Option<Closed>>)
    ensures Prefixed(xs, Prefixed(ys, r)) == Prefixed(xs + ys, r)
  {
    if r.Ok? && r.value.Some? {
      assert xs + (ys + r.value.value.elements) == xs + ys + r.value.value.elements;
    }
  }

  /** The inner loop of `deriveChainEntry`: follow the parents of object
      `i` until an ancestor starts chain `chainName`. */
  method CloseChain(scene: seq<Obj>, i: nat, chainName: Value, nameOf: NameFn)
    returns (r: Result<Option<Closed>>)
    requires ParentsPrecede(scene) && i < |scene|
    ensures r == ChainFrom(scene, i, chainName, nameOf)
  {
    var elements: seq<string> := [];
    var parent: nat := i;
    PrefixedNothing(ChainFrom(scene, i, chainName, nameOf));
    while true
      invariant parent < |scene|
      invariant Prefixed(elements, ChainFrom(scene, parent, chainName, nameOf))
                == ChainFrom(scene, i, chainName, nameOf)
      decreases parent
    {
      var o := scene[parent];
      if o.parent.None? {
        return Ok(None);
      }
      ghost var before := elements;
      elements := elements + [o.name];
      parent := o.parent.value;
      var holder := scene[parent];
      var startchain := Get(holder.custom, "startChain");
      if startchain.Some? {
        var closes :- PyIn(chainName, startchain.value);
        if closes {
          elements := elements + [nameOf(holder, None)];
          assert before + [o.name, nameOf(holder, None)] == elements;
          return Ok(Some(Closed(nameOf(holder, None), elements)));
        }
      }
      PrefixedTwice(before, [o.name], ChainFrom(scene, parent, chainName, nameOf));
    }
  }

  lemma PrefixedNothing(r: Result<Option<Closed>>)
    ensures Prefixed([], r) == r
  {
    if r.Ok? && r.value.Some? {
      assert [] + r.value.value.elements == r.value.value.elements;
    }
  }

  /** The chains object `i` ends, one per name its `endChain` property
      yields, in order; unclosed chains are skipped. */
  function ChainsSpec(scene: seq<Obj>, i: nat, nameOf: NameFn): Result<seq<Chain>>
    requires ParentsPrecede(scene) && i < |scene|
  {
    match Get(scene[i].custom, "endChain")
    case None => Err(UnboundLocalError)
    case Some(chainlist) =>
      var names :- PyIter(chainlist);
      ChainsOf(scene, i, nameOf, names)
  }

  /** The chains of object `i` named by `names`. */
  function ChainsOf(scene: seq<Obj>, i: nat, nameOf: NameFn, names: seq<Value>): Result<seq<Chain>>
    requires ParentsPrecede(scene) && i < |scene|
    decreases |names|
  {
    if names == [] then Ok([])
    else
      var closed :- ChainFrom(scene, i, names[0], nameOf);
      var rest :- ChainsOf(scene, i, nameOf, names[1..]);
      match closed
      case None => Ok(rest)
      case Some(c) => Ok([Chain(names[0], c.start, nameOf(scene[i], None), c.elements)] + rest)
  }

  /** `chains` in front of a list of chains. */
  function Appended(chains: seq<Chain>, r: Result<seq<Chain>>): Result<seq<Chain>>
  {
    if r.Ok? then Ok(chains + r.value) else r
  }

  /** `deriveChainEntry(obj)` for object `i` of the scene. Without an
      `endChain` property the loop reads an unbound variable. */
  method DeriveChainEntry(scene: seq<Obj>, i: nat, nameOf: NameFn) returns (r: Result<seq<Chain>>)
    requires ParentsPrecede(scene) && i < |scene|
    ensures r == ChainsSpec(scene, i, nameOf)
  {
    var obj := scene[i];
    var endChain := Get(obj.custom, "endChain");
    if endChain.None? {
      return Err(UnboundLocalError);
    }
    var chainlist :- PyIter(endChain.value);
    var returnchains: seq<Chain> := [];
    var n := 0;
    assert chainlist[0..] == chainlist;
    AppendedNothing(ChainsOf(scene, i, nameOf, chainlist));
    while n < |chainlist|
      invariant 0 <= n <= |chainlist|
      invariant Appended(returnchains, ChainsOf(scene, i, nameOf, chainlist[n..]))
                == ChainsOf(scene, i, nameOf, chainlist)
    {
      var chainName := chainlist[n];
      ChainsOfStep(scene, i, nameOf, chainlist[n..], returnchains);
      assert chainlist[n..][0] == chainName && chainlist[n..][1..] == chainlist[n + 1..];
      var closed :- CloseChain(scene, i, chainName, nameOf);
      if closed.Some? {
        var chain := Chain(chainName, closed.value.start, nameOf(obj, None), closed.value.elements);
        returnchains := returnchains + [chain];
      }
      n := n + 1;
    }
    assert returnchains + [] == returnchains;
    return Ok(returnchains);
  }

  lemma AppendedNothing(r: Result<seq<Chain>>)
    ensures Appended([], r) == r
  {
    if r.Ok? {
      assert [] + r.value == r.value;
    }
  }

  /** One more name: its chain, when it closes, goes after `chains`. */
  lemma ChainsOfStep(scene: seq<Obj>, i: nat, nameOf: NameFn, names: seq<Value>, chains: seq<Chain>)
    requires ParentsPrecede(scene) && i < |scene| && names != []
    ensures var c := ChainFrom(scene, i, names[0], nameOf);
            var all := Appended(chains, ChainsOf(scene, i, nameOf, names));
            var rest := ChainsOf(scene, i, nameOf, names[1..]);
            && (c.Err? ==> all == Err(c.error))
            && (c == Ok(None) ==> all == Appended(chains, rest))
            && (c.Ok? && c.value.Some? ==>
                  all == Appended(chains + [Chain(names[0], c.value.value.start, nameOf(scene[i], None),
                                                  c.value.value.elements)], rest))
  {
    var c := ChainFrom(scene, i, names[0], nameOf);
    var rest := ChainsOf(scene, i, nameOf, names[1..]);
    if c.Ok? && c.value.Some? && rest.Ok? {
      var chain := Chain(names[0], c.value.value.start, nameOf(scene[i], None), c.value.value.elements);
      assert chains + ([chain] + rest.value) == chains + [chain] + rest.value;
    }
  }

  // ---------------------------------------------------------------------
  // The chain as a walk over the ancestors

  /** Object `i` followed by its ancestors, up to a root. */
  function Path(scene: seq<Obj>, i: nat): (p: seq<nat>)
    requires ParentsPrecede(scene) && i < |scene|
    decreases i
    ensures |p| >= 1 && p[0] == i
    ensures forall k :: 0 <= k < |p| ==> p[k] < |scene|
  {
    if scene[i].parent.None? then [i] else [i] + Path(scene, scene[i].parent.value)
  }

  /** The host names of the objects at `path`. */
  function HostNames(scene: seq<Obj>, path: seq<nat>): (r: seq<string>)
    requires forall k :: 0 <= k < |path| ==> path[k] < |scene|
    ensures |r| == |path|
    ensures forall k :: 0 <= k < |path| ==> r[k] == scene[path[k]].name
  {
    seq(|path|, k requires 0 <= k < |path| => scene[path[k]].name)
  }

  /** A chain closes at the first ancestor whose `startChain` holds the
      chain's name: its elements are the host names of the objects passed
      on the way up, starting with the end object, followed by the exported
      name of that ancestor, which is also the chain's start. A `startChain`
      the name cannot be looked up in raises on the way. */
  lemma {:induction false} ChainFollowsAncestors(scene: seq<Obj>, i: nat, chainName: Value,
                                                 nameOf: NameFn, k: nat)
    requires ParentsPrecede(scene) && i < |scene|
    requires 1 <= k < |Path(scene, i)|
    requires forall j :: 1 <= j < k ==> StartsChain(scene[Path(scene, i)[j]], chainName) == Ok(false)
    decreases i
    ensures var p := Path(scene, i);
            var holder := scene[p[k]];
            && (StartsChain(holder, chainName) == Ok(true) ==>
                  ChainFrom(scene, i, chainName, nameOf)
                  == Ok(Some(Closed(nameOf(holder, None), HostNames(scene, p[..k]) + [nameOf(holder, None)]))))
            && (StartsChain(holder, chainName).Err? ==>
                  ChainFrom(scene, i, chainName, nameOf) == Err(StartsChain(holder, chainName).error))
  {
    var p := Path(scene, i);
    var q := scene[i].parent.value;
    assert p == [i] + Path(scene, q);
    assert p[1] == q;
    if k > 1 {
      var pq := Path(scene, q);
      assert p[k] == pq[k - 1];
      forall j | 1 <= j < k - 1
        ensures StartsChain(scene[pq[j]], chainName) == Ok(false)
      {
        assert pq[j] == p[j + 1];
      }
      assert StartsChain(scene[p[1]], chainName) == Ok(false);
      ChainFollowsAncestors(scene, q, chainName, nameOf, k - 1);
      assert HostNames(scene, p[..k]) == [scene[i].name] + HostNames(scene, pq[..k - 1]);
      var h := nameOf(scene[p[k]], None);
      assert [scene[i].name] + (HostNames(scene, pq[..k - 1]) + [h])
             == HostNames(scene, p[..k]) + [h];
    } else {
      assert HostNames(scene, p[..1]) == [scene[i].name];
      assert HostNames(scene, p[..1]) + [nameOf(scene[q], None)] == [scene[i].name, nameOf(scene[q], None)];
    }
  }

  /** A chain none of whose ancestors starts it is not closed. */
  lemma {:induction false} UnclosedChain(scene: seq<Obj>, i: nat, chainName: Value, nameOf: NameFn)
    requires ParentsPrecede(scene) && i < |scene|
    requires forall j :: 1 <= j < |Path(scene, i)| ==>
               StartsChain(scene[Path(scene, i)[j]], chainName) == Ok(false)
    decreases i
    ensures ChainFrom(scene, i, chainName, nameOf) == Ok(None)
  {
    if scene[i].parent.Some? {
      var p := Path(scene, i);
      var q := scene[i].parent.value;
      var pq := Path(scene, q);
      assert p == [i] + pq;
      forall j | 1 <= j < |pq|
        ensures StartsChain(scene[pq[j]], chainName) == Ok(false)
      {
        assert pq[j] == p[j + 1];
      }
      assert StartsChain(scene[p[1]], chainName) == Ok(false);
      UnclosedChain(scene, q, chainName, nameOf);
    }
  }
}
