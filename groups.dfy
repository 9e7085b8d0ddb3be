/** Groups: the link skeletons listed for a host group. */
module Groups {

  import opened PyValues
  import opened Scene

  /** The skeleton `{'type': 'link', 'name': name}` of a link. */
  function LinkSkeleton(name: string): Props
  {
    map["type" := Str("link"), "name" := Str(name)]
  }

  /** The skeletons of the links among `objects`, in order; other objects
      are reported and skipped. */
  function GroupLinks(objects: seq<Obj>, nameOf: NameFn): seq<Props>
  {
    if objects == [] then []
    else
      var last := objects[|objects| - 1];
      GroupLinks(objects[..|objects| - 1], nameOf)
      + (if last.phobostype == "link" then [LinkSkeleton(nameOf(last, None))] else [])
  }

  /** `deriveGroupEntry(group)` for a group holding `objects`. */
  method DeriveGroupEntry(objects: seq<Obj>, nameOf: NameFn) returns (links: seq<Props>)
    ensures links == GroupLinks(objects, nameOf)
  {
    links := [];
    var i := 0;
    while i < |objects|
      invariant 0 <= i <= |objects|
      invariant links == GroupLinks(objects[..i], nameOf)
    {
      var obj := objects[i];
      assert objects[..i + 1][..i] == objects[..i];
      if obj.phobostype == "link" {
        links := links + [LinkSkeleton(nameOf(obj, None))];
      }
      i := i + 1;
    }
    assert objects[..i] == objects;
  }

  /** The skeletons of a concatenation are the skeletons of its parts. */
  lemma {:induction false} GroupLinksAppend(xs: seq<Obj>, ys: seq<Obj>, nameOf: NameFn)
    decreases |ys|
    ensures GroupLinks(xs + ys, nameOf) == GroupLinks(xs, nameOf) + GroupLinks(ys, nameOf)
  {
    if ys == [] {
      assert xs + ys == xs;
    } else {
      var zs := xs + ys;
      assert zs[..|zs| - 1] == xs + ys[..|ys| - 1];
      assert zs[|zs| - 1] == ys[|ys| - 1];
      GroupLinksAppend(xs, ys[..|ys| - 1], nameOf);
    }
  }

  /** Every skeleton is that of a link of the group, and every link of the
      group has its skeleton in the list. */
  lemma {:induction false} GroupLinksAreTheLinks(objects: seq<Obj>, nameOf: NameFn)
    ensures forall e :: e in GroupLinks(objects, nameOf) <==>
              exists k :: 0 <= k < |objects| && objects[k].phobostype == "link"
                          && e == LinkSkeleton(nameOf(objects[k], None))
    ensures |GroupLinks(objects, nameOf)| <= |objects|
  {
    if objects != [] {
      var init := objects[..|objects| - 1];
      GroupLinksAreTheLinks(init, nameOf);
      assert forall k :: 0 <= k < |init| ==> init[k] == objects[k];
      forall e | exists k :: 0 <= k < |objects| && objects[k].phobostype == "link"
                             && e == LinkSkeleton(nameOf(objects[k], None))
        ensures e in GroupLinks(objects, nameOf)
      {
        var k :| 0 <= k < |objects| && objects[k].phobostype == "link"
                 && e == LinkSkeleton(nameOf(objects[k], None));
        if k < |init| {
          assert e in GroupLinks(init, nameOf);
        }
      }
    }
  }
}
