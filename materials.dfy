/** The material table of the model: every material that is the first
    material of some visual object, with the number of such objects. */
module Materials {

  import opened PyValues
  import opened Scene

  /** The object takes part in the material table: a visual object with at
      least one material slot (`obj.data.materials` is truthy). */
  predicate Contributes(o: Obj)
  {
    o.phobostype == "visual" && o.materials != []
  }

  /** The object contributes, and its first slot holds material `m`. */
  predicate UsesFirst(o: Obj, m: string)
  {
    Contributes(o) && o.materials[0] == Some(m)
  }

  /** The object contributes but its first slot is empty: `mat.name` on
      `None` raises. */
  predicate EmptyFirstSlot(o: Obj)
  {
    Contributes(o) && o.materials[0].None?
  }

  /** The number of objects of `objects` that use `m` as first material. */
  function Users(objects: seq<Obj>, m: string): nat
  {
    if objects == [] then 0
    else Users(objects[..|objects| - 1], m) + (if UsesFirst(objects[|objects| - 1], m) then 1 else 0)
  }

  /** A material has users exactly when some object uses it first. */
  lemma {:induction false} UsersPositive(objects: seq<Obj>, m: string)
    ensures Users(objects, m) >= 1 <==> exists k :: 0 <= k < |objects| && UsesFirst(objects[k], m)
    ensures Users(objects, m) <= |objects|
  {
    if objects != [] {
      var init := objects[..|objects| - 1];
      UsersPositive(init, m);
      assert forall k :: 0 <= k < |init| ==> init[k] == objects[k];
    }
  }

  /** Counting over a concatenation adds up the counts. */
  lemma {:induction false} UsersAppend(xs: seq<Obj>, ys: seq<Obj>, m: string)
    decreases |ys|
    ensures Users(xs + ys, m) == Users(xs, m) + Users(ys, m)
  {
    if ys == [] {
      assert xs + ys == xs;
    } else {
      var zs := xs + ys;
      assert zs[..|zs| - 1] == xs + ys[..|ys| - 1];
      assert zs[|zs| - 1] == ys[|ys| - 1];
      UsersAppend(xs, ys[..|ys| - 1], m);
    }
  }

  /** Counting over one more object adds that object's use. */
  lemma UsersStep(objects: seq<Obj>, i: nat)
    requires i < |objects|
    ensures forall m :: Users(objects[..i + 1], m) == Users(objects[..i], m) + (if UsesFirst(objects[i], m) then 1 else 0)
  {
    assert objects[..i + 1][..i] == objects[..i];
  }

  /** `collectMaterials(objectlist)`, with `deriveMaterial` as the parameter
      `derive` (from a material's name to its dictionary): one entry per
      material that is first material of a visual object, holding the
      derived dictionary and the number of its `users`. */
  method CollectMaterials(objects: seq<Obj>, derive: string -> Props)
    returns (r: Result<map<string, Props>>)
    ensures r.Err? <==> exists k :: 0 <= k < |objects| && EmptyFirstSlot(objects[k])
    ensures r.Err? ==> r.error == AttributeError
    ensures r.Ok? ==> forall m :: m in r.value <==>
                        exists k :: 0 <= k < |objects| && UsesFirst(objects[k], m)
    ensures r.Ok? ==> forall m :: m in r.value ==>
                        r.value[m] == derive(m)["users" := Int(Users(objects, m))]
  {
    var materials: map<string, Props> := map[];
    var i := 0;
    while i < |objects|
      invariant 0 <= i <= |objects|
      invariant forall k :: 0 <= k < i ==> !EmptyFirstSlot(objects[k])
      invariant forall m :: m in materials <==> Users(objects[..i], m) >= 1
      invariant forall m :: m in materials ==>
                  materials[m] == derive(m)["users" := Int(Users(objects[..i], m))]
    {
      var obj := objects[i];
      UsersStep(objects, i);
      if obj.phobostype == "visual" && obj.materials != [] {
        if obj.materials[0].None? {
          return Err(AttributeError);
        }
        var mat := obj.materials[0].value;
        if mat !in materials {
          materials := materials[mat := derive(mat)["users" := Int(1)]];
        } else {
          var entry := materials[mat];
          materials := materials[mat := entry["users" := Int(entry["users"].i + 1)]];
        }
      }
      i := i + 1;
    }
    assert objects[..i] == objects;
    forall m
      ensures m in materials <==> exists k :: 0 <= k < |objects| && UsesFirst(objects[k], m)
    {
      UsersPositive(objects, m);
    }
    return Ok(materials);
  }
}
