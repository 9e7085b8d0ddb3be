/** The host scene, abstracted: each object is a record holding what the
    exporter reads from it. */
module Scene {

  import opened PyValues

  /** One level of detail: its switch distance and the name of the mesh
      data of its object (`None` when the level has no object). */
  datatype LodLevel = LodLevel(distance: real, mesh: Option<string>)

  /** A host object.
      - `name`: the host's own name (`obj.name`);
      - `phobostype`: the exporter's type tag (`link`, `visual`, ...);
      - `parent`: the index of the parent object in the scene;
      - `custom`: the custom properties in their order (`obj.items()`);
      - `collisionGroups`: the rigid-body collision groups, `None` when the
        object has no rigid body;
      - `materials`: the material slots, `None` for an empty slot;
      - `lodLevels`: the levels of detail. */
  datatype Obj = Obj(
    name: string,
    phobostype: string,
    parent: Option<nat>,
    custom: seq<(string, Value)>,
    collisionGroups: Option<seq<bool>>,
    materials: seq<Option<string>>,
    lodLevels: seq<LodLevel>)

  /** The naming helper of the exporter: an object and an optional
      phobostype give the object's exported name (`None` is the helper's
      default argument). Its definition is not part of this model. */
  type NameFn = (Obj, Option<string>) -> string

  /** Objects are numbered so that every parent comes before its
      children; this is how the model states that the parent relation is
      acyclic (every forest can be numbered this way). */
  predicate ParentsPrecede(scene: seq<Obj>)
  {
    forall k :: 0 <= k < |scene| && scene[k].parent.Some? ==> scene[k].parent.value < k
  }

  /** `obj[key]` when `key in obj`: the value stored under `key` among the
      custom properties (host keys are unique; the first one is taken). */
  function Get(custom: seq<(string, Value)>, key: string): (r: Option<Value>)
    ensures r.Some? <==> exists k :: 0 <= k < |custom| && custom[k].0 == key
    ensures r.Some? ==> exists k :: 0 <= k < |custom| && custom[k] == (key, r.value)
  {
    if custom == [] then None
    else if custom[0].0 == key then Some(custom[0].1)
    else
      var r := Get(custom[1..], key);
      assert forall k :: 1 <= k < |custom| ==> custom[k] == custom[1..][k - 1];
      r
  }
}
