/** Visuals: the routed properties of a visual object with its geometry,
    pose and the list of its levels of detail. */
module Visual {

  import opened PyValues
  import opened Scene
  import opened Properties

  /** The mesh-format switches of the host's first world, in the order the
      exporter tests them. */
  datatype MeshFormats = MeshFormats(useObj: bool, useBobj: bool, useStl: bool, useDae: bool)

  /** The file extension of a level's mesh: the first format switched on,
      `.obj` when none is. */
  function MeshExtension(w: MeshFormats): (ext: string)
    ensures ext == ".obj" <==> w.useObj || !(w.useBobj || w.useStl || w.useDae)
    ensures ext == ".bobj" <==> !w.useObj && w.useBobj
    ensures ext == ".stl" <==> !w.useObj && !w.useBobj && w.useStl
    ensures ext == ".dae" <==> !w.useObj && !w.useBobj && !w.useStl && w.useDae
  {
    if w.useObj then ".obj"
    else if w.useBobj then ".bobj"
    else if w.useStl then ".stl"
    else if w.useDae then ".dae"
    else ".obj"
  }

  /** `os.path.join('meshes', f)` on POSIX: an absolute `f` replaces the
      directory. */
  function MeshPath(f: string): string
  {
    if |f| > 0 && f[0] == '/' then f else "meshes/" + f
  }

  /** The default end distances: each level ends where the next one
      starts, the last one at 100. */
  function DefaultMaxDistances(levels: seq<LodLevel>): (d: seq<Value>)
    requires levels != []
  {
    seq(|levels| - 1, i requires 0 <= i < |levels| - 1 => Float(levels[i + 1].distance)) + [Float(100.0)]
  }

  /** Level `i` of the default list ends where level `i + 1` starts; the
      last level ends at 100. */
  lemma DefaultEnds(levels: seq<LodLevel>, i: nat)
    requires i < |levels|
    ensures PyIndex(List(DefaultMaxDistances(levels)), i)
            == Ok(Float(if i + 1 < |levels| then levels[i + 1].distance else 100.0))
  {
  }

  /** `maxdlist`: the object's `lodmaxdistances` property, or the default
      list. */
  function MaxDistances(obj: Obj): Value
    requires obj.lodLevels != []
  {
    match Get(obj.custom, "lodmaxdistances")
    case Some(v) => v
    case None => List(DefaultMaxDistances(obj.lodLevels))
  }

  /** The dictionary of one level of detail. */
  function LodEntry(level: LodLevel, end: Value, ext: string): Value
    requires level.mesh.Some?
  {
    Dict(map["start" := Float(level.distance), "end" := end,
             "filename" := Str(MeshPath(level.mesh.value + ext))])
  }

  /** Level `i` can be written: it has a mesh and `maxdlist[i]` exists. */
  predicate LevelOk(levels: seq<LodLevel>, maxd: Value, i: nat)
    requires i < |levels|
  {
    levels[i].mesh.Some? && PyIndex(maxd, i).Ok?
  }

  /** What level `i` raises when it cannot be written: the mesh name is
      read first, then `maxdlist[i]`. */
  function LevelError(levels: seq<LodLevel>, maxd: Value, i: nat): PyError
    requires i < |levels| && !LevelOk(levels, maxd, i)
  {
    if levels[i].mesh.None? then AttributeError else PyIndex(maxd, i).error
  }

  /** The `lod` list: one entry per level, in order; the first level that
      cannot be written raises. */
  method LodList(levels: seq<LodLevel>, maxd: Value, w: MeshFormats) returns (r: Result<seq<Value>>)
    ensures r.Ok? <==> forall i :: 0 <= i < |levels| ==> LevelOk(levels, maxd, i)
    ensures r.Ok? ==> |r.value| == |levels|
    ensures r.Ok? ==> forall i :: 0 <= i < |levels| ==>
                        LevelOk(levels, maxd, i) && r.value[i] == LodEntry(levels[i], PyIndex(maxd, i).value, MeshExtension(w))
    ensures r.Err? ==> exists i :: 0 <= i < |levels| && !LevelOk(levels, maxd, i)
                                   && (forall j :: 0 <= j < i ==> LevelOk(levels, maxd, j))
                                   && r.error == LevelError(levels, maxd, i)
  {
    var lodlist: seq<Value> := [];
    var i := 0;
    while i < |levels|
      invariant 0 <= i <= |levels|
      invariant |lodlist| == i
      invariant forall j :: 0 <= j < i ==>
                  LevelOk(levels, maxd, j) && lodlist[j] == LodEntry(levels[j], PyIndex(maxd, j).value, MeshExtension(w))
    {
      if levels[i].mesh.None? {
        assert !LevelOk(levels, maxd, i);
        return Err(AttributeError);
      }
      var filename := levels[i].mesh.value;
      if w.useObj {
        filename := filename + ".obj";
      } else if w.useBobj {
        filename := filename + ".bobj";
      } else if w.useStl {
        filename := filename + ".stl";
      } else if w.useDae {
        filename := filename + ".dae";
      } else {
        filename := filename + ".obj";
      }
      var end := PyIndex(maxd, i);
      if end.Err? {
        assert !LevelOk(levels, maxd, i);
        return Err(end.error);
      }
      lodlist := lodlist + [Dict(map["start" := Float(levels[i].distance), "end" := end.value,
                                     "filename" := Str(MeshPath(filename))])];
      i := i + 1;
    }
    return Ok(lodlist);
  }

  /** `deriveVisual(obj)`, with the results of the geometry and pose
      helpers and the world's mesh formats as inputs. */
  method DeriveVisual(obj: Obj, nameOf: NameFn, geometry: Value, pose: Value, w: MeshFormats)
    returns (r: Result<Props>)
    ensures var init := InitSpec(nameOf(obj, Some("material")), obj.custom, Some("visual"), Text("geometry"));
            var levelsOk := obj.lodLevels != [] ==>
                              forall i :: 0 <= i < |obj.lodLevels| ==> LevelOk(obj.lodLevels, MaxDistances(obj), i);
            && (r.Ok? <==> init.Ok? && levelsOk)
            && (init.Err? ==> r == Err(init.error))
            && (init.Ok? && !levelsOk ==>
                  r.Err? && exists i :: 0 <= i < |obj.lodLevels| && !LevelOk(obj.lodLevels, MaxDistances(obj), i)
                                        && (forall j :: 0 <= j < i ==> LevelOk(obj.lodLevels, MaxDistances(obj), j))
                                        && r.error == LevelError(obj.lodLevels, MaxDistances(obj), i))
            && (r.Ok? ==> r.value.Keys == init.value.Keys + {"geometry", "pose"}
                            + (if obj.lodLevels != [] then {"lod"} else {}))
            && (r.Ok? ==> r.value["geometry"] == geometry && r.value["pose"] == pose)
            && (r.Ok? ==> forall k :: k in init.value && k !in {"geometry", "pose", "lod"}
                            ==> r.value[k] == init.value[k])
            && (r.Ok? && obj.lodLevels == [] && "lod" in init.value ==> r.value["lod"] == init.value["lod"])
            && (r.Ok? && obj.lodLevels != [] ==>
                  r.value["lod"].List? && |r.value["lod"].items| == |obj.lodLevels|
                  && forall i :: 0 <= i < |obj.lodLevels| ==>
                       LevelOk(obj.lodLevels, MaxDistances(obj), i) && r.value["lod"].items[i]
                       == LodEntry(obj.lodLevels[i], PyIndex(MaxDistances(obj), i).value, MeshExtension(w)))
  {
    var visual :- InitObjectProperties(obj, nameOf, Some("visual"), Text("geometry"));
    visual := visual["geometry" := geometry];
    visual := visual["pose" := pose];
    if obj.lodLevels != [] {
      var maxdlist := MaxDistances(obj);
      var lodlist :- LodList(obj.lodLevels, maxdlist, w);
      visual := visual["lod" := List(lodlist)];
    }
    return Ok(visual);
  }
}
