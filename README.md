# Phobos robot dictionary, modelled in Dafny

Phobos is a Blender add-on for robot models. Its module
`src/robotdictionary.py` turns the objects of a Blender scene into the
*robot dictionary*, a nested dictionary of links, joints, motors, visuals,
collisions, materials, groups and chains. This project models the core of
that module:

- **Custom-property routing** (`initObjectProperties`). It sorts an object's
  custom properties into the object's dictionary. With a phobostype `T`:
  - a key that contains `T/` and has exactly one `/` lands at top level,
    with every `T/` cut out;
  - a key `x/a/b` that contains `T/` and has exactly two `/` lands in the
    category dictionary `$a`, named after its second segment, under `b`;
  - a foreign key `a/b` lands in `$a`, unless `a` is in `ignoretypes`;
  - every other key is dropped.

  Without a phobostype, every property is copied as it is. The membership
  tests follow the source: `T/` is searched for anywhere in the key, not
  only at its start. When `ignoretypes` is the string `'geometry'`, the
  `in` test is a substring test. A later property overwrites an earlier
  one. Writing into a `$a` entry that holds something other than a
  dictionary raises.
- **Collision bitmasks**. The 16-bit mask packed from a rigid body's
  collision groups, and a link's `collision_bitmask`, the bitwise or of its
  collisions' masks.
- **The material table** (`collectMaterials`). It counts how many visuals
  use each material as their first material.
- **The joint dictionary and its limits** (`deriveJoint`), and **the motor
  dictionary** (`deriveMotor`).
- **Kinematic chains** (`deriveChainEntry`). A chain is a walk up the
  parent relation to the first ancestor whose `startChain` holds the
  chain's name.
- **Levels of detail** (`deriveVisual`), **group skeletons**
  (`deriveGroupEntry`) and **the stored-pose map update** in `storePose`.

The model's conventions:

- **Values.** Python values are the datatype `Value`, and dictionaries are
  `map<string, Value>`.
- **Exceptions.** An exception that escapes a function is an `Err` of
  `Result`. An exception the source catches is modelled as the path it
  takes when caught.
- **Objects and the scene.** A host object is a record `Obj`. The scene is
  a sequence of objects in which every parent comes before its children.
  This is how the model says that the parent relation has no cycles.
- **Host and helper calls.** Calls into the host and into helper modules
  become inputs of the model:
  - object naming, as a function parameter;
  - the effective parent, the geometry, the pose and the joint constraints,
    as values;
  - the mesh-format switches of the world, as a record;
  - `deriveMaterial`, as a function parameter.
- **Methods and specifications.** Operations that loop or update a
  dictionary step by step are methods. Each method is proved equal to a
  specification function, or to a contract that states its result
  outright. Lemmas relate those specifications to independent
  descriptions, for example:
  - last write wins;
  - bit `i` is set exactly when;
  - the chain closes at the first ancestor that.

## Model

| member | source | states |
|---|---|---|
| `Scene.Get` | src/robotdictionary.py:200 | `obj[key]` finds a value exactly when some custom property has that key, and the value found is that property's |
| `PyStr.OneSeparator` | src/robotdictionary.py:407-410 | for a key `a/b`, `T/` occurs in it exactly when `a` ends with `T`; `replace(T/, '')` then leaves `a` without that ending followed by `b` |
| `Properties.InitObjectProperties` | src/robotdictionary.py:385-422 | the loop builds exactly the dictionary of the fold specification: `name`, then each custom property routed and written in order, or the `TypeError` of the first failing write |
| `Properties.RouteNoSlash` | src/robotdictionary.py:406 | with a phobostype, a key without `/` is dropped |
| `Properties.RouteOneSlash` | src/robotdictionary.py:406-421 | a key `a/b` lands at top level as `a` minus its ending `T`, followed by `b`, when `a` ends with `T`; otherwise it is dropped if `a` is ignored, else it lands in `$a` under `b` |
| `Properties.RouteTwoSlashes` | src/robotdictionary.py:407-415 | a key `a/b/c` that contains `T/` lands in `$b` under `c`; one that does not is dropped |
| `Properties.RouteDeep` | src/robotdictionary.py:406-421 | a key with three or more `/` is always dropped |
| `Properties.RouteTopShape` | src/robotdictionary.py:407-410 | a property that lands at top level had exactly one `/` and contained `T/`; its key is the key with every `T/` removed |
| `Properties.IgnoredStringIsSubstringTest` | src/robotdictionary.py:418 | with `ignoretypes='geometry'` the categories `metr` and the empty string are ignored; with the list `['geometry']` they are not |
| `Properties.LastRoutedIsLast` | src/robotdictionary.py:403-421 | the reference "last property routed to a place" is found exactly when some property goes there, and it is the one at the highest index |
| `Properties.DroppedPropertyIsInert` | src/robotdictionary.py:403-421 | inserting a property that is dropped, anywhere in the list, leaves the resulting dictionary unchanged |
| `Properties.TopKeyLastWins` | src/robotdictionary.py:410 | a top-level key holds the value of the last property routed to it, or its earlier value when none is |
| `Properties.CategoryLastWins` | src/robotdictionary.py:411-421 | `$c` exists exactly when something nests under it; it is a dictionary, and entry `s` holds the last value routed to `$c`/`s` |
| `Properties.NoErrorWithoutDollarTopKeys` | src/robotdictionary.py:412-421 | writes fail only if some property is routed to a `$` key at top level |
| `Properties.UntypedNeverFails` | src/robotdictionary.py:399-401 | without a phobostype, no write fails |
| `Properties.UntypedCopiesEveryProperty` | src/robotdictionary.py:398-401 | without a phobostype, the keys are `name` and every custom key; each holds its last property's value, so a custom `name` overrides the exported name |
| `Properties.NameAlwaysPresent` | src/robotdictionary.py:398-422 | a built dictionary always holds `name`: the exported name, or the last property routed to `name` |
| `Properties.DollarKeyCollision` | src/robotdictionary.py:407-415 | `T/$a` followed by `T/a/b` with a non-dictionary value raises `TypeError` |
| `Collision.PackGroupsBits` | src/robotdictionary.py:302 | the packed mask has bit `i` set exactly when group `i` is on and `i < 16`; it is below `2^16`; an empty group list raises `ValueError` |
| `Collision.ReversedDigitsValue` | src/robotdictionary.py:302 | reading the reversed digit string in base 2 gives group `k` the weight `2^k` |
| `Collision.OrBits` | src/robotdictionary.py:669 | bit `i` of `a \| b` is set exactly when it is set in `a` or in `b`, for all integers, negative ones included |
| `Collision.OrBound` | src/robotdictionary.py:669 | the or of two masks in `[0, 2^n)` stays in `[0, 2^n)` |
| `Collision.MaskStep` | src/robotdictionary.py:667-671 | one more collision: its mask is or-ed in, and a collision without one leaves the link's mask as it was |
| `Collision.LinkBitmask` | src/robotdictionary.py:664-672 | the link's mask has exactly the bits some collision's `bitmask` has; it is 0 without masks; it stays below `2^16` when every mask does; a non-integer mask raises `TypeError` |
| `Collision.DeriveCollision` | src/robotdictionary.py:289-305 | the routed properties with `geometry`, `pose` and, with a rigid body, the packed `bitmask`; other keys unchanged; errors from routing or from an empty group list |
| `Materials.UsersPositive` | src/robotdictionary.py:68-76 | a material has at least one user exactly when some visual with materials has it first |
| `Materials.UsersAppend` | src/robotdictionary.py:68-76 | user counts over a concatenation add up |
| `Materials.UsersStep` | src/robotdictionary.py:68-76 | counting one more object adds one exactly when it uses the material first |
| `Materials.CollectMaterials` | src/robotdictionary.py:60-77 | the keys are exactly the first materials of visuals that have materials; each entry is the derived dictionary with `users` set to that material's count; an empty first slot raises `AttributeError` |
| `Kinematics.MoveLimits` | src/robotdictionary.py:150-162 | `lower`/`upper` only for two bounds; `maxvelocity`/`maxeffort` moved into `limits` as `velocity`/`effort` and removed; `limits` written only when non-empty; other keys unchanged |
| `Kinematics.DeriveJoint` | src/robotdictionary.py:133-168 | the joint dictionary is the routed properties with parent, child and axis, then its limits moved; it fails exactly when routing fails |
| `Kinematics.JointContents` | src/robotdictionary.py:144-162 | key by key: `parent`, `child`, `axis` as given, no `maxvelocity` or `maxeffort`, `limits` as collected, every other routed key as it was |
| `Kinematics.VelocityLimitFromProperty` | src/robotdictionary.py:155-157 | the last `joint/maxvelocity` property ends up as `limits['velocity']` |
| `Kinematics.MotorJoint` | src/robotdictionary.py:200 | the motor's `joint` is the object's `joint/name` property when it has one, else the object's name |
| `Kinematics.DeriveMotor` | src/robotdictionary.py:188-214 | `None` when only `name` was routed or `type` is missing; `PID` copies the joint's `lower`/`upper` (a missing one gives `None`; a non-dictionary `limits` raises); `DC` sets 0 and `maxSpeed` (missing gives `None`); otherwise the properties with `joint` |
| `Properties.NothingRoutedKeepsName` | src/robotdictionary.py:403-421 | when no property is routed anywhere, the fold leaves the dictionary as it was |
| `Kinematics.NoMotorWithoutMotorProperties` | src/robotdictionary.py:198-214 | an object none of whose properties is routed to the motor gets no motor |
| `Chains.CloseChain` | src/robotdictionary.py:481-496 | the inner walk returns what the recursive chain specification gives: the chain up to the first starting ancestor, `None` at a root, or the error of a failing `in` test |
| `Chains.ChainsOfStep` | src/robotdictionary.py:480-498 | one more chain name: its closed chain is appended, an unclosed one is skipped, an error stops the loop |
| `Chains.DeriveChainEntry` | src/robotdictionary.py:471-499 | one chain per name `endChain` yields, in order, unclosed chains skipped; without `endChain` it raises `UnboundLocalError` |
| `Chains.ChainFollowsAncestors` | src/robotdictionary.py:482-496 | a chain closes at the first ancestor whose `startChain` holds its name; its elements are the host names on the way up from the end object, then that ancestor's exported name, which is also `start` |
| `Chains.UnclosedChain` | src/robotdictionary.py:485-488 | when no ancestor starts the chain (including an end object without parent), it is omitted |
| `Visual.MeshExtension` | src/robotdictionary.py:272-281 | the extension is that of the first switched-on format in the order obj, bobj, stl, dae, and `.obj` when none is on |
| `Visual.DefaultEnds` | src/robotdictionary.py:268 | in the default end list, level `i` ends where level `i + 1` starts and the last level ends at 100 |
| `Visual.LodList` | src/robotdictionary.py:269-283 | one entry per level, in order, with `start`, `end` = `maxdlist[i]` and the mesh file name; the first level without a mesh or without an end raises its error |
| `Visual.DeriveVisual` | src/robotdictionary.py:253-286 | the routed properties with `geometry`, `pose` and, when there are levels, `lod`; other keys unchanged; a routing error escapes as it is, otherwise the first level that cannot be written raises `AttributeError` without a mesh or the error of `maxdlist[i]` |
| `Groups.DeriveGroupEntry` | src/robotdictionary.py:454-468 | the loop returns the skeletons of the group's links, in order |
| `Groups.GroupLinksAppend` | src/robotdictionary.py:463-467 | the skeletons of a concatenation are the concatenated skeletons |
| `Groups.GroupLinksAreTheLinks` | src/robotdictionary.py:463-467 | every skeleton is that of a link of the group, and every link of the group has its skeleton |
| `Poses.StorePose` | src/robotdictionary.py:530 | the named pose is set to the new pose, and every other stored pose stays as it was |
| `Poses.StoreOverwrites` | src/robotdictionary.py:530 | storing under the same name twice keeps only the second pose |

## Left out

- Dictionary insertion order. Python dictionaries keep it; the model's maps do not. The order of keys in the exported files is therefore not modelled.
- Numeric equality across types (`1 == 1.0`, `True == 1`). `Value` has no booleans, and values compare structurally.
- `PyValues.PyIter` raises `TypeError` for a dictionary, where Python iterates over its keys. An `endChain` property holding a dictionary is therefore not modelled.
- `Chains.DeriveChainEntry` requires the parent relation to be numbered parents first. The host guarantees an acyclic parent relation, and the model does not check it.
- `joints.deriveJointType(obj, adjust=True)` (src/robotdictionary.py:140-141) changes the host object. That call is not part of this model.
- Inputs instead of calls:
  - naming, the effective parent, geometry, pose and joint constraints become parameters;
  - `deriveMaterial` is the parameter `derive`, and its fields are not modelled;
  - `bpy.data.worlds[0]` is the `MeshFormats` record.
- Printing. The warnings the source prints are left out: unclosed chains, motors that do not fit their joint, non-link group members.
- `storePose`, `loadPose`, `get_poses` and `deriveStoredPoses` (src/robotdictionary.py:502-596) do YAML and text-block I/O and switch Blender modes. Only the map update at line 530 is modelled.
- `buildModelDictionary` (src/robotdictionary.py:599-718) walks the scene, reads the time and rounds floats. Only its link bitmask loop is modelled.
- `deriveDictEntry` is left out: it only forwards to the functions above.
- These functions are left out: `deriveLink`, `deriveKinematics`, `deriveInertial`, `deriveSensor`, `deriveController`, `deriveLight`, `deriveApproxsphere`, `deriveJointState` and `deriveMaterial`. They copy host data or compute with floats, matrices and quaternions.
- Host failures that the model's inputs cannot express are left out, such as an object without mesh data. Level meshes and material slots are optional, and their absence raises `AttributeError`.
- `Visual.MeshPath` follows POSIX `os.path.join`. The Windows form is not modelled.
