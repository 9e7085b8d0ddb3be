/** Joints and motors: the joint dictionary with its limits, and the motor
    dictionary built from a joint's `motor/...` properties. */
module Kinematics {

  import opened PyValues
  import opened Scene
  import opened Properties

  /** `if axis:` for the axis the joint-constraint helper returns. */
  predicate AxisGiven(axis: Option<seq<Value>>)
  {
    axis.Some? && axis.value != []
  }

  /** `minmax is not None and len(minmax) == 2`: a prismatic or revolute
      joint, whose lower and upper limits are taken. */
  predicate TwoLimits(minmax: Option<seq<Value>>)
  {
    minmax.Some? && |minmax.value| == 2
  }

  /** The keys `deriveJoint` sets or removes itself; every other key keeps
      what routing stored. */
  predicate JointKey(k: string)
  {
    k in {"parent", "child", "axis", "limits", "maxvelocity", "maxeffort"}
  }

  /** `deriveJoint(obj)`, with the effective parent and the results of the
      joint-constraint helper (`axis`, `minmax`) as inputs. The routed
      `maxvelocity` and `maxeffort` move into `limits` as `velocity` and
      `effort`; `limits` is written only when it has an entry. */
  method DeriveJoint(obj: Obj, nameOf: NameFn, effectiveParent: Obj,
                     axis: Option<seq<Value>>, minmax: Option<seq<Value>>)
    returns (r: Result<Props>)
    ensures var init := InitSpec(nameOf(obj, Some("material")), obj.custom, Some("joint"),
                                 Names(["link", "motor"]));
            && (r.Err? <==> init.Err?)
            && (r.Err? ==> r.error == init.error)
            && (r.Ok? ==> JointSpec(r.value, init.value, nameOf(effectiveParent, None),
                                    nameOf(obj, None), axis, minmax))
  {
    var props :- InitObjectProperties(obj, nameOf, Some("joint"), Names(["link", "motor"]));
    ghost var init := props;
    props := props["parent" := Str(nameOf(effectiveParent, None))];
    props := props["child" := Str(nameOf(obj, None))];
    if AxisGiven(axis) {
      props := props["axis" := List(axis.value)];
    }
    props := MoveLimits(props, minmax);
    return Ok(props);
  }

  /** The limits part of `deriveJoint`: `lower` and `upper` from `minmax`,
      `maxvelocity` and `maxeffort` moved into `limits` as `velocity` and
      `effort`; `limits` is written only when it has an entry, so a
      `limits` entry already there survives otherwise. */
  method MoveLimits(props: Props, minmax: Option<seq<Value>>) returns (joint: Props)
    ensures LimitsMoved(joint, props, minmax)
  {
    joint := props;
    var limits: map<string, Value> := map[];
    if minmax.Some? {
      if |minmax.value| == 2 {
        limits := limits["lower" := minmax.value[0]];
        limits := limits["upper" := minmax.value[1]];
      }
    }
    if "maxvelocity" in joint {
      limits := limits["velocity" := joint["maxvelocity"]];
      joint := joint - {"maxvelocity"};
    }
    if "maxeffort" in joint {
      limits := limits["effort" := joint["maxeffort"]];
      joint := joint - {"maxeffort"};
    }
    assert limits != map[] <==> TwoLimits(minmax) || "maxvelocity" in props || "maxeffort" in props by {
      if TwoLimits(minmax) { assert "lower" in limits; }
      if "maxvelocity" in props { assert "velocity" in limits; }
      if "maxeffort" in props { assert "effort" in limits; }
    }
    if limits != map[] {
      joint := joint["limits" := Dict(limits)];
    }
  }

  /** `joint` is `props` with its limits moved. */
  ghost predicate LimitsMoved(joint: Props, props: Props, minmax: Option<seq<Value>>)
  {
    var moved := TwoLimits(minmax) || "maxvelocity" in props || "maxeffort" in props;
    && "maxvelocity" !in joint && "maxeffort" !in joint
    && ("limits" in joint <==> moved || "limits" in props)
    && (!moved && "limits" in props ==> joint["limits"] == props["limits"])
    && (moved ==> "limits" in joint && joint["limits"].Dict? && LimitsSpec(joint["limits"].entries, props, minmax))
    && (forall k :: k !in {"limits", "maxvelocity", "maxeffort"} ==> (k in joint <==> k in props))
    && (forall k :: k !in {"limits", "maxvelocity", "maxeffort"} && k in joint ==> joint[k] == props[k])
  }

  /** The routed properties with the joint's `parent`, `child` and, when
      given, `axis`. */
  function Connected(init: Props, parent: string, child: string, axis: Option<seq<Value>>): Props
  {
    var p := init["parent" := Str(parent)]["child" := Str(child)];
    if AxisGiven(axis) then p["axis" := List(axis.value)] else p
  }

  /** What the joint dictionary holds, given the routed properties `init`. */
  ghost predicate JointSpec(joint: Props, init: Props, parent: string, child: string,
                            axis: Option<seq<Value>>, minmax: Option<seq<Value>>)
  {
    LimitsMoved(joint, Connected(init, parent, child, axis), minmax)
  }

  /** The joint dictionary key by key: `parent`, `child` and `axis` as
      given, no `maxvelocity` or `maxeffort` left, the limits collected
      from `minmax` and from the routed properties, and every other routed
      property as it was. */
  lemma JointContents(joint: Props, init: Props, parent: string, child: string,
                      axis: Option<seq<Value>>, minmax: Option<seq<Value>>)
    requires JointSpec(joint, init, parent, child, axis, minmax)
    ensures "parent" in joint && joint["parent"] == Str(parent)
    ensures "child" in joint && joint["child"] == Str(child)
    ensures AxisGiven(axis) ==> "axis" in joint && joint["axis"] == List(axis.value)
    ensures !AxisGiven(axis) ==> ("axis" in joint <==> "axis" in init)
    ensures !AxisGiven(axis) && "axis" in init ==> joint["axis"] == init["axis"]
    ensures "maxvelocity" !in joint && "maxeffort" !in joint
    ensures var moved := TwoLimits(minmax) || "maxvelocity" in init || "maxeffort" in init;
            && ("limits" in joint <==> moved || "limits" in init)
            && (!moved && "limits" in init ==> joint["limits"] == init["limits"])
            && (moved ==> "limits" in joint && joint["limits"].Dict?
                          && LimitsSpec(joint["limits"].entries, init, minmax))
    ensures forall k :: !JointKey(k) ==> (k in joint <==> k in init)
    ensures forall k :: !JointKey(k) && k in joint ==> joint[k] == init[k]
  {
    var named := Connected(init, parent, child, axis);
    assert "maxvelocity" in named <==> "maxvelocity" in init;
    assert "maxeffort" in named <==> "maxeffort" in init;
    assert "limits" in named <==> "limits" in init;
    assert "maxvelocity" in init ==> named["maxvelocity"] == init["maxvelocity"];
    assert "maxeffort" in init ==> named["maxeffort"] == init["maxeffort"];
    assert "limits" in init ==> named["limits"] == init["limits"];
  }

  /** The entries of `limits`. */
  ghost predicate LimitsSpec(limits: map<string, Value>, init: Props, minmax: Option<seq<Value>>)
  {
    && limits.Keys == (if TwoLimits(minmax) then {"lower", "upper"} else {})
                      + (if "maxvelocity" in init then {"velocity"} else {})
                      + (if "maxeffort" in init then {"effort"} else {})
    && (TwoLimits(minmax) ==> limits["lower"] == minmax.value[0] && limits["upper"] == minmax.value[1])
    && ("maxvelocity" in init ==> limits["velocity"] == init["maxvelocity"])
    && ("maxeffort" in init ==> limits["effort"] == init["maxeffort"])
  }

  /** A property `joint/maxvelocity` of the object ends up as the joint's
      velocity limit: the last such property wins, as routing has it. */
  lemma VelocityLimitFromProperty(obj: Obj, nameOf: NameFn, effectiveParent: Obj,
                                  axis: Option<seq<Value>>, minmax: Option<seq<Value>>,
                                  joint: Props, v: Value)
    requires LastRouted(Some("joint"), Names(["link", "motor"]), obj.custom, Top("maxvelocity")) == Some(v)
    requires var init := InitSpec(nameOf(obj, Some("material")), obj.custom, Some("joint"),
                                  Names(["link", "motor"]));
             init.Ok? && JointSpec(joint, init.value, nameOf(effectiveParent, None),
                                   nameOf(obj, None), axis, minmax)
    ensures "limits" in joint && joint["limits"].Dict?
    ensures "velocity" in joint["limits"].entries && joint["limits"].entries["velocity"] == v
  {
    var ig := Names(["link", "motor"]);
    var p0 := map["name" := Str(nameOf(obj, Some("material")))];
    var init := InitSpec(nameOf(obj, Some("material")), obj.custom, Some("joint"), ig).value;
    JointContents(joint, init, nameOf(effectiveParent, None), nameOf(obj, None), axis, minmax);
    forall j | 0 <= j < |obj.custom|
      ensures !NestsUnder(Routed(Some("joint"), ig, obj.custom[j].0), "maxvelocity")
    {
      var route := Routed(Some("joint"), ig, obj.custom[j].0);
      if route.Nested? {
        assert ("$" + route.category)[0] == '$';
      }
    }
    TopKeyLastWins(p0, Some("joint"), ig, obj.custom, "maxvelocity");
  }

  /** `deriveMotor(obj, joint)`: `None` when the object has no property
      routed to the motor (only its name), or when a key the motor type
      needs is missing (the KeyError is caught); otherwise the routed
      properties with `joint` and, for `PID` and `DC` motors, the value
      range. */
  method DeriveMotor(obj: Obj, nameOf: NameFn, joint: Props) returns (r: Result<Option<Props>>)
    ensures var init := InitSpec(nameOf(obj, Some("material")), obj.custom, Some("motor"),
                                 Names(["link", "joint"]));
            && (init.Err? ==> r == Err(init.error))
            && (init.Ok? ==> MotorSpec(r, init.value, obj, joint))
  {
    var props :- InitObjectProperties(obj, nameOf, Some("motor"), Names(["link", "joint"]));
    if |props| > 1 {
      var jointName := Get(obj.custom, "joint/name");
      props := props["joint" := if jointName.Some? then jointName.value else Str(obj.name)];
      if "type" !in props {
        return Ok(None);
      }
      if props["type"] == Str("PID") {
        if "limits" in joint {
          var limits := joint["limits"];
          if !limits.Dict? {
            return Err(TypeError);
          }
          if "lower" !in limits.entries {
            return Ok(None);
          }
          props := props["minValue" := limits.entries["lower"]];
          if "upper" !in limits.entries {
            return Ok(None);
          }
          props := props["maxValue" := limits.entries["upper"]];
        }
      } else if props["type"] == Str("DC") {
        props := props["minValue" := Int(0)];
        if "maxSpeed" !in props {
          return Ok(None);
        }
        props := props["maxValue" := props["maxSpeed"]];
      }
      return Ok(Some(props));
    } else {
      return Ok(None);
    }
  }

  /** The value of `joint` in the motor dictionary: the object's
      `joint/name` property, or else the object's own name. */
  function MotorJoint(obj: Obj): (v: Value)
    ensures (exists k :: 0 <= k < |obj.custom| && obj.custom[k].0 == "joint/name") ==>
              exists k :: 0 <= k < |obj.custom| && obj.custom[k] == ("joint/name", v)
    ensures (forall k :: 0 <= k < |obj.custom| ==> obj.custom[k].0 != "joint/name") ==>
              v == Str(obj.name)
  {
    match Get(obj.custom, "joint/name")
    case Some(v) => v
    case None => Str(obj.name)
  }

  /** What `deriveMotor` returns, given the routed properties `init`. */
  ghost predicate MotorSpec(r: Result<Option<Props>>, init: Props, obj: Obj, joint: Props)
  {
    var props := init["joint" := MotorJoint(obj)];
    var isPID := "type" in init && init["type"] == Str("PID");
    var isDC := "type" in init && init["type"] == Str("DC");
    var limits := if "limits" in joint then joint["limits"] else Dict(map[]);
    if |init| <= 1 || "type" !in init then
      r == Ok(None)
    else if isPID && "limits" in joint && !limits.Dict? then
      r == Err(TypeError)
    else if isPID && "limits" in joint && !("lower" in limits.entries && "upper" in limits.entries) then
      r == Ok(None)
    else if isPID && "limits" in joint then
      r == Ok(Some(props["minValue" := limits.entries["lower"]]["maxValue" := limits.entries["upper"]]))
    else if isDC && "maxSpeed" !in init then
      r == Ok(None)
    else if isDC then
      r == Ok(Some(props["minValue" := Int(0)]["maxValue" := init["maxSpeed"]]))
    else
      r == Ok(Some(props))
  }

  /** An object without properties routed to the motor has no motor. */
  lemma NoMotorWithoutMotorProperties(obj: Obj, nameOf: NameFn, joint: Props,
                                      r: Result<Option<Props>>)
    requires forall j :: 0 <= j < |obj.custom| ==>
               Routed(Some("motor"), Names(["link", "joint"]), obj.custom[j].0) == Drop
    requires InitSpec(nameOf(obj, Some("material")), obj.custom, Some("motor"),
                      Names(["link", "joint"])).Ok?
    requires MotorSpec(r, InitSpec(nameOf(obj, Some("material")), obj.custom, Some("motor"),
                                   Names(["link", "joint"])).value, obj, joint)
    ensures r == Ok(None)
  {
    NothingRoutedKeepsName(map["name" := Str(nameOf(obj, Some("material")))], Some("motor"),
                           Names(["link", "joint"]), obj.custom);
  }
}
