/** Collision groups: the 16-bit mask `deriveCollision` packs from an
    object's collision groups, and the mask of a link, which combines the
    masks of its collisions with a bitwise or. */
module Collision {

  import opened PyValues
  import opened Scene
  import opened Properties

  function Pow2(n: nat): (r: nat)
    ensures r >= 1
  {
    if n == 0 then 1 else 2 * Pow2(n - 1)
  }

  /** Bit `i` of `x` in two's complement, as Python's integers have them
      (Dafny's `/` and `%` by 2 floor, like Python's). */
  predicate Bit(x: int, i: nat)
    decreases i
  {
    if i == 0 then x % 2 == 1 else Bit(x / 2, i - 1)
  }

  // ---------------------------------------------------------------------
  // Packing the collision groups (deriveCollision)

  /** `''.join(['1' if group else '0' for group in groups])`. */
  function Digits(groups: seq<bool>): (s: string)
    ensures |s| == |groups|
    ensures forall k :: 0 <= k < |s| ==> s[k] == if groups[k] then '1' else '0'
  {
    if groups == [] then "" else [if groups[0] then '1' else '0'] + Digits(groups[1..])
  }

  /** `s[::-1]`. */
  function Reverse(s: string): (r: string)
    ensures |r| == |s|
  {
    if s == [] then [] else Reverse(s[1..]) + [s[0]]
  }

  predicate IsBinary(s: string)
  {
    forall k :: 0 <= k < |s| ==> s[k] == '0' || s[k] == '1'
  }

  /** The number a string of binary digits denotes, most significant first. */
  function BinaryValue(s: string): nat
    requires IsBinary(s)
  {
    if s == [] then 0
    else 2 * BinaryValue(s[..|s| - 1]) + (if s[|s| - 1] == '1' then 1 else 0)
  }

  /** `int(s, 2)` for a string of binary digits: the empty string raises. */
  function IntBase2(s: string): Result<nat>
    requires IsBinary(s)
  {
    if s == [] then Err(ValueError) else Ok(BinaryValue(s))
  }

  /** `int(''.join(['1' if group else '0' for group in groups[:16]])[::-1], 2)`. */
  function PackGroups(groups: seq<bool>): Result<nat>
  {
    var first := if |groups| <= 16 then groups else groups[..16];
    assert IsBinary(Reverse(Digits(first))) by { ReverseDigitsBinary(first); }
    IntBase2(Reverse(Digits(first)))
  }

  lemma {:induction false} ReverseDigitsBinary(groups: seq<bool>)
    ensures IsBinary(Reverse(Digits(groups)))
  {
    if groups != [] {
      ReverseDigitsBinary(groups[1..]);
    }
  }

  /** The groups read as a binary number, group `k` of weight `2^k`. */
  function Weight(groups: seq<bool>): nat
  {
    if groups == [] then 0 else (if groups[0] then 1 else 0) + 2 * Weight(groups[1..])
  }

  /** Reversing the digits puts group 0 last, in the place of weight 1. */
  lemma {:induction false} ReversedDigitsValue(groups: seq<bool>)
    ensures IsBinary(Reverse(Digits(groups)))
    ensures BinaryValue(Reverse(Digits(groups))) == Weight(groups)
  {
    ReverseDigitsBinary(groups);
    if groups != [] {
      ReversedDigitsValue(groups[1..]);
      var s := Reverse(Digits(groups));
      assert Digits(groups)[1..] == Digits(groups[1..]);
      assert s == Reverse(Digits(groups[1..])) + [if groups[0] then '1' else '0'];
      assert s[..|s| - 1] == Reverse(Digits(groups[1..]));
    }
  }

  /** Bit `i` of the weight is group `i`. */
  lemma {:induction false} WeightBits(groups: seq<bool>, i: nat)
    ensures Bit(Weight(groups), i) <==> i < |groups| && groups[i]
  {
    if groups == [] {
      ZeroHasNoBits(i);
    } else if i > 0 {
      WeightBits(groups[1..], i - 1);
      assert Weight(groups) / 2 == Weight(groups[1..]);
    }
  }

  lemma {:induction false} ZeroHasNoBits(i: nat)
    ensures !Bit(0, i)
  {
    if i > 0 {
      ZeroHasNoBits(i - 1);
    }
  }

  lemma {:induction false} WeightBound(groups: seq<bool>)
    ensures Weight(groups) < Pow2(|groups|)
  {
    if groups != [] {
      WeightBound(groups[1..]);
    }
  }

  /** The packed mask has bit `i` set exactly when collision group `i` is
      on, for `i < 16`; later groups are ignored, so the mask is below
      `2^16`. An empty list of groups makes `int('', 2)` raise. */
  lemma PackGroupsBits(groups: seq<bool>)
    ensures PackGroups(groups).Err? <==> groups == []
    ensures PackGroups(groups).Err? ==> PackGroups(groups).error == ValueError
    ensures PackGroups(groups).Ok? ==> PackGroups(groups).value < Pow2(16)
    ensures PackGroups(groups).Ok? ==>
              forall i: nat :: Bit(PackGroups(groups).value, i) <==> i < 16 && i < |groups| && groups[i]
  {
    var first := if |groups| <= 16 then groups else groups[..16];
    ReversedDigitsValue(first);
    WeightBound(first);
    if |first| < 16 {
      PowMonotone(|first|, 16);
    }
    forall i: nat
      ensures Bit(Weight(first), i) <==> i < 16 && i < |groups| && groups[i]
    {
      WeightBits(first, i);
    }
  }

  lemma {:induction false} PowMonotone(m: nat, n: nat)
    requires m <= n
    ensures Pow2(m) <= Pow2(n)
  {
    if m < n {
      PowMonotone(m, n - 1);
    }
  }

  // ---------------------------------------------------------------------
  // Combining the masks of a link's collisions (buildModelDictionary)

  /** Python's `a | b` on integers, bit by bit from the lowest. */
  function Or(a: int, b: int): int
    decreases Abs(a) + Abs(b)
  {
    if a == 0 || b == -1 then b
    else if b == 0 || a == -1 then a
    else 2 * Or(a / 2, b / 2) + (if a % 2 == 1 || b % 2 == 1 then 1 else 0)
  }

  function Abs(x: int): nat
  {
    if x < 0 then -x else x
  }

  lemma {:induction false} MinusOneHasAllBits(i: nat)
    ensures Bit(-1, i)
  {
    if i > 0 {
      MinusOneHasAllBits(i - 1);
    }
  }

  /** Bit `i` of `a | b` is set exactly when it is set in `a` or in `b`. */
  lemma {:induction false} OrBits(a: int, b: int, i: nat)
    decreases Abs(a) + Abs(b)
    ensures Bit(Or(a, b), i) <==> Bit(a, i) || Bit(b, i)
  {
    if a == 0 {
      ZeroHasNoBits(i);
    } else if b == -1 {
      MinusOneHasAllBits(i);
    } else if b == 0 {
      ZeroHasNoBits(i);
    } else if a == -1 {
      MinusOneHasAllBits(i);
    } else if i > 0 {
      OrBits(a / 2, b / 2, i - 1);
      assert Or(a, b) / 2 == Or(a / 2, b / 2);
    }
  }

  /** The or of two masks below `2^n` is below `2^n`. */
  lemma {:induction false} OrBound(a: int, b: int, n: nat)
    requires 0 <= a < Pow2(n) && 0 <= b < Pow2(n)
    decreases n
    ensures 0 <= Or(a, b) < Pow2(n)
  {
    if a != 0 && b != 0 {
      OrBound(a / 2, b / 2, n - 1);
    }
  }

  /** A collision's dictionary sets bit `i` of the link's mask. */
  predicate SetsBit(collision: Props, i: nat)
  {
    "bitmask" in collision && collision["bitmask"].Int? && Bit(collision["bitmask"].i, i)
  }

  /** A collision's `bitmask` entry that `|` cannot take. */
  predicate BadBitmask(collision: Props)
  {
    "bitmask" in collision && !collision["bitmask"].Int?
  }

  /** A collision's `bitmask` entry is an integer in `[0, 2^16)`, as
      packing collision groups produces. */
  predicate SixteenBitMask(collision: Props)
  {
    "bitmask" in collision ==> collision["bitmask"].Int? && 0 <= collision["bitmask"].i < Pow2(16)
  }

  /** `mask` has exactly the bits that the collisions named in `done` set. */
  ghost predicate MaskOf(mask: int, collisions: map<string, Props>, done: set<string>)
    requires done <= collisions.Keys
  {
    forall i: nat :: Bit(mask, i) <==> exists n :: n in done && SetsBit(collisions[n], i)
  }

  lemma MaskOfNone(collisions: map<string, Props>)
    ensures MaskOf(0, collisions, {})
  {
    ZeroBits();
  }

  /** One more collision: its integer mask is or-ed in, a collision
      without a mask leaves the link's mask as it was. */
  lemma MaskStep(mask: int, collisions: map<string, Props>, done: set<string>, name: string)
    requires done <= collisions.Keys && name in collisions
    requires MaskOf(mask, collisions, done)
    requires !BadBitmask(collisions[name])
    ensures "bitmask" in collisions[name] ==>
              MaskOf(Or(mask, collisions[name]["bitmask"].i), collisions, done + {name})
    ensures "bitmask" !in collisions[name] ==> MaskOf(mask, collisions, done + {name})
  {
    var c := collisions[name];
    if "bitmask" in c {
      forall i: nat
        ensures Bit(Or(mask, c["bitmask"].i), i) <==>
                  exists n :: n in done + {name} && SetsBit(collisions[n], i)
      {
        OrBits(mask, c["bitmask"].i, i);
      }
    }
  }

  /** The `collision_bitmask` of a link: the or of the `bitmask` of each of
      its collisions, skipping collisions without one (the KeyError the
      loop catches). A `bitmask` that is not an integer raises. */
  method LinkBitmask(collisions: map<string, Props>) returns (r: Result<int>)
    ensures r.Err? <==> exists n :: n in collisions && BadBitmask(collisions[n])
    ensures r.Err? ==> r.error == TypeError
    ensures r.Ok? ==> MaskOf(r.value, collisions, collisions.Keys)
    ensures (forall n :: n in collisions ==> "bitmask" !in collisions[n]) ==> r == Ok(0)
    ensures (forall n :: n in collisions ==> SixteenBitMask(collisions[n])) ==>
              r.Ok? && 0 <= r.value < Pow2(16)
  {
    var bitmask := 0;
    var done: set<string> := {};
    MaskOfNone(collisions);
    while done != collisions.Keys
      invariant done <= collisions.Keys
      invariant forall n :: n in done ==> !BadBitmask(collisions[n])
      invariant MaskOf(bitmask, collisions, done)
      invariant (forall n :: n in done ==> "bitmask" !in collisions[n]) ==> bitmask == 0
      invariant (forall n :: n in done ==> SixteenBitMask(collisions[n])) ==> 0 <= bitmask < Pow2(16)
      decreases collisions.Keys - done
    {
      assert collisions.Keys - done != {} by {
        assert done < collisions.Keys;
      }
      var collname :| collname in collisions.Keys - done;
      var collision := collisions[collname];
      if "bitmask" in collision {
        var entry := collision["bitmask"];
        if !entry.Int? {
          return Err(TypeError);
        }
        MaskStep(bitmask, collisions, done, collname);
        if 0 <= bitmask < Pow2(16) && 0 <= entry.i < Pow2(16) {
          OrBound(bitmask, entry.i, 16);
        }
        bitmask := Or(bitmask, entry.i);
      } else {
        MaskStep(bitmask, collisions, done, collname);
      }
      done := done + {collname};
    }
    return Ok(bitmask);
  }

  lemma ZeroBits()
    ensures forall i: nat :: !Bit(0, i)
  {
    forall i: nat
      ensures !Bit(0, i)
    {
      ZeroHasNoBits(i);
    }
  }

  /** The routed properties of a collision object. */
  ghost function CollisionInit(obj: Obj, nameOf: NameFn): Result<Props>
  {
    InitSpec(nameOf(obj, Some("material")), obj.custom, Some("collision"), Text("geometry"))
  }

  /** `deriveCollision(obj)`, with the results of the geometry and pose
      helpers as inputs: the routed properties, then `geometry` and `pose`,
      then the packed `bitmask` when the object has a rigid body (without
      one, the AttributeError is caught and `bitmask` keeps whatever the
      routing stored). */
  method DeriveCollision(obj: Obj, nameOf: NameFn, geometry: Value, pose: Value)
    returns (r: Result<Props>)
    ensures CollisionInit(obj, nameOf).Err? ==> r == Err(CollisionInit(obj, nameOf).error)
    ensures CollisionInit(obj, nameOf).Ok? && obj.collisionGroups == Some([]) ==> r == Err(ValueError)
    ensures r.Ok? <==> CollisionInit(obj, nameOf).Ok? && obj.collisionGroups != Some([])
    ensures r.Ok? ==> r.value.Keys == CollisionInit(obj, nameOf).value.Keys + {"geometry", "pose"}
                        + (if obj.collisionGroups.Some? then {"bitmask"} else {})
    ensures r.Ok? ==> forall k :: k in CollisionInit(obj, nameOf).value && k !in {"geometry", "pose", "bitmask"}
                        ==> r.value[k] == CollisionInit(obj, nameOf).value[k]
    ensures r.Ok? ==> r.value["geometry"] == geometry && r.value["pose"] == pose
    ensures r.Ok? && obj.collisionGroups.Some? ==>
              r.value["bitmask"] == Int(PackGroups(obj.collisionGroups.value).value)
    ensures r.Ok? && obj.collisionGroups.None? && "bitmask" in CollisionInit(obj, nameOf).value ==>
              r.value["bitmask"] == CollisionInit(obj, nameOf).value["bitmask"]
  {
    ghost var init := CollisionInit(obj, nameOf);
    var collision :- InitObjectProperties(obj, nameOf, Some("collision"), Text("geometry"));
    assert init == Ok(collision);
    collision := collision["geometry" := geometry];
    collision := collision["pose" := pose];
    if obj.collisionGroups.Some? {
      PackGroupsBits(obj.collisionGroups.value);
      var bitmask :- PackGroups(obj.collisionGroups.value);
      collision := collision["bitmask" := Int(bitmask)];
    }
    return Ok(collision);
  }
}
