/** Stored poses: a map from pose name to the joint values of that pose. */
module Poses {

  import opened PyValues

  /** `poses[pose_name] = new_pose`: the named pose is replaced (or added)
      and every other pose stays as it was. */
  function StorePose(poses: map<string, Value>, poseName: string, newPose: Value): (r: map<string, Value>)
    ensures r.Keys == poses.Keys + {poseName}
    ensures r[poseName] == newPose
    ensures forall p :: p in poses && p != poseName ==> r[p] == poses[p]
  {
    poses[poseName := newPose]
  }

  /** Storing a pose under a name again overwrites the earlier one. */
  lemma StoreOverwrites(poses: map<string, Value>, poseName: string, first: Value, second: Value)
    ensures StorePose(StorePose(poses, poseName, first), poseName, second) == StorePose(poses, poseName, second)
  {
  }
}
