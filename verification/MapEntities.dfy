/** Map points and keyframes: the objects a map holds by reference. */
module MapEntities {
  import opened RigidMotion

  datatype Option<+T> = None | Some(value: T)

  /** A 3D point with its reverse observations, at most one feature per keyframe. */
  class MapPoint {
    const id: nat
    const descriptorBytes: nat
    var obs: map<nat, nat>
    var pos: Vec3

    constructor (id: nat, pos: Vec3, descriptorBytes: nat)
      ensures this.id == id && this.pos == pos && obs == map[] && this.descriptorBytes == descriptorBytes
    {
      this.id := id;
      this.pos := pos;
      this.descriptorBytes := descriptorBytes;
      obs := map[];
    }

    method AddObservation(keyframe: nat, feature: nat) returns (added: bool)
      modifies this`obs
      ensures added <==> keyframe !in old(obs)
      ensures obs == if added then old(obs)[keyframe := feature] else old(obs)
    {
      if keyframe in obs {
        return false;
      }
      obs := obs[keyframe := feature];
      return true;
    }

    method RemoveObservation(keyframe: nat, feature: nat) returns (removed: bool)
      modifies this`obs
      ensures removed <==> keyframe in old(obs) && old(obs)[keyframe] == feature
      ensures obs == if removed then old(obs) - {keyframe} else old(obs)
    {
      removed := keyframe in obs && obs[keyframe] == feature;
      if removed {
        obs := obs - {keyframe};
      }
    }

    predicate HasObservation(keyframe: nat, feature: nat)
      reads this
    {
      keyframe in obs && obs[keyframe] == feature
    }

    function FeatureIndex(keyframe: nat): (r: Option<nat>)
      reads this
      ensures r.Some? <==> exists f :: HasObservation(keyframe, f)
      ensures r.Some? ==> HasObservation(keyframe, r.value)
    {
      if keyframe in obs then
        assert HasObservation(keyframe, obs[keyframe]);
        Some(obs[keyframe])
      else None
    }
  }

  /** A frame: feature slots, pose, and the image buffers a budget may release. */
  class Frame {
    const id: nat
    const keypoints: nat
    const descriptorBytes: nat
    var slots: seq<MapPoint?>
    var pose: SE3
    var imageBytes: nat
    var isKeyframe: bool

    constructor (id: nat, keypoints: nat, slots: seq<MapPoint?>, pose: SE3,
                 imageBytes: nat, descriptorBytes: nat)
      ensures this.id == id && this.keypoints == keypoints && this.slots == slots
      ensures this.pose == pose && this.imageBytes == imageBytes && !isKeyframe
      ensures this.descriptorBytes == descriptorBytes
    {
      this.id := id;
      this.keypoints := keypoints;
      this.slots := slots;
      this.pose := pose;
      this.imageBytes := imageBytes;
      this.descriptorBytes := descriptorBytes;
      isKeyframe := false;
    }

    method ReleaseImages()
      modifies this`imageBytes
      ensures imageBytes == 0
    {
      imageBytes := 0;
    }
  }
}
