/** What both shot loops share: the scene list the detector hands them, the frame
    each scene is read at, and the image files a run writes. */
module Shots {
  import opened Naming

  /** One detected scene: its first frame and the human-readable timecode of that
      frame, as the scene detector reports them. */
  datatype Scene = Scene(startFrame: nat, startTimecode: string)

  /** One entry of the shot catalog: `{"id": ..., "path": ..., "time": ...}`. */
  datatype ShotRecord = ShotRecord(id: nat, path: string, time: string)

  /** The frame read for a scene: its start frame moved on by a fixed offset. */
  function TargetFrame(s: Scene, offset: nat): nat {
    s.startFrame + offset
  }

  /** The frames a run reads, one per scene, in scene order. */
  function TargetFrames(scenes: seq<Scene>, offset: nat): (frames: seq<nat>)
    ensures |frames| == |scenes|
    ensures forall i :: 0 <= i < |scenes| ==> frames[i] == scenes[i].startFrame + offset
  {
    if scenes == [] then []
    else TargetFrames(scenes[..|scenes| - 1], offset) + [TargetFrame(scenes[|scenes| - 1], offset)]
  }

  /** Where the capture stands after a run that started at `start`: after the
      last scene's read, one past its target frame if that read succeeded,
      otherwise on it; where it started if there were no scenes. */
  function EndPosition(start: nat, scenes: seq<Scene>, decodable: nat -> bool, offset: nat): nat {
    if scenes == [] then start
    else
      var target := TargetFrame(scenes[|scenes| - 1], offset);
      if decodable(target) then target + 1 else target
  }

  /** The image files a run over `scenes` writes: for scene i whose target frame
      decodes, the file named after i + 1 holding that frame. */
  function WrittenFiles(scenes: seq<Scene>, decodable: nat -> bool, offset: nat): map<string, nat> {
    if scenes == [] then map[]
    else
      var i := |scenes| - 1;
      var previous := WrittenFiles(scenes[..i], decodable, offset);
      var target := TargetFrame(scenes[i], offset);
      if decodable(target) then previous[ShotFileName(i + 1) := target] else previous
  }

  /** The last scene of a run touches no file but its own. */
  lemma {:induction false} WrittenFilesOther(scenes: seq<Scene>, decodable: nat -> bool, offset: nat, name: string)
    requires scenes != [] && name != ShotFileName(|scenes|)
    ensures var previous := WrittenFiles(scenes[..|scenes| - 1], decodable, offset);
      && (name in WrittenFiles(scenes, decodable, offset) <==> name in previous)
      && (name in previous ==> WrittenFiles(scenes, decodable, offset)[name] == previous[name])
  {}

  /** The number of scenes whose target frame decodes. */
  function Successes(scenes: seq<Scene>, decodable: nat -> bool, offset: nat): (n: nat)
    ensures n <= |scenes|
  {
    if scenes == [] then 0
    else
      var i := |scenes| - 1;
      Successes(scenes[..i], decodable, offset) + (if decodable(TargetFrame(scenes[i], offset)) then 1 else 0)
  }

  /** Every written file is named after a scene whose target frame decodes, and
      holds that frame. */
  lemma {:induction false} WrittenFilesOnly(scenes: seq<Scene>, decodable: nat -> bool, offset: nat, name: string)
    requires name in WrittenFiles(scenes, decodable, offset)
    ensures ParseShotFileName(name).Some?
    ensures var id := ParseShotFileName(name).value;
      && 1 <= id <= |scenes|
      && name == ShotFileName(id)
      && decodable(TargetFrame(scenes[id - 1], offset))
      && WrittenFiles(scenes, decodable, offset)[name] == TargetFrame(scenes[id - 1], offset)
    decreases |scenes|
  {
    var i := |scenes| - 1;
    var prefix := scenes[..i];
    if decodable(TargetFrame(scenes[i], offset)) && name == ShotFileName(i + 1) {
      ShotFileNameRoundTrip(i + 1);
    } else {
      WrittenFilesOnly(prefix, decodable, offset, name);
    }
  }

  /** Scene i gets a file, named after i + 1 and holding its target frame, if and
      only if that frame decodes. */
  lemma {:induction false} WrittenFilesAt(scenes: seq<Scene>, decodable: nat -> bool, offset: nat, i: nat)
    requires i < |scenes|
    ensures ShotFileName(i + 1) in WrittenFiles(scenes, decodable, offset)
            <==> decodable(TargetFrame(scenes[i], offset))
    ensures ShotFileName(i + 1) in WrittenFiles(scenes, decodable, offset)
            ==> WrittenFiles(scenes, decodable, offset)[ShotFileName(i + 1)] == TargetFrame(scenes[i], offset)
    decreases |scenes|
  {
    var last := |scenes| - 1;
    if i < last {
      var prefix := scenes[..last];
      WrittenFilesAt(prefix, decodable, offset, i);
      assert prefix[i] == scenes[i];
      ShotFileNameInjective(i + 1, last + 1);
      WrittenFilesOther(scenes, decodable, offset, ShotFileName(i + 1));
    } else {
      WrittenFilesLast(scenes, decodable, offset);
    }
  }

  /** The last scene's file is new to the run: no earlier scene wrote one of that
      name. */
  lemma {:induction false} WrittenFilesLast(scenes: seq<Scene>, decodable: nat -> bool, offset: nat)
    requires scenes != []
    ensures ShotFileName(|scenes|) in WrittenFiles(scenes, decodable, offset)
            <==> decodable(TargetFrame(scenes[|scenes| - 1], offset))
    ensures ShotFileName(|scenes|) in WrittenFiles(scenes, decodable, offset)
            ==> WrittenFiles(scenes, decodable, offset)[ShotFileName(|scenes|)] == TargetFrame(scenes[|scenes| - 1], offset)
  {
    var prefix := scenes[..|scenes| - 1];
    var name := ShotFileName(|scenes|);
    if name in WrittenFiles(prefix, decodable, offset) {
      WrittenFilesOnly(prefix, decodable, offset, name);
      ShotFileNameRoundTrip(|scenes|);
      assert false;
    }
  }

  /** No two written files share a name, so there is one file per decodable
      scene and never more files than scenes. */
  lemma {:induction false} WrittenFilesCount(scenes: seq<Scene>, decodable: nat -> bool, offset: nat)
    ensures |WrittenFiles(scenes, decodable, offset)| == Successes(scenes, decodable, offset)
    ensures |WrittenFiles(scenes, decodable, offset)| <= |scenes|
    decreases |scenes|
  {
    if scenes != [] {
      var i := |scenes| - 1;
      var prefix := scenes[..i];
      WrittenFilesCount(prefix, decodable, offset);
      if ShotFileName(i + 1) in WrittenFiles(prefix, decodable, offset) {
        WrittenFilesOnly(prefix, decodable, offset, ShotFileName(i + 1));
        ShotFileNameRoundTrip(i + 1);
        assert false;
      }
    }
  }

  /** A file written for an earlier scene is still there, unchanged, once the run
      has gone through all scenes: later scenes never overwrite it. */
  lemma {:induction false} WrittenFilesPrefix(scenes: seq<Scene>, decodable: nat -> bool, offset: nat, j: nat, name: string)
    requires j <= |scenes|
    requires name in WrittenFiles(scenes[..j], decodable, offset)
    ensures name in WrittenFiles(scenes, decodable, offset)
    ensures WrittenFiles(scenes, decodable, offset)[name] == WrittenFiles(scenes[..j], decodable, offset)[name]
    decreases |scenes|
  {
    if j < |scenes| {
      var i := |scenes| - 1;
      var prefix := scenes[..i];
      assert prefix[..j] == scenes[..j];
      WrittenFilesPrefix(prefix, decodable, offset, j, name);
      WrittenFilesOnly(scenes[..j], decodable, offset, name);
      ShotFileNameInjective(ParseShotFileName(name).value, |scenes|);
      WrittenFilesOther(scenes, decodable, offset, name);
    } else {
      assert scenes[..j] == scenes;
    }
  }
}
