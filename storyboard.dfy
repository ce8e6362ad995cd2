/** The command-line storyboard, `run_storyboard` in main.py: create the output
    directory only if it is missing, then for every detected scene read its very
    first frame and, when that read succeeds, save the image. No catalog is
    built, and files already in the directory stay unless a new image of the
    same name replaces them. */
module Storyboard {
  import opened Naming
  import opened Shots
  import opened Media

  /** Each scene is read at its start frame, with no stabilisation offset. */
  const StartOffset: nat := 0

  /** What the directory holds after a run that found `prior` in it. */
  function StoryboardContents(prior: map<string, nat>, scenes: seq<Scene>, decodable: nat -> bool): map<string, nat> {
    prior + WrittenFiles(scenes, decodable, StartOffset)
  }

  /** After a run, scene i's file holds its start frame when that frame decodes;
      otherwise the run left that name as it found it. */
  lemma {:induction false} StoryboardFileAt(prior: map<string, nat>, scenes: seq<Scene>, decodable: nat -> bool, i: nat)
    requires i < |scenes|
    ensures var after := StoryboardContents(prior, scenes, decodable);
      var name := ShotFileName(i + 1);
      && (decodable(scenes[i].startFrame) ==> name in after && after[name] == scenes[i].startFrame)
      && (!decodable(scenes[i].startFrame) ==>
            (name in after <==> name in prior) && (name in prior ==> after[name] == prior[name]))
  {
    WrittenFilesAt(scenes, decodable, StartOffset, i);
  }

  /** Nothing found in the directory is removed; a file found there changes only
      if this run wrote an image of that name, and every name the run adds is the
      file of a scene whose start frame decodes. */
  lemma {:induction false} StoryboardKeeps(prior: map<string, nat>, scenes: seq<Scene>, decodable: nat -> bool, name: string)
    ensures var after := StoryboardContents(prior, scenes, decodable);
      && (name in prior ==> name in after)
      && (name in prior && name !in WrittenFiles(scenes, decodable, StartOffset) ==> after[name] == prior[name])
      && (name in after && name !in prior ==>
            && ParseShotFileName(name).Some?
            && 1 <= ParseShotFileName(name).value <= |scenes|
            && name == ShotFileName(ParseShotFileName(name).value)
            && decodable(scenes[ParseShotFileName(name).value - 1].startFrame))
  {
    if name in WrittenFiles(scenes, decodable, StartOffset) {
      WrittenFilesOnly(scenes, decodable, StartOffset, name);
    }
  }

  /** A run adds at most one new file per decodable scene. */
  lemma {:induction false} StoryboardGrowth(prior: map<string, nat>, scenes: seq<Scene>, decodable: nat -> bool)
    ensures |StoryboardContents(prior, scenes, decodable).Keys - prior.Keys| <= Successes(scenes, decodable, StartOffset)
  {
    var written := WrittenFiles(scenes, decodable, StartOffset);
    WrittenFilesCount(scenes, decodable, StartOffset);
    assert StoryboardContents(prior, scenes, decodable).Keys - prior.Keys <= written.Keys;
    SubsetCardinality(StoryboardContents(prior, scenes, decodable).Keys - prior.Keys, written.Keys);
  }

  lemma {:induction false} SubsetCardinality<T>(a: set<T>, b: set<T>)
    requires a <= b
    ensures |a| <= |b|
  {
    assert b == a + (b - a);
  }

  /** `run_storyboard`, given the detector's scene list and an open capture. The
      directory ends up holding what it held before plus this run's images; the
      frames read are exactly the scenes' start frames. */
  method RunStoryboard(folder: OutputFolder, cap: VideoCapture, scenes: seq<Scene>)
    requires folder.Valid()
    modifies folder, cap
    ensures folder.Valid() && folder.present
    ensures folder.files == StoryboardContents(old(folder.files), scenes, cap.decodable)
    ensures old(folder.files).Keys <= folder.files.Keys
    ensures cap.readLog == old(cap.readLog) + TargetFrames(scenes, StartOffset)
    ensures cap.position == EndPosition(old(cap.position), scenes, cap.decodable, StartOffset)
  {
    var present := folder.Exists();
    if !present {
      folder.MakeDirs();
    }
    for i := 0 to |scenes|
      invariant folder.Valid() && folder.present
      invariant folder.files == StoryboardContents(old(folder.files), scenes[..i], cap.decodable)
      invariant cap.readLog == old(cap.readLog) + TargetFrames(scenes[..i], StartOffset)
      invariant cap.position == EndPosition(old(cap.position), scenes[..i], cap.decodable, StartOffset)
    {
      assert scenes[..i + 1][..i] == scenes[..i];
      var startFrame := scenes[i].startFrame;
      cap.Seek(startFrame);
      var success, frame := cap.Read();
      if success {
        var imgName := ShotFileName(i + 1);
        folder.WriteImage(imgName, frame);
      }
    }
    assert scenes[..|scenes|] == scenes;
  }
}
