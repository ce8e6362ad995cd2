/** The web app's shot extraction, `process_video_to_shots` in app.py: reset the
    output directory, then for every detected scene read the frame three frames
    after its start and, when that read succeeds, save the image and add a shot
    record to the catalog. */
module App {
  import opened Naming
  import opened Shots
  import opened Media

  const OutputDir: string := "extracted_shots"

  /** Frames skipped after a cut before the representative frame is taken. */
  const StabilizationOffset: nat := 3

  /** The path stored in the record of shot `id`: `extracted_shots/shot_XXX.jpg`. */
  function ShotPath(id: nat): string {
    JoinPath(OutputDir, ShotFileName(id))
  }

  /** The catalog a run returns: one record per scene whose target frame
      decodes, in scene order, each carrying the scene's 1-based index. */
  function Catalog(scenes: seq<Scene>, decodable: nat -> bool): (shots: seq<ShotRecord>)
    ensures |shots| <= |scenes|
    ensures forall k :: 0 <= k < |shots| ==> 1 <= shots[k].id <= |scenes|
  {
    if scenes == [] then []
    else
      var i := |scenes| - 1;
      var earlier := Catalog(scenes[..i], decodable);
      if decodable(TargetFrame(scenes[i], StabilizationOffset))
      then earlier + [ShotRecord(i + 1, ShotPath(i + 1), scenes[i].startTimecode)]
      else earlier
  }

  /** Each record stands for a scene whose target frame decoded; its path names
      the file of its own id and its time is that scene's start timecode. */
  lemma {:induction false} CatalogRecord(scenes: seq<Scene>, decodable: nat -> bool, k: nat)
    requires k < |Catalog(scenes, decodable)|
    ensures var r := Catalog(scenes, decodable)[k];
      && decodable(scenes[r.id - 1].startFrame + StabilizationOffset)
      && r.path == ShotPath(r.id)
      && r.time == scenes[r.id - 1].startTimecode
    decreases |scenes|
  {
    var i := |scenes| - 1;
    var prefix := scenes[..i];
    var earlier := Catalog(prefix, decodable);
    if k < |earlier| {
      CatalogRecord(prefix, decodable, k);
      var r := earlier[k];
      assert Catalog(scenes, decodable)[k] == r;
      assert prefix[r.id - 1] == scenes[r.id - 1];
    } else {
      assert Catalog(scenes, decodable)[k] == ShotRecord(i + 1, ShotPath(i + 1), scenes[i].startTimecode);
    }
  }

  /** Running over one more scene keeps every earlier record where it was. */
  lemma {:induction false} CatalogExtends(scenes: seq<Scene>, decodable: nat -> bool, k: nat)
    requires scenes != [] && k < |Catalog(scenes[..|scenes| - 1], decodable)|
    ensures k < |Catalog(scenes, decodable)|
    ensures Catalog(scenes, decodable)[k] == Catalog(scenes[..|scenes| - 1], decodable)[k]
  {}

  /** Records are in scene order: ids strictly increase along the catalog. */
  lemma {:induction false} CatalogIdsIncrease(scenes: seq<Scene>, decodable: nat -> bool, j: nat, k: nat)
    requires j < k < |Catalog(scenes, decodable)|
    ensures Catalog(scenes, decodable)[j].id < Catalog(scenes, decodable)[k].id
    decreases |scenes|
  {
    var prefix := scenes[..|scenes| - 1];
    var earlier := Catalog(prefix, decodable);
    CatalogExtends(scenes, decodable, j);
    if k < |earlier| {
      CatalogIdsIncrease(prefix, decodable, j, k);
      CatalogExtends(scenes, decodable, k);
    }
  }

  /** A scene whose target frame decodes has its record in the catalog. */
  lemma {:induction false} CatalogHasDecodable(scenes: seq<Scene>, decodable: nat -> bool, i: nat)
    requires i < |scenes| && decodable(scenes[i].startFrame + StabilizationOffset)
    ensures ShotRecord(i + 1, ShotPath(i + 1), scenes[i].startTimecode) in Catalog(scenes, decodable)
    decreases |scenes|
  {
    var last := |scenes| - 1;
    var prefix := scenes[..last];
    if i < last {
      CatalogHasDecodable(prefix, decodable, i);
      assert prefix[i] == scenes[i];
      var r := ShotRecord(i + 1, ShotPath(i + 1), scenes[i].startTimecode);
      var k :| 0 <= k < |Catalog(prefix, decodable)| && Catalog(prefix, decodable)[k] == r;
      CatalogExtends(scenes, decodable, k);
    }
  }

  /** The record of scene i, with id i + 1, its own file path and its start
      timecode, is in the catalog if and only if its target frame decodes. */
  lemma {:induction false} CatalogHasScene(scenes: seq<Scene>, decodable: nat -> bool, i: nat)
    requires i < |scenes|
    ensures ShotRecord(i + 1, ShotPath(i + 1), scenes[i].startTimecode) in Catalog(scenes, decodable)
            <==> decodable(scenes[i].startFrame + StabilizationOffset)
  {
    var shots := Catalog(scenes, decodable);
    var r := ShotRecord(i + 1, ShotPath(i + 1), scenes[i].startTimecode);
    if decodable(scenes[i].startFrame + StabilizationOffset) {
      CatalogHasDecodable(scenes, decodable, i);
    } else if r in shots {
      var k :| 0 <= k < |shots| && shots[k] == r;
      CatalogRecord(scenes, decodable, k);
      assert false;
    }
  }

  /** The number in a record's file name is the record's id, and the file lies
      in the output directory. */
  lemma {:induction false} CatalogPathNamesId(scenes: seq<Scene>, decodable: nat -> bool, k: nat)
    requires k < |Catalog(scenes, decodable)|
    ensures var r := Catalog(scenes, decodable)[k];
      && |r.path| > |OutputDir|
      && r.path[..|OutputDir|] == OutputDir
      && r.path[|OutputDir|] == '/'
      && ParseShotFileName(r.path[|OutputDir| + 1..]) == Some(r.id)
  {
    var r := Catalog(scenes, decodable)[k];
    CatalogRecord(scenes, decodable, k);
    JoinPathSplits(OutputDir, ShotFileName(r.id));
    ShotFileNameRoundTrip(r.id);
  }

  /** The catalog has one record per decodable scene. */
  lemma {:induction false} CatalogLength(scenes: seq<Scene>, decodable: nat -> bool)
    ensures |Catalog(scenes, decodable)| == Successes(scenes, decodable, StabilizationOffset)
    decreases |scenes|
  {
    if scenes != [] {
      CatalogLength(scenes[..|scenes| - 1], decodable);
    }
  }

  /** The catalog has as many records as the run writes files, for every scene
      list, including the empty catalog. */
  lemma {:induction false} CatalogCountsFiles(scenes: seq<Scene>, decodable: nat -> bool)
    ensures |Catalog(scenes, decodable)| == |WrittenFiles(scenes, decodable, StabilizationOffset)|
  {
    CatalogLength(scenes, decodable);
    WrittenFilesCount(scenes, decodable, StabilizationOffset);
  }

  /** The file of every record exists and holds that record's target frame. */
  lemma {:induction false} CatalogMatchesFiles(scenes: seq<Scene>, decodable: nat -> bool, k: nat)
    requires k < |Catalog(scenes, decodable)|
    ensures var r := Catalog(scenes, decodable)[k];
      && ShotFileName(r.id) in WrittenFiles(scenes, decodable, StabilizationOffset)
      && WrittenFiles(scenes, decodable, StabilizationOffset)[ShotFileName(r.id)]
         == scenes[r.id - 1].startFrame + StabilizationOffset
  {
    var r := Catalog(scenes, decodable)[k];
    CatalogRecord(scenes, decodable, k);
    WrittenFilesAt(scenes, decodable, StabilizationOffset, r.id - 1);
  }

  /** A video with a single shot whose frame reads gives the one record
      `{id: 1, path: "extracted_shots/shot_001.jpg", time: <its start>}`. */
  lemma {:induction false} CatalogOfOneShot(s: Scene, decodable: nat -> bool)
    requires decodable(s.startFrame + StabilizationOffset)
    ensures Catalog([s], decodable) == [ShotRecord(1, "extracted_shots/shot_001.jpg", s.startTimecode)]
  {
    assert [s][..0] == [];
    Pad3ThreeDigits(1);
    assert Pad3(1) == "001";
    assert ShotFileName(1) == "shot_001.jpg";
    assert ShotPath(1) == "extracted_shots/shot_001.jpg";
  }

  /** When the first of two scenes fails to read, the only record keeps the
      second scene's id 2: ids follow scene positions and leave a gap. */
  lemma {:induction false} CatalogSkipsFailedId(s1: Scene, s2: Scene, decodable: nat -> bool)
    requires !decodable(s1.startFrame + StabilizationOffset)
    requires decodable(s2.startFrame + StabilizationOffset)
    ensures Catalog([s1, s2], decodable) == [ShotRecord(2, "extracted_shots/shot_002.jpg", s2.startTimecode)]
  {
    assert [s1, s2][..1] == [s1];
    assert [s1][..0] == [];
    Pad3ThreeDigits(2);
    assert Pad3(2) == "002";
    assert ShotFileName(2) == "shot_002.jpg";
    assert ShotPath(2) == "extracted_shots/shot_002.jpg";
  }

  /** `process_video_to_shots`, given the detector's scene list and an open
      capture. Afterwards the directory holds exactly this run's files, the
      frames read are the scenes' start frames plus three, and the catalog is
      Catalog(scenes). */
  method ProcessVideoToShots(folder: OutputFolder, cap: VideoCapture, scenes: seq<Scene>)
    returns (shots: seq<ShotRecord>)
    requires folder.Valid()
    modifies folder, cap
    ensures folder.Valid() && folder.present
    ensures folder.files == WrittenFiles(scenes, cap.decodable, StabilizationOffset)
    ensures cap.readLog == old(cap.readLog) + TargetFrames(scenes, StabilizationOffset)
    ensures cap.position == EndPosition(old(cap.position), scenes, cap.decodable, StabilizationOffset)
    ensures shots == Catalog(scenes, cap.decodable)
  {
    var present := folder.Exists();
    if present {
      folder.RemoveTree();
    }
    folder.MakeDirs();
    shots := [];
    for i := 0 to |scenes|
      invariant folder.Valid() && folder.present
      invariant folder.files == WrittenFiles(scenes[..i], cap.decodable, StabilizationOffset)
      invariant cap.readLog == old(cap.readLog) + TargetFrames(scenes[..i], StabilizationOffset)
      invariant cap.position == EndPosition(old(cap.position), scenes[..i], cap.decodable, StabilizationOffset)
      invariant shots == Catalog(scenes[..i], cap.decodable)
    {
      assert scenes[..i + 1][..i] == scenes[..i];
      var target := scenes[i].startFrame + StabilizationOffset;
      cap.Seek(target);
      var success, frame := cap.Read();
      if success {
        var imgName := ShotFileName(i + 1);
        var imgPath := JoinPath(OutputDir, imgName);
        folder.WriteImage(imgName, frame);
        shots := shots + [ShotRecord(i + 1, imgPath, scenes[i].startTimecode)];
      }
    }
    assert scenes[..|scenes|] == scenes;
  }
}
