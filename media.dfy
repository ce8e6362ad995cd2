/** Stand-ins for the two pieces of the outside world the shot loops touch: an
    open OpenCV capture (`cv2.VideoCapture`) and the output directory on disk. */
module Media {

  /** An open capture. Whether a frame decodes is not something this model can
      compute, so it is given as a fixed oracle; every read is logged in readLog so that
      contracts can say which frames were read, in which order. */
  class VideoCapture {
    const decodable: nat -> bool
    var position: nat
    ghost var readLog: seq<nat>

    constructor (decodable: nat -> bool)
      ensures this.decodable == decodable
      ensures position == 0 && readLog == []
    {
      this.decodable := decodable;
      position := 0;
      readLog := [];
    }

    /** `cap.set(cv2.CAP_PROP_POS_FRAMES, frame)` */
    method Seek(frame: nat)
      modifies this`position
      ensures position == frame
    {
      position := frame;
    }

    /** `success, frame = cap.read()`: decodes the frame at the current position.
        The returned frame is represented by its index; on success the position
        moves past it. */
    method Read() returns (success: bool, frame: nat)
      modifies this
      ensures success == decodable(old(position))
      ensures frame == old(position)
      ensures readLog == old(readLog) + [old(position)]
      ensures position == if success then old(position) + 1 else old(position)
    {
      success := decodable(position);
      frame := position;
      readLog := readLog + [position];
      if success {
        position := position + 1;
      }
    }
  }

  /** The output directory: whether it exists, and the image files in it, each
      file name mapped to the index of the video frame whose image it holds. */
  class OutputFolder {
    var present: bool
    var files: map<string, nat>

    /** A directory that does not exist holds no files. */
    ghost predicate Valid()
      reads this
    {
      !present ==> files == map[]
    }

    constructor (present: bool, files: map<string, nat>)
      requires !present ==> files == map[]
      ensures Valid()
      ensures this.present == present && this.files == files
    {
      this.present := present;
      this.files := files;
    }

    /** `os.path.exists(dir)` */
    method Exists() returns (b: bool)
      ensures b == present
    {
      b := present;
    }

    /** `shutil.rmtree(dir)`: the directory and everything in it are gone. */
    method RemoveTree()
      requires present
      modifies this
      ensures Valid()
      ensures !present && files == map[]
    {
      present := false;
      files := map[];
    }

    /** `os.makedirs(dir)`, which raises when the directory already exists; both
        callers check first. */
    method MakeDirs()
      requires !present
      modifies this
      ensures Valid()
      ensures present && files == map[]
    {
      present := true;
      files := map[];
    }

    /** `cv2.imwrite(os.path.join(dir, name), frame, ...)`: creates the file, or
        replaces the image of a file of that name. */
    method WriteImage(name: string, frame: nat)
      requires present
      modifies this
      ensures Valid()
      ensures present && files == old(files)[name := frame]
    {
      files := files[name := frame];
    }
  }
}
