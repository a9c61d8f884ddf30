/**
 * pi/camera.js: an endless capture loop. Each pass takes 30 photos, one every 6 seconds, then
 * records one 30-second video into a file of the videos folder whose name comes from the shared
 * sequence-number rule. The camera drivers are foreign code; here each call into them is an
 * abstract action in a trace, and the waits are trace entries carrying their duration.
 */
module Camera {
  import opened Wrappers
  import opened JsSort
  import opened SequenceNaming

  const VideosFolder: string := "/home/pi/videos"
  const PhotoInterval: nat := 6000
  const VideoDuration: nat := 1000 * 30
  /** The bound of the photo `for` loop. */
  const PhotosPerCycle: nat := 30

  /** One step of the capture loop as seen from outside. */
  datatype Action =
    | Photo                   // `takePhoto()`
    | Pause(ms: nat)          // awaiting a `setTimeout` of `ms` milliseconds
    | VideoStart(path: string) // `startVideo(filePath)`
    | VideoStop               // `stopVideo()`

  // ---------------------------------------------------------------------------
  // The video file name

  /** The bare name `video-N.h264` that the listing of the videos folder shows for number N. */
  function VideoName(n: int): string
  {
    SequenceName("video", n, ".h264")
  }

  /** `getVideoFilename()`: `${VIDEOS_FOLDER}/video-${N}.h264` with N the next sequence number. */
  function VideoFilename(files: seq<string>): string
  {
    VideosFolder + "/" + VideoName(NextSequence(files))
  }

  /** The bare name of the video for number N is read back as N. */
  lemma VideoNameReadsBack(n: nat)
    ensures SequenceNumber(VideoName(n)) == Some(n)
  {
    SequenceNumberRoundTrip("video", n, ".h264");
  }

  /**
   * The path names a number N >= 0 that is 0 exactly when no listed name yields a number, and
   * otherwise one more than the listed number with the greatest decimal text.
   */
  lemma VideoFilenameSpec(files: seq<string>)
    ensures var n := NextSequence(files);
      && VideoFilename(files) == VideosFolder + "/" + VideoName(n)
      && n >= 0
      && SequenceNumber(VideoName(n)) == Some(n)
      && (n == 0 <==> Parsed(files) == [])
      && (n > 0 ==> n - 1 in Parsed(files) && forall x :: x in Parsed(files) ==> KeyLe(x, n - 1))
  {
    NextSequenceSpec(files);
    VideoNameReadsBack(NextSequence(files));
  }

  /** From video-9.h264 and video-10.h264 the chooser picks video-10.h264, a name already taken. */
  lemma NineAndTenGiveTakenName(files: seq<string>)
    requires files == [VideoName(9), VideoName(10)]
    ensures NextSequence(files) == 10 && VideoName(10) in files
    ensures VideoFilename(files) == VideosFolder + "/" + VideoName(10)
  {
    NineAndTenGiveTen("video", ".h264");
  }

  // ---------------------------------------------------------------------------
  // The videos folder

  /**
   * The listing of the videos folder after `fs.createWriteStream(path)`: a path inside the folder
   * adds its name unless that name is already there (the existing file is overwritten).
   */
  function AfterCreate(files: seq<string>, path: string): seq<string>
  {
    var dir := VideosFolder + "/";
    if dir <= path && path[|dir|..] !in files then files + [path[|dir|..]] else files
  }

  /** Creating the chosen video adds its bare name to the listing, or leaves a listing that has it. */
  lemma AfterCreateVideo(files: seq<string>, n: int)
    ensures AfterCreate(files, VideosFolder + "/" + VideoName(n))
      == if VideoName(n) in files then files else files + [VideoName(n)]
  {
    var dir := VideosFolder + "/";
    var path := dir + VideoName(n);
    assert dir <= path;
    assert path[|dir|..] == VideoName(n);
  }

  /**
   * The listing after one pass of the loop, which records into the path `choose` picks from the
   * listing: only the video changes the videos folder.
   */
  function AfterPass(choose: seq<string> -> string, files: seq<string>): seq<string>
  {
    AfterCreate(files, choose(files))
  }

  /** With `getVideoFilename()` choosing, a pass adds the chosen bare name unless it is already listed. */
  lemma AfterPassAddsName(files: seq<string>)
    ensures var name := VideoName(NextSequence(files));
      AfterPass(VideoFilename, files) == if name in files then files else files + [name]
  {
    AfterCreateVideo(files, NextSequence(files));
  }

  /** The listing after `k` passes. */
  function FilesAfter(choose: seq<string> -> string, files: seq<string>, k: nat): seq<string>
  {
    if k == 0 then files else AfterPass(choose, FilesAfter(choose, files, k - 1))
  }

  // ---------------------------------------------------------------------------
  // Traces

  /** The trace of the first `k` turns of the photo loop. */
  function PhotoBurst(k: nat): seq<Action>
  {
    seq(2 * k, i => if i % 2 == 0 then Photo else Pause(PhotoInterval))
  }

  /** One more turn of the photo loop adds a photo and a 6000 ms wait at the end. */
  lemma PhotoBurstSnoc(k: nat)
    ensures PhotoBurst(k + 1) == PhotoBurst(k) + [Photo, Pause(PhotoInterval)]
  {
    var longer, shorter := PhotoBurst(k + 1), PhotoBurst(k);
    assert forall i :: 0 <= i < 2 * k ==> longer[i] == shorter[i];
    assert longer[2 * k] == Photo && longer[2 * k + 1] == Pause(PhotoInterval);
  }

  /** The trace of `RecordVideo` for a given path. */
  function VideoClip(path: string): seq<Action>
  {
    [VideoStart(path), Pause(VideoDuration), VideoStop]
  }

  /** The trace of one pass of `RunLoop` that records into `path`. */
  function Pass(path: string): seq<Action>
  {
    PhotoBurst(PhotosPerCycle) + VideoClip(path)
  }

  /** The paths the first `k` passes record into, each chosen from the listing the earlier ones left. */
  function VideoPaths(choose: seq<string> -> string, files: seq<string>, k: nat): seq<string>
  {
    if k == 0 then [] else VideoPaths(choose, files, k - 1) + [choose(FilesAfter(choose, files, k - 1))]
  }

  /** The trace of passes recording into `paths`, in order. */
  function Passes(paths: seq<string>): seq<Action>
  {
    if paths == [] then [] else Passes(paths[..|paths| - 1]) + Pass(paths[|paths| - 1])
  }

  /** The counter after `loopCount += loopCount` has run `k` times from `start`. */
  function Doubled(start: int, k: nat): int
  {
    if k == 0 then start else Doubled(start, k - 1) + Doubled(start, k - 1)
  }

  // ---------------------------------------------------------------------------
  // The loop itself

  /** The module-level state of the script and what the camera has been told to do so far. */
  class CaptureLoop {
    /** How a pass names its video: `getVideoFilename()`, fixed when the loop is set up. */
    const chooseVideoFile: seq<string> -> string
    var continueLoop: bool
    var loopCount: int
    /** The listing of the videos folder. */
    var videoFiles: seq<string>
    /** Every action taken, in order. */
    var actions: seq<Action>

    /** Module initialisation: `continueLoop = true`, `loopCount = 0`, over an existing folder. */
    constructor(files: seq<string>)
      ensures chooseVideoFile == VideoFilename
      ensures continueLoop && loopCount == 0 && videoFiles == files && actions == []
    {
      chooseVideoFile := VideoFilename;
      continueLoop := true;
      loopCount := 0;
      videoFiles := files;
      actions := [];
    }

    method TakePhoto()
      modifies this
      ensures actions == old(actions) + [Photo]
      ensures videoFiles == old(videoFiles)
      ensures continueLoop == old(continueLoop) && loopCount == old(loopCount)
    {
      actions := actions + [Photo];
    }

    /** `await new Promise(resolve => setTimeout(() => resolve(), ms))`. */
    method Sleep(ms: nat)
      modifies this
      ensures actions == old(actions) + [Pause(ms)]
      ensures videoFiles == old(videoFiles)
      ensures continueLoop == old(continueLoop) && loopCount == old(loopCount)
    {
      actions := actions + [Pause(ms)];
    }

    /** `startVideo(filePath)`: opening the write stream creates the file, then capture starts. */
    method StartVideo(path: string)
      modifies this
      ensures actions == old(actions) + [VideoStart(path)]
      ensures videoFiles == AfterCreate(old(videoFiles), path)
      ensures continueLoop == old(continueLoop) && loopCount == old(loopCount)
    {
      videoFiles := AfterCreate(videoFiles, path);
      actions := actions + [VideoStart(path)];
    }

    method StopVideo()
      modifies this
      ensures actions == old(actions) + [VideoStop]
      ensures videoFiles == old(videoFiles)
      ensures continueLoop == old(continueLoop) && loopCount == old(loopCount)
    {
      actions := actions + [VideoStop];
    }

    /** `TakePhotos()`: 30 times, a photo and then a 6-second wait. */
    method TakePhotos()
      modifies this
      ensures actions == old(actions) + PhotoBurst(PhotosPerCycle)
      ensures videoFiles == old(videoFiles)
      ensures continueLoop == old(continueLoop) && loopCount == old(loopCount)
    {
      for i := 0 to PhotosPerCycle
        invariant actions == old(actions) + PhotoBurst(i)
        invariant videoFiles == old(videoFiles)
        invariant continueLoop == old(continueLoop) && loopCount == old(loopCount)
      {
        TakePhoto();
        Sleep(PhotoInterval);
        PhotoBurstSnoc(i);
      }
    }

    /** `RecordVideo()`: start a video under the chosen name, wait 30 seconds, stop. */
    method RecordVideo()
      modifies this
      ensures actions == old(actions) + VideoClip(chooseVideoFile(old(videoFiles)))
      ensures videoFiles == AfterPass(chooseVideoFile, old(videoFiles))
      ensures continueLoop == old(continueLoop) && loopCount == old(loopCount)
    {
      var path := chooseVideoFile(videoFiles);
      ghost var before := actions;
      StartVideo(path);
      Sleep(VideoDuration);
      StopVideo();
      ClipAppended(before, path, actions);
    }

    /**
     * `RunLoop()`, cut off after `iterations` passes: the script's loop runs while `continueLoop`
     * holds, and nothing ever clears it.
     */
    method RunLoop(iterations: nat) returns (passes: nat)
      modifies this
      ensures passes == if old(continueLoop) then iterations else 0
      ensures actions == old(actions) + Passes(VideoPaths(chooseVideoFile, old(videoFiles), passes))
      ensures videoFiles == FilesAfter(chooseVideoFile, old(videoFiles), passes)
      ensures loopCount == Doubled(old(loopCount), passes)
      ensures continueLoop == old(continueLoop)
    {
      ghost var files0, actions0, count0 := videoFiles, actions, loopCount;
      passes := 0;
      assert actions0 + Passes(VideoPaths(chooseVideoFile, files0, 0)) == actions0;
      while continueLoop && passes < iterations
        invariant 0 <= passes <= iterations
        invariant continueLoop == old(continueLoop)
        invariant !continueLoop ==> passes == 0
        invariant actions == actions0 + Passes(VideoPaths(chooseVideoFile, files0, passes))
        invariant videoFiles == FilesAfter(chooseVideoFile, files0, passes)
        invariant loopCount == Doubled(count0, passes)
      {
        ghost var filesN, actionsN := videoFiles, actions;
        LoopBody();
        LoopStep(chooseVideoFile, files0, actions0, passes, filesN, actionsN, videoFiles, actions);
        passes := passes + 1;
      }
    }

    /** One turn of the `while (continueLoop)` body: photos, a video, then `loopCount += loopCount`. */
    method LoopBody()
      modifies this
      ensures actions == old(actions) + PhotoBurst(PhotosPerCycle) + VideoClip(chooseVideoFile(old(videoFiles)))
      ensures videoFiles == AfterPass(chooseVideoFile, old(videoFiles))
      ensures loopCount == old(loopCount) + old(loopCount)
      ensures continueLoop == old(continueLoop)
    {
      TakePhotos();
      RecordVideo();
      loopCount := loopCount + loopCount;
    }
  }

  /** One more turn of the loop body extends the trace and the listing by one pass. */
  lemma LoopStep(choose: seq<string> -> string, files0: seq<string>, actions0: seq<Action>, n: nat,
                 files: seq<string>, actions: seq<Action>, files': seq<string>, actions': seq<Action>)
    requires files == FilesAfter(choose, files0, n)
    requires actions == actions0 + Passes(VideoPaths(choose, files0, n))
    requires files' == AfterPass(choose, files)
    requires actions' == actions + PhotoBurst(PhotosPerCycle) + VideoClip(choose(files))
    ensures files' == FilesAfter(choose, files0, n + 1)
    ensures actions' == actions0 + Passes(VideoPaths(choose, files0, n + 1))
  {
    assert VideoPaths(choose, files0, n + 1) == VideoPaths(choose, files0, n) + [choose(files)];
    PassAppended(actions0, VideoPaths(choose, files0, n), choose(files), actions, actions');
  }

  // ---------------------------------------------------------------------------
  // What the traces promise

  lemma ClipAppended(before: seq<Action>, path: string, after: seq<Action>)
    requires after == before + [VideoStart(path)] + [Pause(VideoDuration)] + [VideoStop]
    ensures after == before + VideoClip(path)
  {
  }

  /** The counter starts at 0 and doubling 0 leaves 0: it never counts the passes. */
  lemma {:induction false} LoopCountStaysZero(start: int, k: nat)
    ensures Doubled(start, k) == 0 <==> start == 0
  {
    if k > 0 {
      LoopCountStaysZero(start, k - 1);
    }
  }

  /** Turn `i` of the photo loop is a photo at position 2i followed by a 6000 ms wait. */
  lemma PhotoBurstShape(k: nat)
    ensures |PhotoBurst(k)| == 2 * k
    ensures forall i :: 0 <= i < k ==>
      PhotoBurst(k)[2 * i] == Photo && PhotoBurst(k)[2 * i + 1] == Pause(PhotoInterval)
  {
  }

  /**
   * One pass is 30 (photo, 6000 ms wait) pairs, then the video start, a 30000 ms wait and the
   * stop: 63 actions.
   */
  lemma PassShape(path: string)
    ensures var c := Pass(path);
      && |c| == 2 * PhotosPerCycle + 3
      && (forall i :: 0 <= i < PhotosPerCycle ==> c[2 * i] == Photo && c[2 * i + 1] == Pause(PhotoInterval))
      && c[2 * PhotosPerCycle..] == [VideoStart(path), Pause(VideoDuration), VideoStop]
  {
    PhotoBurstShape(PhotosPerCycle);
    var c := Pass(path);
    var burst := PhotoBurst(PhotosPerCycle);
    assert c[..2 * PhotosPerCycle] == burst;
    forall i | 0 <= i < PhotosPerCycle
      ensures c[2 * i] == Photo && c[2 * i + 1] == Pause(PhotoInterval)
    {
      assert c[2 * i] == burst[2 * i];
      assert c[2 * i + 1] == burst[2 * i + 1];
    }
  }

  // Counting and timing

  /** The number of photos in a trace. */
  function Photos(t: seq<Action>): nat
  {
    if t == [] then 0 else (if t[0].Photo? then 1 else 0) + Photos(t[1..])
  }

  /** The number of video starts in a trace. */
  function Starts(t: seq<Action>): nat
  {
    if t == [] then 0 else (if t[0].VideoStart? then 1 else 0) + Starts(t[1..])
  }

  /** The total time spent waiting in a trace, in milliseconds. */
  function WaitTime(t: seq<Action>): nat
  {
    if t == [] then 0 else (if t[0].Pause? then t[0].ms else 0) + WaitTime(t[1..])
  }

  lemma {:induction false} TallyConcat(a: seq<Action>, b: seq<Action>)
    ensures Photos(a + b) == Photos(a) + Photos(b)
    ensures Starts(a + b) == Starts(a) + Starts(b)
    ensures WaitTime(a + b) == WaitTime(a) + WaitTime(b)
  {
    if a == [] {
      assert a + b == b;
    } else {
      assert (a + b)[1..] == a[1..] + b;
      TallyConcat(a[1..], b);
    }
  }

  lemma {:induction false} PhotoBurstTally(k: nat)
    ensures Photos(PhotoBurst(k)) == k
    ensures Starts(PhotoBurst(k)) == 0
    ensures WaitTime(PhotoBurst(k)) == k * PhotoInterval
  {
    if k > 0 {
      var pair := [Photo, Pause(PhotoInterval)];
      assert pair[1..] == [Pause(PhotoInterval)] && pair[1..][1..] == [];
      assert Photos(pair[1..]) == 0 && Starts(pair[1..]) == 0 && WaitTime(pair[1..]) == PhotoInterval;
      PhotoBurstTally(k - 1);
      PhotoBurstSnoc(k - 1);
      TallyConcat(PhotoBurst(k - 1), pair);
    }
  }

  /** One pass takes 30 photos, starts one video and waits 30 × 6 s + 30 s. */
  lemma PassTally(path: string)
    ensures Photos(Pass(path)) == PhotosPerCycle
    ensures Starts(Pass(path)) == 1
    ensures WaitTime(Pass(path)) == PhotosPerCycle * PhotoInterval + VideoDuration
  {
    var clip := VideoClip(path);
    var stop: seq<Action> := [VideoStop];
    assert stop[1..] == [];
    assert Photos(stop) == 0 && Starts(stop) == 0 && WaitTime(stop) == 0;
    assert clip[1..][1..] == stop;
    assert Photos(clip[1..]) == 0 && Starts(clip[1..]) == 0 && WaitTime(clip[1..]) == VideoDuration;
    PhotoBurstTally(PhotosPerCycle);
    TallyConcat(PhotoBurst(PhotosPerCycle), clip);
  }

  lemma PassesSnoc(paths: seq<string>, path: string)
    ensures Passes(paths + [path]) == Passes(paths) + Pass(path)
  {
    assert (paths + [path])[..|paths|] == paths;
  }

  lemma PassAppended(start: seq<Action>, paths: seq<string>, path: string, mid: seq<Action>, after: seq<Action>)
    requires mid == start + Passes(paths)
    requires after == mid + PhotoBurst(PhotosPerCycle) + VideoClip(path)
    ensures after == start + Passes(paths + [path])
  {
    PassesSnoc(paths, path);
  }

  /** Passes into `paths` take 30 photos each, start one video each and wait 210 000 ms each. */
  lemma {:induction false} PassesTally(paths: seq<string>)
    ensures Photos(Passes(paths)) == PhotosPerCycle * |paths|
    ensures Starts(Passes(paths)) == |paths|
    ensures WaitTime(Passes(paths)) == 210000 * |paths|
  {
    if paths != [] {
      var init, last := paths[..|paths| - 1], paths[|paths| - 1];
      PassesTally(init);
      PassTally(last);
      TallyConcat(Passes(init), Pass(last));
    }
  }

  /** `k` passes record `k` videos. */
  lemma {:induction false} VideoPathsLength(choose: seq<string> -> string, files: seq<string>, k: nat)
    ensures |VideoPaths(choose, files, k)| == k
  {
    if k > 0 {
      VideoPathsLength(choose, files, k - 1);
    }
  }

  // Recording state

  /**
   * Replays a trace from a recording state (true while a video is being captured): None when a
   * photo is taken or a video started while recording, or a video stopped while not recording;
   * otherwise the state at the end.
   */
  function Replay(t: seq<Action>, recording: bool): Option<bool>
  {
    if t == [] then Some(recording)
    else match t[0]
      case Photo => if recording then None else Replay(t[1..], recording)
      case Pause(_) => Replay(t[1..], recording)
      case VideoStart(_) => if recording then None else Replay(t[1..], true)
      case VideoStop => if recording then Replay(t[1..], false) else None
  }

  lemma {:induction false} ReplayConcat(a: seq<Action>, b: seq<Action>, recording: bool)
    ensures Replay(a + b, recording)
      == match Replay(a, recording) case None => None case Some(r) => Replay(b, r)
  {
    if a == [] {
      assert a + b == b;
    } else {
      assert (a + b)[1..] == a[1..] + b;
      match a[0]
      case Photo => ReplayConcat(a[1..], b, recording);
      case Pause(_) => ReplayConcat(a[1..], b, recording);
      case VideoStart(_) => ReplayConcat(a[1..], b, true);
      case VideoStop => ReplayConcat(a[1..], b, false);
    }
  }

  lemma {:induction false} PhotoBurstIdle(k: nat)
    ensures Replay(PhotoBurst(k), false) == Some(false)
  {
    if k > 0 {
      var pair := [Photo, Pause(PhotoInterval)];
      assert pair[1..] == [Pause(PhotoInterval)] && pair[1..][1..] == [];
      assert Replay(pair[1..], false) == Some(false);
      PhotoBurstIdle(k - 1);
      PhotoBurstSnoc(k - 1);
      ReplayConcat(PhotoBurst(k - 1), pair, false);
    }
  }

  /**
   * Over any number of passes no photo is taken while a video is recording, a video is never
   * started twice or stopped when none runs, and the camera is idle between passes.
   */
  lemma {:induction false} PassesWellBracketed(paths: seq<string>)
    ensures Replay(Passes(paths), false) == Some(false)
  {
    if paths != [] {
      var init, last := paths[..|paths| - 1], paths[|paths| - 1];
      PassesWellBracketed(init);
      PassIdle(last);
      ReplayConcat(Passes(init), Pass(last), false);
    }
  }

  /** A pass starts and ends idle: no photo while recording, no second start, no stop when none runs. */
  lemma PassIdle(path: string)
    ensures Replay(Pass(path), false) == Some(false)
  {
    var clip := VideoClip(path);
    var stop: seq<Action> := [VideoStop];
    assert stop[1..] == [];
    assert Replay(stop, true) == Some(false);
    assert clip[1..][1..] == stop;
    assert Replay(clip[1..], true) == Some(false);
    PhotoBurstIdle(PhotosPerCycle);
    ReplayConcat(PhotoBurst(PhotosPerCycle), clip, false);
  }

  // Name reuse

  /**
   * Once the chosen name is one the folder already holds, the folder never changes again and
   * every later pass records into that same file.
   */
  lemma TakenNameRepeats(files: seq<string>, k: nat)
    requires VideoName(NextSequence(files)) in files
    ensures FilesAfter(VideoFilename, files, k) == files
    ensures forall p :: p in VideoPaths(VideoFilename, files, k) ==> p == VideoFilename(files)
  {
    TakenNameKept(files);
    FixedListingRepeats(VideoFilename, files, k);
  }

  /** A listing that a pass leaves as it is stays so, and every pass records into the same path. */
  lemma {:induction false} FixedListingRepeats(choose: seq<string> -> string, files: seq<string>, k: nat)
    requires AfterPass(choose, files) == files
    ensures FilesAfter(choose, files, k) == files
    ensures forall p :: p in VideoPaths(choose, files, k) ==> p == choose(files)
  {
    if k > 0 {
      FixedListingRepeats(choose, files, k - 1);
      assert VideoPaths(choose, files, k) == VideoPaths(choose, files, k - 1) + [choose(files)];
    }
  }

  /** A pass whose chosen name is already listed leaves the listing as it is. */
  lemma TakenNameKept(files: seq<string>)
    requires VideoName(NextSequence(files)) in files
    ensures AfterPass(VideoFilename, files) == files
  {
    AfterPassAddsName(files);
  }

  /**
   * A folder holding video-9.h264 and video-10.h264 makes every pass record into
   * video-10.h264, overwriting it each time.
   */
  lemma NineAndTenOverwrite(files: seq<string>, k: nat)
    requires files == [VideoName(9), VideoName(10)]
    ensures forall p :: p in VideoPaths(VideoFilename, files, k) ==> p == VideosFolder + "/" + VideoName(10)
  {
    NineAndTenGiveTakenName(files);
    TakenNameRepeats(files, k);
  }
}
