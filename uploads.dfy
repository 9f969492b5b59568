/**
 * The asset uploader (uploadFile, main.go:188-213) and the loop over the
 * file paths in publishRelease (main.go:299-307). The closure there is called
 * directly, not started as a goroutine, so the uploads run one after another
 * in path order.
 */
module Uploads {
  import opened Http
  import opened Api

  /** What opening and stat-ing a local file gives: a failure, or its size. */
  datatype FileStatus = OpenFails | StatFails | Readable(size: int)

  /** The local file system, as far as the uploader sees it. */
  type FileSystem = string -> FileStatus

  /** What one uploadFile call ends with; the tool only logs it. */
  datatype UploadOutcome = OpenFailed | StatFailed | Sent(response: Response)

  /**
   * uploadFile(uploadUrl, path) after history h: a file that cannot be opened
   * or stat-ed sends nothing; otherwise one POST of the file to
   * uploadUrl?name=<base name>.
   */
  function UploadFile(server: Server, fs: FileSystem, h: seq<Request>, uploadUrl: string, path: string): Step
  {
    match fs(path)
    case OpenFails => Step(OpenFailed, [])
    case StatFails => Step(StatFailed, [])
    case Readable(size) =>
      var req := UploadRequest(uploadUrl, path, size);
      Step(Sent(Classify(server(h, req))), [req])
  }

  /** One upload attempt: its outcome and the requests it sent. */
  datatype Step = Step(outcome: UploadOutcome, sent: seq<Request>)

  /** Several upload attempts: their outcomes in path order and the requests they sent. */
  datatype Batch = Batch(outcomes: seq<UploadOutcome>, sent: seq<Request>)

  /** The upload loop: uploadFile for each path in turn, whatever the earlier ones did. */
  function UploadAll(server: Server, fs: FileSystem, h: seq<Request>, uploadUrl: string, paths: seq<string>): Batch
  {
    if paths == [] then Batch([], [])
    else
      var done := UploadAll(server, fs, h, uploadUrl, paths[..|paths| - 1]);
      var step := UploadFile(server, fs, h + done.sent, uploadUrl, paths[|paths| - 1]);
      Batch(done.outcomes + [step.outcome], done.sent + step.sent)
  }

  /** The loop of publishRelease over the file paths (main.go:299-307), one uploadFile call per path. */
  method UploadFiles(server: Server, fs: FileSystem, h: seq<Request>, uploadUrl: string, paths: seq<string>)
    returns (outcomes: seq<UploadOutcome>, t: seq<Request>)
    ensures outcomes == UploadAll(server, fs, h, uploadUrl, paths).outcomes
    ensures t == h + UploadAll(server, fs, h, uploadUrl, paths).sent
  {
    outcomes, t := [], h;
    for i := 0 to |paths|
      invariant outcomes == UploadAll(server, fs, h, uploadUrl, paths[..i]).outcomes
      invariant t == h + UploadAll(server, fs, h, uploadUrl, paths[..i]).sent
    {
      assert paths[..i + 1][..i] == paths[..i];
      var step := UploadFile(server, fs, t, uploadUrl, paths[i]);
      outcomes := outcomes + [step.outcome];
      t := t + step.sent;
    }
    assert paths[..|paths|] == paths;
  }

  /** The upload request for one path, when its file can be opened and stat-ed. */
  function ReadableUpload(uploadUrl: string, fs: FileSystem, path: string): seq<Request>
  {
    if fs(path).Readable? then [UploadRequest(uploadUrl, path, fs(path).size)] else []
  }

  /** The upload requests for the paths whose files can be opened and stat-ed, in path order. */
  function ReadableUploads(uploadUrl: string, fs: FileSystem, paths: seq<string>): seq<Request>
  {
    if paths == [] then []
    else ReadableUploads(uploadUrl, fs, paths[..|paths| - 1]) + ReadableUpload(uploadUrl, fs, paths[|paths| - 1])
  }

  /** Every upload request is a POST. */
  lemma {:induction false} ReadableUploadsArePosts(uploadUrl: string, fs: FileSystem, paths: seq<string>)
    ensures forall q :: q in ReadableUploads(uploadUrl, fs, paths) ==> q.verb == Post
  {
    if paths != [] {
      ReadableUploadsArePosts(uploadUrl, fs, paths[..|paths| - 1]);
    }
  }

  /** An outcome that is the one the file's status leads to. */
  predicate Reflects(outcome: UploadOutcome, status: FileStatus)
  {
    (outcome.OpenFailed? <==> status.OpenFails?)
    && (outcome.StatFailed? <==> status.StatFails?)
    && (outcome.Sent? <==> status.Readable?)
  }

  /** One upload attempt ends as the file's status dictates. */
  lemma UploadFileReflects(server: Server, fs: FileSystem, h: seq<Request>, uploadUrl: string, path: string)
    ensures Reflects(UploadFile(server, fs, h, uploadUrl, path).outcome, fs(path))
  {
  }

  /**
   * Exactly one upload attempt per path, in path order: the k-th outcome is
   * that of the k-th path's file, and a failure on one path leaves the others
   * untouched.
   */
  lemma {:induction false} UploadAllAttempts(server: Server, fs: FileSystem, h: seq<Request>, uploadUrl: string, paths: seq<string>)
    ensures |UploadAll(server, fs, h, uploadUrl, paths).outcomes| == |paths|
    ensures forall k :: 0 <= k < |paths| ==> Reflects(UploadAll(server, fs, h, uploadUrl, paths).outcomes[k], fs(paths[k]))
  {
    if paths != [] {
      var init, last := paths[..|paths| - 1], paths[|paths| - 1];
      UploadAllAttempts(server, fs, h, uploadUrl, init);
      var done := UploadAll(server, fs, h, uploadUrl, init);
      var step := UploadFile(server, fs, h + done.sent, uploadUrl, last);
      var outcomes := UploadAll(server, fs, h, uploadUrl, paths).outcomes;
      assert outcomes == done.outcomes + [step.outcome];
      UploadFileReflects(server, fs, h + done.sent, uploadUrl, last);
      forall k | 0 <= k < |paths|
        ensures Reflects(outcomes[k], fs(paths[k]))
      {
        if k < |init| {
          assert outcomes[k] == done.outcomes[k] && paths[k] == init[k];
        } else {
          assert outcomes[k] == step.outcome && paths[k] == last;
        }
      }
    }
  }

  /**
   * The requests the loop sends are the uploads of the readable files, in path
   * order, to uploadUrl?name=<base name>; what the server answers changes nothing.
   */
  lemma {:induction false} UploadAllRequests(server: Server, fs: FileSystem, h: seq<Request>, uploadUrl: string, paths: seq<string>)
    ensures UploadAll(server, fs, h, uploadUrl, paths).sent == ReadableUploads(uploadUrl, fs, paths)
  {
    if paths != [] {
      var init, last := paths[..|paths| - 1], paths[|paths| - 1];
      UploadAllRequests(server, fs, h, uploadUrl, init);
      var done := UploadAll(server, fs, h, uploadUrl, init);
      var step := UploadFile(server, fs, h + done.sent, uploadUrl, last);
      assert UploadAll(server, fs, h, uploadUrl, paths).sent == done.sent + step.sent;
      assert step.sent == ReadableUpload(uploadUrl, fs, last);
    }
  }
}
