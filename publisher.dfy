/**
 * The release publisher (publishRelease, main.go:265-308, and CreateRelease,
 * main.go:215-227): optional draft cleanup, create the release or fall back to
 * fetching it by tag, derive the upload URL, upload every file.
 */
module Publisher {
  import opened Optional
  import opened Text
  import opened Releases
  import opened Http
  import opened Api
  import opened Drafts
  import opened Uploads

  /** The configuration main fixes before publishing: the repository endpoint and the -recreateDraft flag. */
  datatype Config = Config(api: string, recreateDraft: bool)

  /** Why publishing stops: the release could be neither created nor fetched, or its JSON did not decode. */
  datatype FatalError = RequestFailed(error: HttpError) | UndecodableRelease

  /** The end of a publish: stopped fatally, or done with the upload URL used and one outcome per file. */
  datatype PublishOutcome = Aborted(reason: FatalError) | Published(uploadUrl: string, uploads: seq<UploadOutcome>)

  /** The result of the create-or-fetch step and the requests it sent. */
  datatype Fetched = Fetched(response: Response, sent: seq<Request>)

  /**
   * The upload URL: the template the server returns cut at its first '{',
   * which strips the URI-template placeholder ({?name,label}).
   */
  function UploadBase(template: string): (r: string)
    ensures |r| <= |template| && r == template[..|r|]
    ensures '{' !in r
    ensures '{' in template ==> template[|r|] == '{'
    ensures '{' !in template ==> r == template
  {
    SplitFirst(template, '{');
    Split(template, '{')[0]
  }

  /** Whatever follows the first '{' is dropped. */
  lemma UploadBaseOfTemplate(prefix: string, placeholder: string)
    requires '{' !in prefix
    ensures UploadBase(prefix + "{" + placeholder) == prefix
  {
    var t := prefix + "{" + placeholder;
    assert t[|prefix|] == '{';
  }

  /** The template of a typical upload URL loses its {?name} placeholder. */
  lemma UploadBaseExample()
    ensures UploadBase("https://uploads.example.com/releases/1/assets{?name}") == "https://uploads.example.com/releases/1/assets"
  {
    ExampleUrlHasNoBrace();
    assert "https://uploads.example.com/releases/1/assets{?name}" == "https://uploads.example.com/releases/1/assets" + "{" + "?name}";
    UploadBaseOfTemplate("https://uploads.example.com/releases/1/assets", "?name}");
  }

  /*
   * Helpers of UploadBaseExample. Deciding that '{' is not in a 45-character
   * literal is expensive for the solver in one go, so the URL is checked in
   * three short pieces and put back together.
   */
  lemma ExampleUrlHasNoBrace()
    ensures '{' !in "https://uploads.example.com/releases/1/assets"
  {
    SchemeHasNoBrace();
    HostHasNoBrace();
    PathHasNoBrace();
    assert "https://uploads.example.com/releases/1/assets" == "https://" + "uploads.example.com" + "/releases/1/assets";
  }

  lemma SchemeHasNoBrace() ensures '{' !in "https://" {}
  lemma HostHasNoBrace() ensures '{' !in "uploads.example.com" {}
  lemma PathHasNoBrace() ensures '{' !in "/releases/1/assets" {}

  /**
   * Create or fetch (main.go:277-284): POST the release; when that fails with a
   * body (the server answered with an error status), GET the release by its tag
   * instead.
   */
  function CreateOrFetch(server: Server, api: string, h: seq<Request>, release: Release): (r: Fetched)
    ensures r.sent == [CreateRequest(api, release)] || r.sent == [CreateRequest(api, release), TagRequest(api, release.tagName)]
  {
    var post := CreateRequest(api, release);
    var created := Classify(server(h, post));
    if created.err.Some? && created.data.Some? then
      var get := TagRequest(api, release.tagName);
      Fetched(Classify(server(h + [post], get)), [post, get])
    else
      Fetched(created, [post])
  }

  /** The requests of the draft cleanup, when -recreateDraft asks for it. */
  ghost function Cleanup(cfg: Config, server: Server, h: seq<Request>, tag: string, bound: nat): seq<Request>
    requires cfg.recreateDraft ==> ScanTerminates(server, cfg.api, tag, h, 1, bound)
  {
    if cfg.recreateDraft then Scan(server, cfg.api, tag, h, 1, bound) else []
  }

  /** What publishRelease does after history h: its outcome and every request it sends. */
  ghost function Publish(cfg: Config, server: Server, fs: FileSystem, h: seq<Request>, release: Release, paths: seq<string>, bound: nat): (PublishOutcome, seq<Request>)
    requires cfg.recreateDraft ==> ScanTerminates(server, cfg.api, release.tagName, h, 1, bound)
  {
    var cleanup := Cleanup(cfg, server, h, release.tagName, bound);
    var fetched := CreateOrFetch(server, cfg.api, h + cleanup, release);
    var finished := Finish(server, fs, h + cleanup + fetched.sent, release, fetched.response, paths);
    (finished.0, cleanup + fetched.sent + finished.1)
  }

  /**
   * The rest of publishRelease once the create-or-fetch step answered `resp`
   * (main.go:285-307): an error is fatal, so is a body that does not decode;
   * otherwise the files are uploaded to the URL the decoded release names.
   */
  function Finish(server: Server, fs: FileSystem, h: seq<Request>, release: Release, resp: Response, paths: seq<string>): (PublishOutcome, seq<Request>)
  {
    if resp.err.Some? then (Aborted(RequestFailed(resp.err.value)), [])
    else if resp.data.None? then (Aborted(UndecodableRelease), [])
    else
      match DecodeInto(resp.data.value, release)
      case None => (Aborted(UndecodableRelease), [])
      case Some(current) =>
        var uploadUrl := UploadBase(current.uploadUrl);
        var batch := UploadAll(server, fs, h, uploadUrl, paths);
        (Published(uploadUrl, batch.outcomes), batch.sent)
  }

  /** publishRelease(release, filepaths), returning the outcome and the extended history. */
  method PublishRelease(cfg: Config, server: Server, fs: FileSystem, h: seq<Request>, release: Release, paths: seq<string>, ghost bound: nat)
    returns (outcome: PublishOutcome, t: seq<Request>)
    requires cfg.recreateDraft ==> ScanTerminates(server, cfg.api, release.tagName, h, 1, bound)
    ensures outcome == Publish(cfg, server, fs, h, release, paths, bound).0
    ensures t == h + Publish(cfg, server, fs, h, release, paths, bound).1
  {
    t := h;
    if cfg.recreateDraft {
      t := DeleteDraftReleases(server, cfg.api, release.tagName, t, bound);
    }
    ghost var cleanup := Cleanup(cfg, server, h, release.tagName, bound);
    assert t == h + cleanup;
    var resp, sent := FetchRelease(server, cfg.api, t, release);
    t := t + sent;
    var rest;
    outcome, rest := FinishPublish(server, fs, t, release, resp, paths);
    ghost var fetched := CreateOrFetch(server, cfg.api, h + cleanup, release);
    assert fetched == Fetched(resp, sent);
    ghost var finished := Finish(server, fs, h + cleanup + sent, release, resp, paths);
    assert finished == (outcome, rest);
    assert Publish(cfg, server, fs, h, release, paths, bound) == (outcome, cleanup + sent + rest);
    Regroup(h, cleanup, sent, rest);
    t := t + rest;
  }

  /** The create-or-fetch step of publishRelease (main.go:277-284). */
  method FetchRelease(server: Server, api: string, h: seq<Request>, release: Release)
    returns (resp: Response, sent: seq<Request>)
    ensures Fetched(resp, sent) == CreateOrFetch(server, api, h, release)
  {
    var req := CreateRequest(api, release);
    resp := Classify(server(h, req));
    sent := [req];
    if resp.err.Some? && resp.data.Some? {
      // taken to mean that the release exists already: fetch it by its tag
      req := TagRequest(api, release.tagName);
      resp := Classify(server(h + sent, req));
      sent := sent + [req];
    }
  }

  /** The end of publishRelease (main.go:285-307) once the create-or-fetch step answered resp. */
  method FinishPublish(server: Server, fs: FileSystem, h: seq<Request>, release: Release, resp: Response, paths: seq<string>)
    returns (outcome: PublishOutcome, sent: seq<Request>)
    ensures (outcome, sent) == Finish(server, fs, h, release, resp, paths)
  {
    if resp.err.Some? {
      return Aborted(RequestFailed(resp.err.value)), [];
    }
    if resp.data.None? {
      return Aborted(UndecodableRelease), [];
    }
    var decoded := DecodeInto(resp.data.value, release);
    if decoded.None? {
      return Aborted(UndecodableRelease), [];
    }
    var current := decoded.value;
    var uploadUrl := UploadBase(current.uploadUrl);
    var outcomes, t := UploadFiles(server, fs, h, uploadUrl, paths);
    outcome := Published(uploadUrl, outcomes);
    sent := t[|h|..];
  }

  /** CreateRelease(tag, branch, desc, filepaths): publish the release LibraryRelease builds. */
  method CreateRelease(cfg: Config, server: Server, fs: FileSystem, h: seq<Request>, tag: string, branch: string, desc: string, paths: seq<string>, ghost bound: nat)
    returns (outcome: PublishOutcome, t: seq<Request>)
    requires cfg.recreateDraft ==> ScanTerminates(server, cfg.api, tag, h, 1, bound)
    ensures outcome == Publish(cfg, server, fs, h, LibraryRelease(tag, branch, desc), paths, bound).0
    ensures t == h + Publish(cfg, server, fs, h, LibraryRelease(tag, branch, desc), paths, bound).1
  {
    outcome, t := PublishRelease(cfg, server, fs, h, LibraryRelease(tag, branch, desc), paths, bound);
  }

  // ---- Properties of the publish protocol ----

  /** Every request publishing sends after the create-or-fetch step is an upload, a POST. */
  lemma FinishSendsUploads(server: Server, fs: FileSystem, h: seq<Request>, release: Release, resp: Response, paths: seq<string>)
    ensures forall q :: q in Finish(server, fs, h, release, resp, paths).1 ==> q.verb == Post
    ensures Finish(server, fs, h, release, resp, paths).0.Published? ==>
              Finish(server, fs, h, release, resp, paths).1 == ReadableUploads(Finish(server, fs, h, release, resp, paths).0.uploadUrl, fs, paths)
  {
    if resp.err.None? && resp.data.Some? && DecodeInto(resp.data.value, release).Some? {
      var uploadUrl := UploadBase(DecodeInto(resp.data.value, release).value.uploadUrl);
      UploadAllRequests(server, fs, h, uploadUrl, paths);
      ReadableUploadsArePosts(uploadUrl, fs, paths);
    }
  }

  /** The create-or-fetch step starts with the POST, and nothing from there on is a DELETE. */
  lemma NoDeleteAfterCreate(server: Server, fs: FileSystem, api: string, h: seq<Request>, release: Release, paths: seq<string>)
    ensures var fetched := CreateOrFetch(server, api, h, release);
            var finished := Finish(server, fs, h + fetched.sent, release, fetched.response, paths);
            && fetched.sent[0] == CreateRequest(api, release)
            && forall q :: q in fetched.sent[1..] + finished.1 ==> q.verb != Delete
  {
    var fetched := CreateOrFetch(server, api, h, release);
    FinishSendsUploads(server, fs, h + fetched.sent, release, fetched.response, paths);
  }

  /**
   * With -recreateDraft, every request of the draft cleanup comes before the
   * POST that creates the release, and no DELETE comes after it.
   */
  lemma CleanupPrecedesCreate(cfg: Config, server: Server, fs: FileSystem, h: seq<Request>, release: Release, paths: seq<string>, bound: nat)
    requires cfg.recreateDraft ==> ScanTerminates(server, cfg.api, release.tagName, h, 1, bound)
    ensures var c := Cleanup(cfg, server, h, release.tagName, bound);
            var t := Publish(cfg, server, fs, h, release, paths, bound).1;
            && |t| > |c| && t[..|c|] == c && t[|c|] == CreateRequest(cfg.api, release)
            && (forall q :: q in c ==> q.verb != Post)
            && (forall q :: q in t[|c| + 1..] ==> q.verb != Delete)
  {
    var c := Cleanup(cfg, server, h, release.tagName, bound);
    var fetched := CreateOrFetch(server, cfg.api, h + c, release);
    var finished := Finish(server, fs, h + c + fetched.sent, release, fetched.response, paths);
    assert Publish(cfg, server, fs, h, release, paths, bound).1 == c + fetched.sent + finished.1;
    if cfg.recreateDraft {
      ScanVerbs(server, cfg.api, release.tagName, h, 1, bound);
    }
    NoDeleteAfterCreate(server, fs, cfg.api, h + c, release, paths);
    SplitAfter(c, fetched.sent, finished.1);
  }

  /** Cutting c + a + b just after c, when a is not empty. */
  lemma SplitAfter(c: seq<Request>, a: seq<Request>, b: seq<Request>)
    requires |a| >= 1
    ensures var t := c + a + b;
            t[..|c|] == c && t[|c|] == a[0] && t[|c| + 1..] == a[1..] + b
  {
  }

  /**
   * The fallback GET by tag is sent right after the POST exactly when the
   * server answered the POST with a status outside 200, 201 and 204; a
   * transport failure or a success never leads to it.
   */
  lemma FallbackIffRejected(cfg: Config, server: Server, fs: FileSystem, h: seq<Request>, release: Release, paths: seq<string>, bound: nat)
    requires cfg.recreateDraft ==> ScanTerminates(server, cfg.api, release.tagName, h, 1, bound)
    ensures var c := Cleanup(cfg, server, h, release.tagName, bound);
            var t := Publish(cfg, server, fs, h, release, paths, bound).1;
            var reply := server(h + c, CreateRequest(cfg.api, release));
            (|t| > |c| + 1 && t[|c| + 1] == TagRequest(cfg.api, release.tagName))
            <==> (reply.Answer? && reply.status !in {200, 201, 204})
  {
    var c := Cleanup(cfg, server, h, release.tagName, bound);
    var fetched := CreateOrFetch(server, cfg.api, h + c, release);
    var finished := Finish(server, fs, h + c + fetched.sent, release, fetched.response, paths);
    var t := c + fetched.sent + finished.1;
    assert Publish(cfg, server, fs, h, release, paths, bound).1 == t;
    FinishSendsUploads(server, fs, h + c + fetched.sent, release, fetched.response, paths);
    if |fetched.sent| == 1 && |t| > |c| + 1 {
      assert t[|c| + 1] == finished.1[0];
      assert finished.1[0] in finished.1;
    }
  }

  /**
   * A fatal stop sends no upload: after the cleanup only the POST, and the
   * GET by tag when the POST was rejected, were sent.
   */
  lemma AbortSendsNoUpload(cfg: Config, server: Server, fs: FileSystem, h: seq<Request>, release: Release, paths: seq<string>, bound: nat)
    requires cfg.recreateDraft ==> ScanTerminates(server, cfg.api, release.tagName, h, 1, bound)
    requires Publish(cfg, server, fs, h, release, paths, bound).0.Aborted?
    ensures var c := Cleanup(cfg, server, h, release.tagName, bound);
            var t := Publish(cfg, server, fs, h, release, paths, bound).1;
            t == c + [CreateRequest(cfg.api, release)]
            || t == c + [CreateRequest(cfg.api, release), TagRequest(cfg.api, release.tagName)]
  {
  }

  /**
   * When publishing gets through, every path gets exactly one upload attempt,
   * in path order, to the upload URL cut at its first '{'; the requests sent
   * after the create-or-fetch step are the uploads of the readable files.
   */
  lemma PublishedUploadsEveryPath(cfg: Config, server: Server, fs: FileSystem, h: seq<Request>, release: Release, paths: seq<string>, bound: nat)
    requires cfg.recreateDraft ==> ScanTerminates(server, cfg.api, release.tagName, h, 1, bound)
    requires Publish(cfg, server, fs, h, release, paths, bound).0.Published?
    ensures var c := Cleanup(cfg, server, h, release.tagName, bound);
            var out := Publish(cfg, server, fs, h, release, paths, bound).0;
            var t := Publish(cfg, server, fs, h, release, paths, bound).1;
            && '{' !in out.uploadUrl
            && |out.uploads| == |paths|
            && (forall k :: 0 <= k < |paths| ==> Reflects(out.uploads[k], fs(paths[k])))
            && t == c + CreateOrFetch(server, cfg.api, h + c, release).sent + ReadableUploads(out.uploadUrl, fs, paths)
  {
    var c := Cleanup(cfg, server, h, release.tagName, bound);
    var fetched := CreateOrFetch(server, cfg.api, h + c, release);
    var hf := h + c + fetched.sent;
    var resp := fetched.response;
    var current := DecodeInto(resp.data.value, release).value;
    var uploadUrl := UploadBase(current.uploadUrl);
    UploadAllAttempts(server, fs, hf, uploadUrl, paths);
    UploadAllRequests(server, fs, hf, uploadUrl, paths);
  }

  /**
   * Re-running for an existing release: the POST is rejected, the GET by tag
   * returns the release, and the uploads go to the upload URL the GET returned.
   */
  lemma ExistingReleaseIsReused(cfg: Config, server: Server, fs: FileSystem, h: seq<Request>, release: Release, paths: seq<string>, bound: nat,
                                status: int, body: Body, id: int, template: string)
    requires cfg.recreateDraft ==> ScanTerminates(server, cfg.api, release.tagName, h, 1, bound)
    requires status !in {200, 201, 204}
    requires var c := Cleanup(cfg, server, h, release.tagName, bound);
             server(h + c, CreateRequest(cfg.api, release)) == Answer(status, body)
    requires var c := Cleanup(cfg, server, h, release.tagName, bound);
             server(h + c + [CreateRequest(cfg.api, release)], TagRequest(cfg.api, release.tagName))
               == Answer(200, ReleaseObject(Some(id), Some(template)))
    ensures Publish(cfg, server, fs, h, release, paths, bound).0.Published?
    ensures Publish(cfg, server, fs, h, release, paths, bound).0.uploadUrl == UploadBase(template)
  {
  }

  /** When both the POST and the fallback GET fail, publishing stops with the GET's error and uploads nothing. */
  lemma BothFailIsFatal(cfg: Config, server: Server, fs: FileSystem, h: seq<Request>, release: Release, paths: seq<string>, bound: nat,
                        status: int, body: Body, failure: Reply)
    requires cfg.recreateDraft ==> ScanTerminates(server, cfg.api, release.tagName, h, 1, bound)
    requires status !in {200, 201, 204}
    requires failure.TransportFailure? || failure.status !in {200, 201, 204}
    requires var c := Cleanup(cfg, server, h, release.tagName, bound);
             server(h + c, CreateRequest(cfg.api, release)) == Answer(status, body)
    requires var c := Cleanup(cfg, server, h, release.tagName, bound);
             server(h + c + [CreateRequest(cfg.api, release)], TagRequest(cfg.api, release.tagName)) == failure
    ensures Publish(cfg, server, fs, h, release, paths, bound).0 == Aborted(RequestFailed(Classify(failure).err.value))
    ensures Publish(cfg, server, fs, h, release, paths, bound).1
            == Cleanup(cfg, server, h, release.tagName, bound) + [CreateRequest(cfg.api, release), TagRequest(cfg.api, release.tagName)]
  {
  }

  /** A transport failure on the POST is fatal at once: no fallback GET, no upload. */
  lemma TransportFailureIsFatal(cfg: Config, server: Server, fs: FileSystem, h: seq<Request>, release: Release, paths: seq<string>, bound: nat)
    requires cfg.recreateDraft ==> ScanTerminates(server, cfg.api, release.tagName, h, 1, bound)
    requires var c := Cleanup(cfg, server, h, release.tagName, bound);
             server(h + c, CreateRequest(cfg.api, release)).TransportFailure?
    ensures Publish(cfg, server, fs, h, release, paths, bound).0 == Aborted(RequestFailed(TransportError))
    ensures Publish(cfg, server, fs, h, release, paths, bound).1
            == Cleanup(cfg, server, h, release.tagName, bound) + [CreateRequest(cfg.api, release)]
  {
  }
}
