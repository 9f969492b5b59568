/**
 * The command line (main, main.go:118-186, with the defaults fixed in init,
 * main.go:57-80): the startup checks in their order, the repository endpoint,
 * the expansion of the -assets globs and the release handed to the publisher.
 */
module Cli {
  import opened Optional
  import opened Text
  import opened Releases
  import opened Http
  import opened Drafts
  import opened Uploads
  import opened Publisher

  /** The API root used when GITHUB_API is empty. */
  const DEFAULT_API := "https://api.github.com"

  /** The parsed command line: the flags and the positional arguments. */
  datatype Invocation = Invocation(
    version: bool,
    args: seq<string>,
    prerelease: bool,
    draft: bool,
    recreateDraft: bool,
    latest: bool,
    descFile: string,
    assets: string)

  /** The environment variables main reads (GITHUB_TOKEN and GITHUB_API). */
  datatype Environment = Environment(token: string, api: string)

  /** filepath.Glob: the matches of a pattern, or None for a malformed pattern. */
  type Globber = string -> Option<seq<string>>

  /** os.ReadFile on the description file: its contents, or None when it cannot be read. */
  type Reader = string -> Option<string>

  /** Why main stops before sending any request. */
  datatype StartupError =
    | WrongArgCount(got: nat)
    | NoDescription
    | BadUserRepo(arg: string)
    | NoToken
    | BadGlob(pattern: string)
    | UnreadableDescription(path: string)

  /** What the startup checks decide: print the version, stop, or publish. */
  datatype Plan =
    | ShowVersion
    | Reject(error: StartupError)
    | Ready(cfg: Config, release: Release, paths: seq<string>)

  /** How a run of the tool ends. */
  datatype Exit = Version | StartupFailed(error: StartupError) | Finished(outcome: PublishOutcome)

  /** The result of expanding the glob patterns: every match in order, or the first malformed pattern. */
  datatype Expansion = Expanded(paths: seq<string>) | BadPattern(pattern: string)

  /**
   * The user/repo argument split on '/': accepted only when it gives exactly
   * two parts, which are then the user and the repository.
   */
  function ParseUserRepo(arg: string): (r: Option<(string, string)>)
    ensures r.Some? <==> Count(arg, '/') == 1
    ensures r.Some? ==> '/' !in r.value.0 && '/' !in r.value.1
    ensures r.Some? ==> r.value.0 + "/" + r.value.1 == arg
  {
    var parts := Split(arg, '/');
    JoinSplit(arg, '/');
    if |parts| == 2 then
      assert Join(parts, '/') == parts[0] + "/" + parts[1] by {
        assert parts[1..] == [parts[1]];
      }
      Some((parts[0], parts[1]))
    else
      None
  }

  /** Parsing inverts writing user + "/" + repo for any user and repository without a '/'. */
  lemma ParseUserRepoOfPair(user: string, repo: string)
    requires '/' !in user && '/' !in repo
    ensures ParseUserRepo(user + "/" + repo) == Some((user, repo))
  {
    var parts := [user, repo];
    assert Join(parts, '/') == user + "/" + repo by {
      assert parts[1..] == [repo];
    }
    SplitJoin(parts, '/');
  }

  /** The repository endpoint: the API root (GITHUB_API, or the default) followed by /repos/user/repo. */
  function RepoEndpoint(env: Environment, user: string, repo: string): string
  {
    (if env.api == "" then DEFAULT_API else env.api) + "/repos/" + user + "/" + repo
  }

  /** The glob patterns of -assets: the flag split on single spaces. */
  function Patterns(assets: string): (ps: seq<string>)
    ensures |ps| == Count(assets, ' ') + 1
    ensures forall k :: 0 <= k < |ps| ==> ' ' !in ps[k]
  {
    Split(assets, ' ')
  }

  /** The matches of the patterns in order, stopping at the first pattern Glob rejects. */
  function Expand(glob: Globber, ps: seq<string>): Expansion
  {
    if ps == [] then Expanded([])
    else match Expand(glob, ps[..|ps| - 1])
      case BadPattern(p) => BadPattern(p)
      case Expanded(acc) =>
        match glob(ps[|ps| - 1])
        case None => BadPattern(ps[|ps| - 1])
        case Some(m) => Expanded(acc + m)
  }

  /** The loop of main over the patterns: append each pattern's matches, stop at a malformed one. */
  method ExpandAssets(glob: Globber, ps: seq<string>) returns (r: Expansion)
    ensures r == Expand(glob, ps)
  {
    var paths: seq<string> := [];
    for i := 0 to |ps|
      invariant Expand(glob, ps[..i]) == Expanded(paths)
    {
      assert ps[..i + 1][..i] == ps[..i];
      var matches := glob(ps[i]);
      if matches.None? {
        assert Expand(glob, ps[..i + 1]) == BadPattern(ps[i]);
        ExpandStopsAtBad(glob, ps, i + 1);
        return BadPattern(ps[i]);
      }
      paths := paths + matches.value;
    }
    assert ps[..|ps|] == ps;
    return Expanded(paths);
  }

  /** Once a prefix of the patterns has failed, the whole list fails with the same pattern. */
  lemma {:induction false} ExpandStopsAtBad(glob: Globber, ps: seq<string>, n: nat)
    requires n <= |ps| && Expand(glob, ps[..n]).BadPattern?
    ensures Expand(glob, ps) == Expand(glob, ps[..n])
    decreases |ps| - n
  {
    if n < |ps| {
      assert ps[..n + 1][..n] == ps[..n];
      ExpandStopsAtBad(glob, ps, n + 1);
    } else {
      assert ps[..n] == ps;
    }
  }

  /** The concatenation of the matches of every pattern. */
  function AllMatches(glob: Globber, ps: seq<string>): seq<string>
    requires forall k :: 0 <= k < |ps| ==> glob(ps[k]).Some?
  {
    if ps == [] then [] else glob(ps[0]).value + AllMatches(glob, ps[1..])
  }

  /** The patterns fail exactly when one of them is malformed, and then with the first malformed one. */
  lemma {:induction false} ExpandFailsAtFirstBad(glob: Globber, ps: seq<string>)
    ensures Expand(glob, ps).BadPattern? <==> exists k :: 0 <= k < |ps| && glob(ps[k]).None?
    ensures Expand(glob, ps).BadPattern? ==>
              exists k :: 0 <= k < |ps| && glob(ps[k]).None? && ps[k] == Expand(glob, ps).pattern
                          && forall j :: 0 <= j < k ==> glob(ps[j]).Some?
  {
    if ps != [] {
      var init := ps[..|ps| - 1];
      ExpandFailsAtFirstBad(glob, init);
      if Expand(glob, init).BadPattern? {
        var k :| 0 <= k < |init| && glob(init[k]).None? && init[k] == Expand(glob, init).pattern
                 && forall j :: 0 <= j < k ==> glob(init[j]).Some?;
        assert ps[k] == init[k];
        assert forall j :: 0 <= j < k ==> ps[j] == init[j];
      } else {
        assert forall k :: 0 <= k < |init| ==> glob(ps[k]).Some? by {
          forall k | 0 <= k < |init| ensures glob(ps[k]).Some? {
            assert ps[k] == init[k];
          }
        }
      }
    }
  }

  /** When every pattern is well formed, the expansion is all their matches, pattern after pattern. */
  lemma {:induction false} ExpandAll(glob: Globber, ps: seq<string>)
    requires forall k :: 0 <= k < |ps| ==> glob(ps[k]).Some?
    ensures Expand(glob, ps) == Expanded(AllMatches(glob, ps))
  {
    if ps != [] {
      var init := ps[..|ps| - 1];
      ExpandAll(glob, init);
      AllMatchesSnoc(glob, init, ps[|ps| - 1]);
      assert init + [ps[|ps| - 1]] == ps;
    }
  }

  lemma {:induction false} AllMatchesSnoc(glob: Globber, ps: seq<string>, p: string)
    requires forall k :: 0 <= k < |ps| ==> glob(ps[k]).Some?
    requires glob(p).Some?
    ensures AllMatches(glob, ps + [p]) == AllMatches(glob, ps) + glob(p).value
  {
    if ps == [] {
      assert [] + [p] == [p];
    } else {
      assert (ps + [p])[1..] == ps[1..] + [p];
      AllMatchesSnoc(glob, ps[1..], p);
    }
  }

  /**
   * The checks of main in their order: -version first, then three positional
   * arguments, a -description path, a user/repo argument, a token, well-formed
   * globs and a readable description; then the release and the endpoint.
   */
  function Prepare(inv: Invocation, env: Environment, glob: Globber, read: Reader): (p: Plan)
    ensures p.Ready? ==> |inv.args| == 3 && ParseUserRepo(inv.args[0]).Some?
    ensures p.Ready? ==>
              var (user, repo) := ParseUserRepo(inv.args[0]).value;
              p.cfg == Config(RepoEndpoint(env, user, repo), inv.recreateDraft)
    ensures p.Ready? ==> read(inv.descFile).Some?
    ensures p.Ready? ==>
              p.release == NewRelease(inv.args[1], inv.args[2], read(inv.descFile).value, inv.prerelease, inv.draft, inv.latest)
    ensures p.Ready? ==> Expand(glob, Patterns(inv.assets)) == Expanded(p.paths)
  {
    if inv.version then ShowVersion
    else if |inv.args| != 3 then Reject(WrongArgCount(|inv.args|))
    else if inv.descFile == "" then Reject(NoDescription)
    else match ParseUserRepo(inv.args[0])
      case None => Reject(BadUserRepo(inv.args[0]))
      case Some((user, repo)) =>
        if env.token == "" then Reject(NoToken)
        else match Expand(glob, Patterns(inv.assets))
          case BadPattern(pattern) => Reject(BadGlob(pattern))
          case Expanded(paths) =>
            match read(inv.descFile)
            case None => Reject(UnreadableDescription(inv.descFile))
            case Some(desc) =>
              Ready(Config(RepoEndpoint(env, user, repo), inv.recreateDraft),
                    NewRelease(inv.args[1], inv.args[2], desc, inv.prerelease, inv.draft, inv.latest),
                    paths)
  }

  /** main goes on to publish exactly when every startup check passes. */
  lemma PrepareReadyIff(inv: Invocation, env: Environment, glob: Globber, read: Reader)
    ensures Prepare(inv, env, glob, read).Ready? <==>
              && !inv.version
              && |inv.args| == 3
              && inv.descFile != ""
              && Count(inv.args[0], '/') == 1
              && env.token != ""
              && (forall k :: 0 <= k < |Patterns(inv.assets)| ==> glob(Patterns(inv.assets)[k]).Some?)
              && read(inv.descFile).Some?
  {
    ExpandFailsAtFirstBad(glob, Patterns(inv.assets));
  }

  /** With -assets left empty, and Glob matching nothing for the empty pattern, no file is uploaded. */
  lemma NoAssetsNoPaths(inv: Invocation, env: Environment, glob: Globber, read: Reader)
    requires inv.assets == "" && glob("") == Some([])
    requires Prepare(inv, env, glob, read).Ready?
    ensures Prepare(inv, env, glob, read).paths == []
  {
    assert Patterns("") == [""];
  }

  /** The tool run: the startup checks, then publishRelease with the release built from the arguments. */
  method Run(inv: Invocation, env: Environment, glob: Globber, read: Reader, server: Server, fs: FileSystem,
             h: seq<Request>, ghost bound: nat)
    returns (exit: Exit, t: seq<Request>)
    requires Prepare(inv, env, glob, read).Ready? && inv.recreateDraft ==>
               ScanTerminates(server, Prepare(inv, env, glob, read).cfg.api, Prepare(inv, env, glob, read).release.tagName, h, 1, bound)
    ensures match Prepare(inv, env, glob, read)
            case ShowVersion => exit == Version && t == h
            case Reject(e) => exit == StartupFailed(e) && t == h
            case Ready(cfg, release, paths) =>
              && exit == Finished(Publish(cfg, server, fs, h, release, paths, bound).0)
              && t == h + Publish(cfg, server, fs, h, release, paths, bound).1
  {
    t := h;
    if inv.version {
      return Version, t;
    }
    if |inv.args| != 3 {
      return StartupFailed(WrongArgCount(|inv.args|)), t;
    }
    if inv.descFile == "" {
      return StartupFailed(NoDescription), t;
    }
    var userRepo := ParseUserRepo(inv.args[0]);
    if userRepo.None? {
      return StartupFailed(BadUserRepo(inv.args[0])), t;
    }
    if env.token == "" {
      return StartupFailed(NoToken), t;
    }
    var (user, repo) := userRepo.value;
    var cfg := Config(RepoEndpoint(env, user, repo), inv.recreateDraft);
    var expansion := ExpandAssets(glob, Patterns(inv.assets));
    if expansion.BadPattern? {
      return StartupFailed(BadGlob(expansion.pattern)), t;
    }
    var desc := read(inv.descFile);
    if desc.None? {
      return StartupFailed(UnreadableDescription(inv.descFile)), t;
    }
    var release := NewRelease(inv.args[1], inv.args[2], desc.value, inv.prerelease, inv.draft, inv.latest);
    var outcome;
    outcome, t := PublishRelease(cfg, server, fs, t, release, expansion.paths, bound);
    exit := Finished(outcome);
  }
}
