# github-release, modelled in Dafny

`github-release` is a command-line tool that publishes a release on the GitHub
releases API and uploads local files to it as release assets. It does the following:

1. Checks its arguments: `user/repo`, `tag`, `branch`, `-description` and a token.
2. With `-recreateDraft`, deletes the old drafts that carry the same tag. It lists
   the releases 100 per page and follows the pages while they are full.
3. POSTs the release. If the server answers with an error status, the release
   probably exists already, so the tool GETs it by its tag.
4. Cuts the returned `upload_url` template at its first `{`.
5. Uploads each file matched by the `-assets` globs as
   `POST <upload url>?name=<base name>`.

This project models all of the logic in `main.go` that goes beyond plumbing.
The network is an oracle: a `Server` is a function that maps the history of
earlier requests, plus a new request, to a reply. A reply is a transport failure
or a status code with a body. Every operation takes the history so far and
returns it extended by the requests it sent. What the tool does is therefore the
sequence of requests it sends, together with the outcome it reaches.

Modules, one per concern of the source:

- `Text`: `strings.Split`, its inverse `Join`, decimal `%d` formatting with its
  parser, and `filepath.Base`.
- `Releases`: the `Release` entity, the JSON shapes the API returns, and the two
  places that build a release.
- `Http`: how `doRequest` classifies a reply.
- `Api`: the five requests the tool sends.
- `Drafts`: `deleteDraftReleases`.
- `Uploads`: `uploadFile` and the upload loop.
- `Publisher`: `publishRelease` and `CreateRelease`.
- `Cli`: `main`'s startup checks and the glob expansion.

Where a method loops, it is proved equal to a recursive specification
function, and the properties are proved about that function:

- `DeleteDraftReleases` is proved against `Scan`.
- `UploadFiles` is proved against `UploadAll`.
- `ExpandAssets` is proved against `Expand`.
- `PublishRelease` is proved against `Publish`.
- `Run` is proved against `Prepare` and `Publish`.

The source's file-upload loop wraps each call in a `sync.WaitGroup` closure.
That closure is called directly, not started as a goroutine (main.go:302-305).
The uploads therefore run one after another, in path order, and the model
keeps that order.

## Model

| member | source | states |
|---|---|---|
| `Http.Classify` | main.go:350-365 | the reply counts as an error iff it is not an answer with status 200, 201 or 204; the body is handed back iff the server answered (so it is kept on a status error); a status error carries the status and the body; a transport failure carries no body |
| `Releases.DecodeList` | main.go:242-248 | decoding a page succeeds iff the body is a JSON array or `null`; `null` gives no releases |
| `Releases.DecodeInto` | main.go:290-293 | decoding into the release succeeds iff the body is an object or `null`; the object's `id` and `upload_url`, when present, overwrite the release's; when absent, and for `null`, the release keeps its own; tag, name, branch, body, draft, prerelease and `make_latest` stay as the tool set them |
| `Releases.FormatBool` | main.go:182 | `%v` of a bool: `"true"` or `"false"` |
| `Releases.NewRelease` | main.go:175-183 | the release main builds: name and tag are both the tag argument; branch, body, draft and prerelease come from the arguments and flags; `make_latest` is `"true"` or `"false"` and is `"true"` iff `-latest`; no id and no upload URL |
| `Releases.LibraryRelease` | main.go:217-225 | the release `CreateRelease` builds: name equals tag; neither draft nor prerelease; empty `make_latest` |
| `Text.Split` | main.go:133 | `strings.Split` on one character: count of separators + 1 parts, and no part contains the separator |
| `Text.JoinSplit` | main.go:133 | joining the parts of a split with the separator gives back the original string |
| `Text.SplitJoin` | main.go:133 | splitting a join of separator-free parts gives back the parts |
| `Text.SplitPlain` | main.go:154 | a string without the separator splits into itself alone |
| `Text.SplitHead` | main.go:133 | a separator-free head followed by the separator splits off as the first part |
| `Text.SplitFirst` | main.go:297 | the first part of a split is the prefix before the first separator, followed by that separator if there is one; without a separator it is the whole string |
| `Text.NatString` | main.go:235 | `%d` of a natural number is a non-empty string of decimal digits |
| `Text.ParseNatString` | main.go:235 | reading back the digits of a natural number gives the number |
| `Text.IntString` | main.go:252 | `%d` of an integer is non-empty, starts with `-` iff the integer is negative, and is otherwise made of decimal digits |
| `Text.IntStringRoundTrip` | main.go:252 | reading back `%d` of any integer, with a sign for negatives, gives the integer |
| `Text.IntStringInjective` | main.go:252 | different integers format differently |
| `Text.TrimTrailingSlashes` | main.go:202 | the result is a prefix of the path that does not end in `/`, and everything the trim removed is `/` |
| `Text.TrimAppendedSlashes` | main.go:202 | trimming a path that does not end in `/`, followed by any run of slashes, gives back that path |
| `Text.BaseIgnoresTrailingSlashes` | main.go:202 | trailing slashes do not change the base: the base of `a/b/` is the base of `a/b` |
| `Text.AfterLastSlash` | main.go:202 | the result is a suffix without `/`, and is the whole path when it has no `/` |
| `Text.AfterLastSlashMaximal` | main.go:202 | the character just before that suffix is a `/` |
| `Text.AfterLastSlashBound` | main.go:202 | the suffix never reaches back past any `/` of the path |
| `Text.Base` | main.go:202 | `filepath.Base` is never empty, and is `/` or contains no `/` |
| `Text.BaseOfJoin` | main.go:202 | the base of `dir/name` is `name` |
| `Text.BaseOfName` | main.go:202 | a bare file name is its own base |
| `Api.CreateRequest` | main.go:266-277 | the create request: a JSON POST of the release to `<api>/releases` |
| `Api.TagRequest` | main.go:282-283 | the fallback request: a GET of `<api>/releases/tags/<tag>` |
| `Api.ListRequest` | main.go:235-236 | the list request: a GET of `<api>/releases?per_page=100&page=<page>`, the page written with `%d` (different pages give different requests, `Api.ListRequestInjective`) |
| `Api.DeleteRequest` | main.go:252-253 | the delete request: a DELETE of `<api>/releases/<id>`, the id written with `%d` (different ids give different requests, `Api.DeleteRequestInjective`) |
| `Api.UploadRequest` | main.go:202-204 | the upload request: an octet-stream POST of the file to `<upload url>?name=<base name>` (see `Api.UploadTarget`) |
| `Api.DeleteRequestInjective` | main.go:252-253 | deletions of different release ids target different URLs |
| `Api.ListRequestInjective` | main.go:235-236 | requests for different pages target different URLs |
| `Api.UploadTarget` | main.go:202-204 | a file at `dir/name` or `name` is uploaded to `<upload url>?name=name` |
| `Drafts.IsStaleDraft` | main.go:250 | a release is deleted iff it is a draft and carries the tag |
| `Drafts.FullPage` | main.go:260 | the scan goes on to the next page iff this page was fetched, decoded, and held exactly 100 releases |
| `Drafts.PageDeletes` | main.go:249-259 | a page yields at most one request per listed release, and all of them are DELETEs |
| `Drafts.PageDeletesAppend` | main.go:249-259 | the deletions of two pages in a row are those of the first page followed by those of the second |
| `Drafts.PageDeletesTargets` | main.go:250-253 | a page's DELETE requests are exactly those for its releases that are drafts with the tag |
| `Drafts.DeletePage` | main.go:249-259 | the loop over a page sends the page's deletions in listing order; a failed DELETE does not stop it |
| `Drafts.ListedPage` | main.go:236-248 | a list reply yields releases iff the request succeeded and the body decoded; a failure of either ends the scan |
| `Drafts.EndsBefore` | main.go:236-262 | the scan from a page, after a history, stops before page `bound`: it follows the source's own rule (stop on a failed, undecodable or short page, otherwise delete and go on with the next page) and only requires that each full page it reaches lie below `bound` |
| `Drafts.ScanTerminates` | main.go:234-263 | the precondition of the cleaner's operations: `EndsBefore` from the given page and history; some bound satisfies it iff the scan stops |
| `Drafts.ShortPageStops` | main.go:260-261 | a page that does not come back full ends the scan there, whatever the bound |
| `Drafts.ScanTerminatesMonotone` | main.go:260-261 | a scan that stops before `bound` stops before any later page too |
| `Drafts.ScanStops` | main.go:260-261 | a scan that stops before `bound` never finds a full page at `bound` or beyond |
| `Drafts.ScanTerminatesNext` | main.go:249-261 | a full page lies below the bound, and the scan from the next page, after this page's list request and deletions, still stops before it |
| `Drafts.Scan` | main.go:234-263 | the scan from a page starts by listing that page |
| `Drafts.ScanPage` | main.go:234-263 | one page of the scan: a failed page is only listed; a decoded page is listed and its drafts deleted; a full page lies below the bound and is followed by the scan of the next page |
| `Drafts.DeleteDraftReleases` | main.go:229-263 | the cleaner sends exactly the requests of the scan that starts at page 1 |
| `Drafts.OfVerbMembers` | main.go:236 | helper over the request trace, used to state what the scan sends: picking by verb keeps exactly the requests of the trace that have that verb |
| `Drafts.OfVerbAppend` | main.go:236 | helper over the request trace, used to state what the scan sends: picking requests by verb distributes over concatenation of traces |
| `Drafts.OfVerbAll` | main.go:253 | helper over the request trace, used to state what the scan sends: picking by verb keeps the whole trace when every request has that verb |
| `Drafts.OfVerbNone` | main.go:253 | helper over the request trace, used to state what the scan sends: picking by verb gives nothing when no request has that verb |
| `Drafts.FlattenCons` | main.go:249 | helper over the listed pages, used to state what the scan reads: flattening pages puts each page's releases before those of the later pages |
| `Drafts.ScanDeletes` | main.go:234-263 | the scan's DELETEs are the deletions of the releases it listed, page after page, in listing order |
| `Drafts.ScanDeletesExactly` | main.go:250-253 | a request is a DELETE of the scan iff it deletes a listed draft with the tag |
| `Drafts.ScanSparesOthers` | main.go:250 | a listed release that is not such a draft, and whose id no such draft shares, is never deleted |
| `Drafts.ScanVerbs` | main.go:234-263 | the scan only lists and deletes |
| `Drafts.ScanStep` | main.go:234-263 | one step of the scan: a failed page lists once and reads nothing; a short page lists once and reads that page; a full page lies below the termination bound, keeps the termination assumption for the history that follows it, and is followed by the scan of the next page |
| `Drafts.ScanListsConsecutive` | main.go:234-263 | the list requests are for consecutive pages from the first one, each once, in order |
| `Drafts.ScanPagination` | main.go:234-263 | every listed page but the last decoded to exactly 100 releases; at most the last listed page went undecoded (a failure ends the scan without an error); when the last listed page decoded, it was not full |
| `Drafts.ScanIgnoresDeleteReplies` | main.go:253-257 | the scan depends only on the replies to its list requests, not on how the DELETEs went |
| `Uploads.UploadFile` | main.go:188-213 | one upload: a file that cannot be opened or stat-ed sends nothing; otherwise one POST of the file to `<upload url>?name=<base name>`, whose classified reply is only recorded, as the source only logs it (see `Uploads.UploadFileReflects`) |
| `Uploads.UploadAll` | main.go:299-307 | the upload loop as a function: `uploadFile` for each path in turn, each after the requests of the earlier ones, whatever they did; `Uploads.UploadAllAttempts` and `Uploads.UploadAllRequests` state its properties |
| `Uploads.UploadFiles` | main.go:299-307 | the loop makes the upload attempts of `UploadAll`, one per path, in path order |
| `Uploads.ReadableUploadsArePosts` | main.go:202-204 | every upload request is a POST |
| `Uploads.UploadFileReflects` | main.go:189-204 | an upload fails to open, fails to stat, or is sent, exactly as the file's status says |
| `Uploads.UploadAllAttempts` | main.go:188-213 | one outcome per path, in order; the k-th outcome failed to open, failed to stat, or was sent, exactly as that file's status says; an earlier failure never stops a later path |
| `Uploads.UploadAllRequests` | main.go:188-204 | the requests sent are one POST per openable and stat-able file, in path order, each to `<upload url>?name=<base name>` with the octet-stream type |
| `Publisher.UploadBase` | main.go:295-297 | the upload URL is the prefix of the template before its first `{` and contains no `{`; a template without `{` is kept whole |
| `Publisher.UploadBaseOfTemplate` | main.go:295-297 | everything from the first `{` on is dropped |
| `Publisher.UploadBaseExample` | main.go:295 | a template ending in `{?name}` loses the placeholder |
| `Publisher.Cleanup` | main.go:273-275 | the draft cleanup runs, as the scan from page 1, iff `-recreateDraft` is set; otherwise nothing is sent |
| `Publisher.CreateOrFetch` | main.go:277-284 | the create-or-fetch step sends the POST, then at most the GET by tag |
| `Publisher.Publish` | main.go:265-308 | what publishRelease does: the cleanup when asked, then create-or-fetch, then `Finish` on its answer; the properties below are proved about it |
| `Publisher.Finish` | main.go:285-307 | the end of publishRelease: an error or an undecodable body is fatal with nothing sent; otherwise every path is uploaded to the cut upload URL |
| `Publisher.FetchRelease` | main.go:277-284 | the POST is sent; the GET by tag follows iff the POST failed with a body |
| `Publisher.FinishPublish` | main.go:285-307 | any remaining error is fatal; so is an undecodable body; otherwise the files are uploaded to the cut upload URL |
| `Publisher.PublishRelease` | main.go:265-308 | publishRelease sends the cleanup (if asked), then the create-or-fetch requests, then the uploads, and ends with the outcome of `Publish` |
| `Publisher.CreateRelease` | main.go:217-226 | publishing the release with empty `make_latest` and neither draft nor prerelease |
| `Publisher.FinishSendsUploads` | main.go:299-307 | after the create-or-fetch step only upload POSTs are sent, and exactly those of the readable files |
| `Publisher.NoDeleteAfterCreate` | main.go:277-307 | the create-or-fetch step starts with the POST, and nothing sent from there on is a DELETE |
| `Publisher.CleanupPrecedesCreate` | main.go:273-277 | all requests of the draft cleanup come before the create POST, and no DELETE follows it |
| `Publisher.FallbackIffRejected` | main.go:279-284 | the GET by tag right after the POST happens iff the POST was answered with a status outside 200, 201 and 204 |
| `Publisher.AbortSendsNoUpload` | main.go:285-293 | a fatal stop sends nothing after the POST and its possible fallback GET |
| `Publisher.PublishedUploadsEveryPath` | main.go:297-307 | when publishing gets through, the upload URL has no `{`, every path gets exactly one attempt that reflects its file's status, and the requests after create-or-fetch are the uploads of the readable files |
| `Publisher.ExistingReleaseIsReused` | main.go:277-297 | a rejected POST followed by a GET that returns the release publishes to the upload URL from the GET |
| `Publisher.BothFailIsFatal` | main.go:279-287 | when both the POST and the fallback GET fail, the GET's error is fatal and no upload is sent |
| `Publisher.TransportFailureIsFatal` | main.go:277-287 | a transport failure on the POST is fatal at once, with no fallback GET |
| `Cli.ParseUserRepo` | main.go:133-146 | `user/repo` is accepted iff it contains exactly one `/`; its two parts then contain no `/` and rebuild the argument |
| `Cli.ParseUserRepoOfPair` | main.go:133-146 | any user and repository without `/`, written as `user/repo`, parse back to themselves |
| `Cli.RepoEndpoint` | main.go:67-69 | the API base is `GITHUB_API`, or `https://api.github.com` when that is empty; main then appends `/repos/<user>/<repo>` (main.go:146) |
| `Cli.Patterns` | main.go:154 | `-assets` splits on single spaces into count of spaces + 1 patterns, none containing a space |
| `Cli.Expand` | main.go:154-160 | the glob expansion: the matches of each pattern in order, or the first malformed pattern (see `Cli.ExpandFailsAtFirstBad`, `Cli.ExpandAll`) |
| `Cli.ExpandAssets` | main.go:154-161 | the glob loop computes `Expand`: the matches in order, or the first malformed pattern |
| `Cli.ExpandStopsAtBad` | main.go:157-159 | once a pattern is malformed, the later patterns do not matter |
| `Cli.ExpandFailsAtFirstBad` | main.go:154-161 | the expansion fails iff some pattern is malformed, and it names the first such pattern |
| `Cli.ExpandAll` | main.go:154-161 | with well-formed patterns the paths are all their matches, pattern after pattern |
| `Cli.AllMatchesSnoc` | main.go:160 | appending a pattern appends its matches |
| `Cli.Prepare` | main.go:118-184 | publishing only goes ahead with 3 arguments and a well-formed `user/repo`. The endpoint is then `<API>/repos/<user>/<repo>` and `-recreateDraft` is passed on. The release is `NewRelease` of the tag, the branch, the description file's contents and the flags. The paths are the glob expansion |
| `Cli.PrepareReadyIff` | main.go:118-172 | main goes on to publish iff: no `-version`; 3 arguments; a `-description` path; exactly one `/` in `user/repo`; a token; no malformed glob; a readable description |
| `Cli.NoAssetsNoPaths` | main.go:155-161 | when `-assets` is empty (and Glob matches nothing for an empty pattern), no file is uploaded |
| `Cli.Run` | main.go:118-186 | `-version` and every startup failure end the run with no request sent; otherwise the run sends what `publishRelease` sends and ends with its outcome |

## Left out

- The HTTP transport itself is not modelled: headers (the token, `Content-type`, `Accept`), content lengths, reading the response body, and the debug request and response dumps. A server's reply is an oracle parameter. A failure while building the request or reading the body counts as a transport failure.
- `Releases.DecodeInto`: a reply object carries only `id` and `upload_url`. The other keys Go's `json.Unmarshal` would also copy into the release (`tag_name`, `name`, `body`, `draft`, `prerelease`, `target_commitish`) are dropped. Nothing reads those fields after the decoding.
- JSON text is not modelled. A reply body is already a parsed shape: an array of releases, an object with `id` and `upload_url`, `null`, or anything else. The POST carries the release value itself. `json.Marshal` of a release cannot fail, so its fatal branch (main.go:267-270) is absent.
- Opening, stat-ing and reading local files, `filepath.Glob` and `os.ReadFile` are oracle parameters (`FileSystem`, `Globber`, `Reader`). File contents are not modelled, only their sizes.
- `Text.Base` follows Unix paths only: `/` is the only separator, and there are no Windows volume names.
- Logging, printing the description, `-version` output and process exit codes are not modelled. `log.Fatal` becomes an `Aborted` or `StartupFailed` outcome. `Done` is not printed.
- The `DEBUG`, `GITHUB_USER` and `GITHUB_REPO` environment variables are not modelled. The last two are overwritten by main before use.
- `Drafts.DeleteDraftReleases`: the Go recursion over pages has no bound. The model asks the caller for a ghost `bound` such that the scan from page 1 stops before page `bound` (`ScanTerminates`, which follows the scan's own rule over the requests it sends). Such a bound exists exactly when the cleaner's scan stops. Only a server whose replies make the cleaner page forever is outside the model.
- Integer widths are not modelled: release ids, page numbers and file sizes are unbounded integers. The tool never does arithmetic on them beyond incrementing the page.
- `Publisher.PublishRelease`: `recreateDraftFlag` and the endpoint are package-level variables in the source. The model passes them in as a `Config`.
