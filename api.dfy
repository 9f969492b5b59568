/**
 * The requests the tool sends to the releases API, one constructor per
 * endpoint. `api` is the repository endpoint main computes
 * (main.go:146): the API base followed by /repos/<user>/<repo>.
 */
module Api {
  import opened Text
  import opened Releases
  import opened Http

  /** Releases are listed 100 to a page. */
  const PAGE_SIZE := 100

  const JSON := "application/json"
  const OCTET_STREAM := "application/octet-stream"

  /** POST {api}/releases with the release as JSON (main.go:266, 277). */
  function CreateRequest(api: string, release: Release): Request
  {
    Request(Post, api + "/releases", JSON, ReleasePayload(release))
  }

  /** GET {api}/releases/tags/{tag} (main.go:282-283). */
  function TagRequest(api: string, tag: string): Request
  {
    Request(Get, api + "/releases/tags/" + tag, JSON, NoPayload)
  }

  /** GET {api}/releases?per_page=100&page={page} (main.go:235-236). */
  function ListRequest(api: string, page: int): Request
  {
    Request(Get, api + "/releases?per_page=100&page=" + IntString(page), JSON, NoPayload)
  }

  /** DELETE {api}/releases/{id} (main.go:252-253). */
  function DeleteRequest(api: string, id: int): Request
  {
    Request(Delete, api + "/releases/" + IntString(id), JSON, NoPayload)
  }

  /** POST {uploadUrl}?name={base name of path} with the file's bytes (main.go:202-204). */
  function UploadRequest(uploadUrl: string, path: string, size: int): Request
  {
    Request(Post, uploadUrl + "?name=" + Base(path), OCTET_STREAM, FilePayload(path, size))
  }

  /** Deleting two different releases sends two different requests. */
  lemma DeleteRequestInjective(api: string, a: int, b: int)
    requires DeleteRequest(api, a) == DeleteRequest(api, b)
    ensures a == b
  {
    var prefix := api + "/releases/";
    assert (prefix + IntString(a))[|prefix|..] == IntString(a);
    assert (prefix + IntString(b))[|prefix|..] == IntString(b);
    IntStringInjective(a, b);
  }

  /** Listing two different pages sends two different requests. */
  lemma ListRequestInjective(api: string, p: int, q: int)
    requires ListRequest(api, p) == ListRequest(api, q)
    ensures p == q
  {
    var prefix := api + "/releases?per_page=100&page=";
    assert (prefix + IntString(p))[|prefix|..] == IntString(p);
    assert (prefix + IntString(q))[|prefix|..] == IntString(q);
    IntStringInjective(p, q);
  }

  /** The target of an upload names the file by its base name, after the upload URL. */
  lemma UploadTarget(uploadUrl: string, dir: string, name: string, size: int)
    requires name != [] && '/' !in name
    ensures UploadRequest(uploadUrl, dir + "/" + name, size).url == uploadUrl + "?name=" + name
    ensures UploadRequest(uploadUrl, name, size).url == uploadUrl + "?name=" + name
  {
    BaseOfJoin(dir, name);
    BaseOfName(name);
  }
}
