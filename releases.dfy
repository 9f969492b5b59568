/**
 * The Release entity, the JSON forms in which the API returns it, and the two
 * places where the tool builds a release from its inputs (main.go:175-183 and
 * main.go:217-225).
 */
module Releases {
  import opened Optional

  /** A release as the tool's Release struct holds it (main.go:35-45). */
  datatype Release = Release(
    id: int,
    uploadUrl: string,
    tagName: string,
    branch: string,
    name: string,
    body: string,
    draft: bool,
    prerelease: bool,
    makeLatest: string)

  /**
   * The body of an API response, already parsed as JSON. Encoding and decoding
   * text is not modelled; what matters to the tool is the shape of the value.
   */
  datatype Body =
    | ReleaseArray(items: seq<Release>)                        // a JSON array of releases
    | ReleaseObject(id: Option<int>, uploadUrl: Option<string>) // a JSON object; only the server-assigned keys are kept
    | Null                                                     // the JSON literal null
    | Unparsable(text: string)                                 // anything else

  /** json.Unmarshal into a []Release. */
  function DecodeList(b: Body): (r: Option<seq<Release>>)
    ensures r.Some? <==> b.ReleaseArray? || b.Null?
    ensures b.ReleaseArray? ==> r == Some(b.items)
    ensures b.Null? ==> r == Some([])
  {
    match b
    case ReleaseArray(items) => Some(items)
    case Null => Some([])
    case _ => None
  }

  /**
   * json.Unmarshal into an existing Release: keys present in the object
   * overwrite their fields, every other field keeps its value.
   */
  function DecodeInto(b: Body, into: Release): (r: Option<Release>)
    ensures r.Some? <==> b.ReleaseObject? || b.Null?
    ensures r.Some? ==> r.value.tagName == into.tagName && r.value.name == into.name
                        && r.value.branch == into.branch && r.value.body == into.body
                        && r.value.draft == into.draft && r.value.prerelease == into.prerelease
                        && r.value.makeLatest == into.makeLatest
    ensures r.Some? ==> r.value.uploadUrl == (if b.ReleaseObject? && b.uploadUrl.Some? then b.uploadUrl.value else into.uploadUrl)
    ensures r.Some? ==> r.value.id == (if b.ReleaseObject? && b.id.Some? then b.id.value else into.id)
  {
    match b
    case ReleaseObject(id, url) =>
      var withId := if id.Some? then into.(id := id.value) else into;
      Some(if url.Some? then withId.(uploadUrl := url.value) else withId)
    case Null => Some(into)
    case _ => None
  }

  /** fmt's %v for a bool. */
  function FormatBool(b: bool): string
  {
    if b then "true" else "false"
  }

  /**
   * The release main builds from its arguments and flags: the tag doubles as
   * the name, the latest flag is sent in text form, and the server-assigned
   * fields are left unset.
   */
  function NewRelease(tag: string, branch: string, desc: string, prerelease: bool, draft: bool, latest: bool): (r: Release)
    ensures r.name == r.tagName == tag
    ensures r.branch == branch && r.body == desc
    ensures r.prerelease == prerelease && r.draft == draft
    ensures r.makeLatest in {"true", "false"} && (r.makeLatest == "true" <==> latest)
    ensures r.id == 0 && r.uploadUrl == ""
  {
    Release(id := 0, uploadUrl := "", tagName := tag, branch := branch, name := tag, body := desc,
            draft := draft, prerelease := prerelease, makeLatest := FormatBool(latest))
  }

  /**
   * The release CreateRelease builds: name equal to the tag, published (not a
   * draft, not a prerelease), and no make_latest preference.
   */
  function LibraryRelease(tag: string, branch: string, desc: string): (r: Release)
    ensures r.name == r.tagName == tag
    ensures r.branch == branch && r.body == desc
    ensures !r.draft && !r.prerelease && r.makeLatest == ""
    ensures r.id == 0 && r.uploadUrl == ""
  {
    Release(id := 0, uploadUrl := "", tagName := tag, branch := branch, name := tag, body := desc,
            draft := false, prerelease := false, makeLatest := "")
  }
}
