/**
 * The draft cleaner (deleteDraftReleases and deleteDraftReleasesRec,
 * main.go:229-263): list the repository's releases a page at a time, starting
 * at page 1, and delete every draft whose tag is the one being published.
 */
module Drafts {
  import opened Optional
  import opened Releases
  import opened Http
  import opened Api

  /** A release the cleaner deletes: a draft carrying the tag being published. */
  predicate IsStaleDraft(r: Release, tag: string)
  {
    r.draft && r.tagName == tag
  }

  /** The DELETE requests the cleaner sends for one listed page, in listing order. */
  function PageDeletes(api: string, tag: string, rs: seq<Release>): (ds: seq<Request>)
    ensures |ds| <= |rs|
    ensures forall q :: q in ds ==> q.verb == Delete
  {
    if rs == [] then []
    else
      var last := rs[|rs| - 1];
      PageDeletes(api, tag, rs[..|rs| - 1]) + (if IsStaleDraft(last, tag) then [DeleteRequest(api, last.id)] else [])
  }

  /** The releases a list reply yields; None when the request or the decoding failed. */
  function ListedPage(reply: Reply): Option<seq<Release>>
  {
    var resp := Classify(reply);
    if resp.err.Some? then None else DecodeList(resp.data.value)
  }

  /** A list reply the cleaner follows with the next page: exactly 100 releases. */
  predicate FullPage(reply: Reply)
  {
    ListedPage(reply).Some? && |ListedPage(reply).value| == PAGE_SIZE
  }

  /** What the server answers to the request for page `page` after history h. */
  function ListReply(server: Server, api: string, h: seq<Request>, page: int): Reply
  {
    server(h, ListRequest(api, page))
  }

  /**
   * The scan from page `page` after history h stops before page `bound`,
   * following deleteDraftReleasesRec's own rule: a page that fails, does not
   * decode or is not full ends it; a full page must lie below `bound`, and the
   * scan goes on with the next page after its list request and its deletions.
   */
  ghost function EndsBefore(server: Server, api: string, tag: string, h: seq<Request>, page: int, bound: nat): bool
    decreases if page < bound then bound - page else 0
  {
    var reply := ListReply(server, api, h, page);
    FullPage(reply) ==>
      page < bound
      && EndsBefore(server, api, tag, h + [ListRequest(api, page)] + PageDeletes(api, tag, ListedPage(reply).value), page + 1, bound)
  }

  /**
   * What the cleaner's operations ask of the server: the scan stops before page
   * `bound`. A scan stops iff some bound makes this hold; without one the
   * cleaner pages forever.
   */
  ghost predicate ScanTerminates(server: Server, api: string, tag: string, h: seq<Request>, page: int, bound: nat)
  {
    EndsBefore(server, api, tag, h, page, bound)
  }

  /** A page that does not come back full ends the scan there, whatever the bound. */
  lemma ShortPageStops(server: Server, api: string, tag: string, h: seq<Request>, page: int, bound: nat)
    requires !FullPage(ListReply(server, api, h, page))
    ensures ScanTerminates(server, api, tag, h, page, bound)
  {
  }

  /** A larger bound serves as well: the scan that stops before `bound` stops before any later page. */
  lemma {:induction false} ScanTerminatesMonotone(server: Server, api: string, tag: string, h: seq<Request>, page: int, bound: nat, later: nat)
    requires ScanTerminates(server, api, tag, h, page, bound) && bound <= later
    ensures ScanTerminates(server, api, tag, h, page, later)
    decreases if page < bound then bound - page else 0
  {
    match ListedPage(ListReply(server, api, h, page))
    case None =>
    case Some(rs) =>
      if |rs| == PAGE_SIZE {
        ScanTerminatesMonotone(server, api, tag, h + [ListRequest(api, page)] + PageDeletes(api, tag, rs), page + 1, bound, later);
      }
  }

  /** A page from `bound` on is never full for a scan that stops before `bound`. */
  lemma ScanStops(server: Server, api: string, tag: string, h: seq<Request>, page: int, bound: nat)
    requires ScanTerminates(server, api, tag, h, page, bound)
    ensures bound <= page ==> !FullPage(ListReply(server, api, h, page))
  {
  }

  /** After a full page's list request and its deletions the scan still stops before `bound`. */
  lemma ScanTerminatesNext(server: Server, api: string, tag: string, h: seq<Request>, page: int, rs: seq<Release>, bound: nat)
    requires ScanTerminates(server, api, tag, h, page, bound)
    requires ListedPage(ListReply(server, api, h, page)) == Some(rs) && |rs| == PAGE_SIZE
    ensures page < bound
    ensures ScanTerminates(server, api, tag, h + [ListRequest(api, page)] + PageDeletes(api, tag, rs), page + 1, bound)
  {
  }

  /**
   * The requests the cleaner sends from page `page` on, after history h: the
   * page's list request, then (when it decodes) a DELETE per stale draft on it,
   * then the next page when this one was full. The replies to the DELETEs are
   * only logged, so they do not appear here.
   */
  ghost function Scan(server: Server, api: string, tag: string, h: seq<Request>, page: int, bound: nat): (t: seq<Request>)
    requires ScanTerminates(server, api, tag, h, page, bound)
    ensures |t| >= 1 && t[0] == ListRequest(api, page)
    decreases if page < bound then bound - page else 0
  {
    var req := ListRequest(api, page);
    ScanStops(server, api, tag, h, page, bound);
    match ListedPage(ListReply(server, api, h, page))
    case None => [req]
    case Some(rs) =>
      var ds := PageDeletes(api, tag, rs);
      if |rs| == PAGE_SIZE then
        ScanTerminatesNext(server, api, tag, h, page, rs, bound);
        [req] + ds + Scan(server, api, tag, h + [req] + ds, page + 1, bound)
      else [req] + ds
  }

  /** The pages the scan decoded, in the order it read them. */
  ghost function ScannedPages(server: Server, api: string, tag: string, h: seq<Request>, page: int, bound: nat): seq<seq<Release>>
    requires ScanTerminates(server, api, tag, h, page, bound)
    decreases if page < bound then bound - page else 0
  {
    var req := ListRequest(api, page);
    ScanStops(server, api, tag, h, page, bound);
    match ListedPage(ListReply(server, api, h, page))
    case None => []
    case Some(rs) =>
      var ds := PageDeletes(api, tag, rs);
      if |rs| == PAGE_SIZE then
        ScanTerminatesNext(server, api, tag, h, page, rs, bound);
        [rs] + ScannedPages(server, api, tag, h + [req] + ds, page + 1, bound)
      else [rs]
  }

  /** One page of the scan unfolded: the list request, the page's deletions, and the rest when it was full. */
  lemma ScanPage(server: Server, api: string, tag: string, h: seq<Request>, page: int, bound: nat)
    requires ScanTerminates(server, api, tag, h, page, bound)
    ensures var req := ListRequest(api, page);
            match ListedPage(ListReply(server, api, h, page))
            case None => Scan(server, api, tag, h, page, bound) == [req]
            case Some(rs) =>
              var ds := PageDeletes(api, tag, rs);
              if |rs| == PAGE_SIZE then
                && page < bound
                && ScanTerminates(server, api, tag, h + [req] + ds, page + 1, bound)
                && Scan(server, api, tag, h, page, bound) == [req] + ds + Scan(server, api, tag, h + [req] + ds, page + 1, bound)
              else Scan(server, api, tag, h, page, bound) == [req] + ds
  {
    ScanStops(server, api, tag, h, page, bound);
    match ListedPage(ListReply(server, api, h, page))
    case None =>
    case Some(rs) =>
      if |rs| == PAGE_SIZE {
        assert FullPage(ListReply(server, api, h, page));
        ScanTerminatesNext(server, api, tag, h, page, rs, bound);
      }
  }

  function Flatten(pages: seq<seq<Release>>): seq<Release>
  {
    if pages == [] then [] else pages[0] + Flatten(pages[1..])
  }

  /** The loop over one listed page (main.go:249-259): a DELETE per stale draft, failures ignored. */
  method DeletePage(server: Server, api: string, tag: string, h: seq<Request>, releases: seq<Release>) returns (t: seq<Request>)
    ensures t == h + PageDeletes(api, tag, releases)
  {
    t := h;
    for i := 0 to |releases|
      invariant t == h + PageDeletes(api, tag, releases[..i])
    {
      var release := releases[i];
      assert releases[..i + 1][..i] == releases[..i] && releases[..i + 1][i] == release;
      if release.draft && release.tagName == tag {
        var del := DeleteRequest(api, release.id);
        var deleted := Classify(server(t, del));  // a failed DELETE is only logged
        t := t + [del];
      }
    }
    assert releases[..|releases|] == releases;
  }

  /**
   * deleteDraftReleases(tag): the scan from page 1, written as the loop the
   * tail recursion amounts to. Returns the history extended by every request sent.
   */
  method DeleteDraftReleases(server: Server, api: string, tag: string, h: seq<Request>, ghost bound: nat) returns (t: seq<Request>)
    requires ScanTerminates(server, api, tag, h, 1, bound)
    ensures t == h + Scan(server, api, tag, h, 1, bound)
  {
    t := h;
    var page := 1;
    while true
      invariant ScanTerminates(server, api, tag, t, page, bound)
      invariant h + Scan(server, api, tag, h, 1, bound) == t + Scan(server, api, tag, t, page, bound)
      decreases if page < bound then bound - page else 0
    {
      var req := ListRequest(api, page);
      var resp := Classify(server(t, req));
      ghost var before := t;
      ghost var rest := Scan(server, api, tag, before, page, bound);
      ScanPage(server, api, tag, before, page, bound);
      assert resp == Classify(ListReply(server, api, before, page));
      t := t + [req];
      if resp.err.Some? {
        assert rest == [req];
        return;
      }
      var decoded := DecodeList(resp.data.value);
      if decoded.None? {
        assert rest == [req];
        return;
      }
      var releases := decoded.value;
      assert ListedPage(ListReply(server, api, before, page)) == Some(releases);
      t := DeletePage(server, api, tag, t, releases);
      ghost var ds := PageDeletes(api, tag, releases);
      if |releases| != PAGE_SIZE {
        assert rest == [req] + ds;
        Regroup(before, [req], ds, []);
        return;
      }
      ghost var later := Scan(server, api, tag, t, page + 1, bound);
      assert rest == [req] + ds + later;
      Regroup(before, [req], ds, later);
      page := page + 1;
    }
  }

  /** Concatenation regrouped: the history before a page, then the page's requests and the rest. */
  lemma Regroup(a: seq<Request>, b: seq<Request>, c: seq<Request>, d: seq<Request>)
    ensures a + (b + c + d) == a + b + c + d
  {
  }

  // ---- What the scan deletes ----

  /** The requests of t with verb v, in order. */
  function OfVerb(t: seq<Request>, v: Method): seq<Request>
  {
    if t == [] then [] else (if t[0].verb == v then [t[0]] else []) + OfVerb(t[1..], v)
  }

  /** The requests picked by verb are exactly the requests of t with that verb. */
  lemma {:induction false} OfVerbMembers(t: seq<Request>, v: Method)
    ensures forall q :: q in OfVerb(t, v) <==> q in t && q.verb == v
  {
    if t != [] {
      OfVerbMembers(t[1..], v);
      assert t == [t[0]] + t[1..];
    }
  }

  lemma {:induction false} OfVerbAppend(a: seq<Request>, b: seq<Request>, v: Method)
    ensures OfVerb(a + b, v) == OfVerb(a, v) + OfVerb(b, v)
  {
    if a != [] {
      assert (a + b)[1..] == a[1..] + b;
      OfVerbAppend(a[1..], b, v);
    } else {
      assert a + b == b;
    }
  }

  lemma {:induction false} OfVerbAll(t: seq<Request>, v: Method)
    requires forall q :: q in t ==> q.verb == v
    ensures OfVerb(t, v) == t
  {
    if t != [] {
      assert t[0] in t;
      OfVerbAll(t[1..], v);
    }
  }

  lemma {:induction false} OfVerbNone(t: seq<Request>, v: Method)
    requires forall q :: q in t ==> q.verb != v
    ensures OfVerb(t, v) == []
  {
    if t != [] {
      assert t[0] in t;
      OfVerbNone(t[1..], v);
    }
  }

  /** Listing a, then b, deletes what a and b delete, in that order. */
  lemma {:induction false} PageDeletesAppend(api: string, tag: string, a: seq<Release>, b: seq<Release>)
    ensures PageDeletes(api, tag, a + b) == PageDeletes(api, tag, a) + PageDeletes(api, tag, b)
    decreases |b|
  {
    if b == [] {
      assert a + b == a;
    } else {
      var init := b[..|b| - 1];
      assert (a + b)[..|a + b| - 1] == a + init;
      assert (a + b)[|a + b| - 1] == b[|b| - 1];
      PageDeletesAppend(api, tag, a, init);
    }
  }

  /** A page's DELETE requests are exactly those for its stale drafts. */
  lemma {:induction false} PageDeletesTargets(api: string, tag: string, rs: seq<Release>)
    ensures forall q :: q in PageDeletes(api, tag, rs) <==>
                        exists r :: r in rs && IsStaleDraft(r, tag) && q == DeleteRequest(api, r.id)
  {
    if rs != [] {
      var init, last := rs[..|rs| - 1], rs[|rs| - 1];
      PageDeletesTargets(api, tag, init);
      assert rs == init + [last];
      forall q | q in PageDeletes(api, tag, rs)
        ensures exists r :: r in rs && IsStaleDraft(r, tag) && q == DeleteRequest(api, r.id)
      {
        if q !in PageDeletes(api, tag, init) {
          assert last in rs;
        }
      }
      forall r | r in rs && IsStaleDraft(r, tag)
        ensures DeleteRequest(api, r.id) in PageDeletes(api, tag, rs)
      {
        if r != last {
          assert r in init;
        }
      }
    }
  }

  lemma {:induction false} FlattenCons(rs: seq<Release>, pages: seq<seq<Release>>)
    ensures Flatten([rs] + pages) == rs + Flatten(pages)
  {
    assert ([rs] + pages)[1..] == pages;
  }

  /**
   * Over the whole scan, the DELETE requests are those of each decoded page,
   * page after page: one per stale draft, in listing order.
   */
  lemma {:induction false} ScanDeletes(server: Server, api: string, tag: string, h: seq<Request>, page: int, bound: nat)
    requires ScanTerminates(server, api, tag, h, page, bound)
    ensures OfVerb(Scan(server, api, tag, h, page, bound), Delete)
            == PageDeletes(api, tag, Flatten(ScannedPages(server, api, tag, h, page, bound)))
    decreases if page < bound then bound - page else 0
  {
    var req := ListRequest(api, page);
    var listed := ListedPage(ListReply(server, api, h, page));
    if listed.Some? {
      var rs := listed.value;
      var ds := PageDeletes(api, tag, rs);
      OfVerbAll(ds, Delete);
      assert OfVerb([req], Delete) == [];
      OfVerbAppend([req], ds, Delete);
      if |rs| == PAGE_SIZE {
        assert FullPage(ListReply(server, api, h, page));
        ScanStops(server, api, tag, h, page, bound);
        ScanTerminatesNext(server, api, tag, h, page, rs, bound);
        var next := h + [req] + ds;
        var rest := Scan(server, api, tag, next, page + 1, bound);
        var restPages := ScannedPages(server, api, tag, next, page + 1, bound);
        assert Scan(server, api, tag, h, page, bound) == [req] + ds + rest;
        assert ScannedPages(server, api, tag, h, page, bound) == [rs] + restPages;
        ScanDeletes(server, api, tag, next, page + 1, bound);
        OfVerbAppend([req] + ds, rest, Delete);
        FlattenCons(rs, restPages);
        PageDeletesAppend(api, tag, rs, Flatten(restPages));
        assert OfVerb([req] + ds, Delete) == ds;
        assert OfVerb([req] + ds + rest, Delete) == ds + OfVerb(rest, Delete);
      } else {
        assert Scan(server, api, tag, h, page, bound) == [req] + ds;
        assert ScannedPages(server, api, tag, h, page, bound) == [rs];
        FlattenCons(rs, []);
        assert rs + [] == rs;
      }
    }
  }

  /**
   * The scan sends a DELETE exactly for the stale drafts it listed: a request
   * is a DELETE of the scan iff it deletes a listed draft carrying the tag.
   */
  lemma ScanDeletesExactly(server: Server, api: string, tag: string, h: seq<Request>, page: int, bound: nat)
    requires ScanTerminates(server, api, tag, h, page, bound)
    ensures forall q :: q in Scan(server, api, tag, h, page, bound) && q.verb == Delete <==>
                        exists r :: r in Flatten(ScannedPages(server, api, tag, h, page, bound))
                                    && IsStaleDraft(r, tag) && q == DeleteRequest(api, r.id)
  {
    ScanDeletes(server, api, tag, h, page, bound);
    OfVerbMembers(Scan(server, api, tag, h, page, bound), Delete);
    PageDeletesTargets(api, tag, Flatten(ScannedPages(server, api, tag, h, page, bound)));
  }

  /**
   * A listed release that is not a stale draft (a published release with the
   * tag, a draft with another tag) gets no DELETE, unless a stale draft shares
   * its id.
   */
  lemma ScanSparesOthers(server: Server, api: string, tag: string, h: seq<Request>, page: int, bound: nat, r: Release)
    requires ScanTerminates(server, api, tag, h, page, bound)
    requires r in Flatten(ScannedPages(server, api, tag, h, page, bound)) && !IsStaleDraft(r, tag)
    requires forall s :: s in Flatten(ScannedPages(server, api, tag, h, page, bound)) && IsStaleDraft(s, tag) ==> s.id != r.id
    ensures DeleteRequest(api, r.id) !in Scan(server, api, tag, h, page, bound)
  {
    ScanDeletesExactly(server, api, tag, h, page, bound);
    if DeleteRequest(api, r.id) in Scan(server, api, tag, h, page, bound) {
      var s :| s in Flatten(ScannedPages(server, api, tag, h, page, bound))
               && IsStaleDraft(s, tag) && DeleteRequest(api, r.id) == DeleteRequest(api, s.id);
      DeleteRequestInjective(api, r.id, s.id);
    }
  }

  /** The scan only lists and deletes: it never sends a POST. */
  lemma {:induction false} ScanVerbs(server: Server, api: string, tag: string, h: seq<Request>, page: int, bound: nat)
    requires ScanTerminates(server, api, tag, h, page, bound)
    ensures forall q :: q in Scan(server, api, tag, h, page, bound) ==> q.verb == Get || q.verb == Delete
    decreases if page < bound then bound - page else 0
  {
    var req := ListRequest(api, page);
    var listed := ListedPage(ListReply(server, api, h, page));
    if listed.Some? && |listed.value| == PAGE_SIZE {
      assert FullPage(ListReply(server, api, h, page));
      ScanStops(server, api, tag, h, page, bound);
      ScanTerminatesNext(server, api, tag, h, page, listed.value, bound);
      var ds := PageDeletes(api, tag, listed.value);
      ScanVerbs(server, api, tag, h + [req] + ds, page + 1, bound);
    }
  }

  // ---- How the scan pages ----

  /** The list requests for pages page, page + 1, ..., page + n - 1. */
  function PageRequests(api: string, page: int, n: nat): seq<Request>
    decreases n
  {
    if n == 0 then [] else [ListRequest(api, page)] + PageRequests(api, page + 1, n - 1)
  }

  /** One step of the scan: the list requests and the pages it reads, split into this page and the rest. */
  lemma ScanStep(server: Server, api: string, tag: string, h: seq<Request>, page: int, bound: nat)
    requires ScanTerminates(server, api, tag, h, page, bound)
    ensures var req := ListRequest(api, page);
            var lists := OfVerb(Scan(server, api, tag, h, page, bound), Get);
            var pages := ScannedPages(server, api, tag, h, page, bound);
            match ListedPage(ListReply(server, api, h, page))
            case None => lists == [req] && pages == []
            case Some(rs) =>
              var next := h + [req] + PageDeletes(api, tag, rs);
              if |rs| == PAGE_SIZE then
                && page < bound
                && ScanTerminates(server, api, tag, next, page + 1, bound)
                && lists == [req] + OfVerb(Scan(server, api, tag, next, page + 1, bound), Get)
                && pages == [rs] + ScannedPages(server, api, tag, next, page + 1, bound)
              else lists == [req] && pages == [rs]
  {
    var req := ListRequest(api, page);
    assert OfVerb([req], Get) == [req];
    match ListedPage(ListReply(server, api, h, page))
    case None =>
    case Some(rs) =>
      var ds := PageDeletes(api, tag, rs);
      OfVerbNone(ds, Get);
      OfVerbAppend([req], ds, Get);
      if |rs| == PAGE_SIZE {
        assert FullPage(ListReply(server, api, h, page));
        ScanStops(server, api, tag, h, page, bound);
        ScanTerminatesNext(server, api, tag, h, page, rs, bound);
        var next := h + [req] + ds;
        var rest := Scan(server, api, tag, next, page + 1, bound);
        assert Scan(server, api, tag, h, page, bound) == [req] + ds + rest;
        OfVerbAppend([req] + ds, rest, Get);
      }
  }

  /** The scan lists consecutive pages from `page` on, each once and in order. */
  lemma {:induction false} ScanListsConsecutive(server: Server, api: string, tag: string, h: seq<Request>, page: int, bound: nat)
    requires ScanTerminates(server, api, tag, h, page, bound)
    ensures var lists := OfVerb(Scan(server, api, tag, h, page, bound), Get);
            |lists| >= 1 && lists == PageRequests(api, page, |lists|)
    decreases if page < bound then bound - page else 0
  {
    ScanStep(server, api, tag, h, page, bound);
    var lists := OfVerb(Scan(server, api, tag, h, page, bound), Get);
    var listed := ListedPage(ListReply(server, api, h, page));
    if listed.Some? && |listed.value| == PAGE_SIZE {
      var next := h + [ListRequest(api, page)] + PageDeletes(api, tag, listed.value);
      var restLists := OfVerb(Scan(server, api, tag, next, page + 1, bound), Get);
      ScanListsConsecutive(server, api, tag, next, page + 1, bound);
      assert PageRequests(api, page, |lists|) == [ListRequest(api, page)] + PageRequests(api, page + 1, |restLists|);
    }
  }

  /**
   * Pagination: the scan asks for the next page only after a page decoded to
   * exactly 100 releases, and it stops after a page that failed, did not
   * decode, or held fewer or more than 100.
   */
  lemma {:induction false} ScanPagination(server: Server, api: string, tag: string, h: seq<Request>, page: int, bound: nat)
    requires ScanTerminates(server, api, tag, h, page, bound)
    ensures var lists := OfVerb(Scan(server, api, tag, h, page, bound), Get);
            var pages := ScannedPages(server, api, tag, h, page, bound);
            && |pages| <= |lists| <= |pages| + 1
            && (forall i :: 0 <= i < |lists| - 1 ==> |pages[i]| == PAGE_SIZE)
            && (|pages| == |lists| ==> |pages[|pages| - 1]| != PAGE_SIZE)
    decreases if page < bound then bound - page else 0
  {
    ScanStep(server, api, tag, h, page, bound);
    var lists := OfVerb(Scan(server, api, tag, h, page, bound), Get);
    var pages := ScannedPages(server, api, tag, h, page, bound);
    var listed := ListedPage(ListReply(server, api, h, page));
    if listed.Some? && |listed.value| == PAGE_SIZE {
      var next := h + [ListRequest(api, page)] + PageDeletes(api, tag, listed.value);
      var restLists := OfVerb(Scan(server, api, tag, next, page + 1, bound), Get);
      var restPages := ScannedPages(server, api, tag, next, page + 1, bound);
      ScanPagination(server, api, tag, next, page + 1, bound);
      ScanListsConsecutive(server, api, tag, next, page + 1, bound);
      assert |lists| == |restLists| + 1 && |pages| == |restPages| + 1 && pages[0] == listed.value;
      forall i | 0 <= i < |lists| - 1
        ensures |pages[i]| == PAGE_SIZE
      {
        if i > 0 {
          assert pages[i] == restPages[i - 1];
        }
      }
      if |pages| == |lists| {
        assert pages[|pages| - 1] == restPages[|restPages| - 1];
      }
    }
  }

  /**
   * What the DELETE requests get back never changes what the scan sends: two
   * servers that answer every list request alike drive the same scan.
   */
  lemma {:induction false} ScanIgnoresDeleteReplies(s1: Server, s2: Server, api: string, tag: string, h: seq<Request>, page: int, bound: nat)
    requires ScanTerminates(s1, api, tag, h, page, bound) && ScanTerminates(s2, api, tag, h, page, bound)
    requires forall g: seq<Request>, p: int :: ListReply(s1, api, g, p) == ListReply(s2, api, g, p)
    ensures Scan(s1, api, tag, h, page, bound) == Scan(s2, api, tag, h, page, bound)
    decreases if page < bound then bound - page else 0
  {
    assert ListReply(s1, api, h, page) == ListReply(s2, api, h, page);
    var req := ListRequest(api, page);
    match ListedPage(ListReply(s1, api, h, page))
    case None =>
    case Some(rs) =>
      if |rs| == PAGE_SIZE {
        assert FullPage(ListReply(s1, api, h, page));
        ScanStops(s1, api, tag, h, page, bound);
        ScanTerminatesNext(s1, api, tag, h, page, rs, bound);
        ScanTerminatesNext(s2, api, tag, h, page, rs, bound);
        ScanIgnoresDeleteReplies(s1, s2, api, tag, h + [req] + PageDeletes(api, tag, rs), page + 1, bound);
      }
  }
}
