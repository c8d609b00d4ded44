/**
  The bounded crawler (crawler.py): a breadth-first walk whose queue may hold a
  URL several times, cut off by a page budget and a depth limit.
*/
module Crawler {
  import opened Options

  type Url = string

  /** The web as the crawl sees it: a fixed answer for every URL, and how references resolve. */
  datatype Site = Site(
    isHtml: Url -> bool,             // fetched without error and served as text/html
    hrefs: Url -> seq<string>,       // the references of the anchors on the page, in order
    join: (Url, string) -> Url,      // a reference resolved against the page it is on
    netloc: Url -> string)

  /** `page` is what a URL addresses: the URL up to its first '#', or all of it. */
  predicate Addresses(url: Url, page: Url) {
    page <= url && '#' !in page && (page == url || url[|page|] == '#')
  }

  function WithoutFragment(url: Url): Url {
    if url == "" || url[0] == '#' then "" else [url[0]] + WithoutFragment(url[1..])
  }

  /** Cutting the fragment off gives the one page a URL addresses. */
  lemma {:induction false} FragmentIsCut(url: Url, page: Url)
    ensures Addresses(url, WithoutFragment(url))
    ensures Addresses(url, page) ==> page == WithoutFragment(url)
  {
    if url != "" && url[0] != '#' {
      FragmentIsCut(url[1..], if page == "" then "" else page[1..]);
      assert url == [url[0]] + url[1..];
      assert page != "" && page <= url ==> page[0] == url[0] && page == [page[0]] + page[1..];
    }
  }

  function Destination(site: Site, page: Url, href: string): Url {
    WithoutFragment(site.join(page, href))
  }

  /** A link the crawl from `root` may follow. */
  predicate Links(site: Site, root: Url, page: Url, to: Url) {
    && site.isHtml(page)
    && site.netloc(to) == site.netloc(root)
    && exists i :: 0 <= i < |site.hrefs(page)| && Addresses(site.join(page, site.hrefs(page)[i]), to)
  }

  /** `url` is exactly `k` links from `root` along some path. */
  ghost predicate Reaches(site: Site, root: Url, k: nat, url: Url)
    decreases k
  {
    if k == 0 then url == root
    else exists p :: Reaches(site, root, k - 1, p) && Links(site, root, p, url)
  }

  /** The length of the shortest path of links from `root` to `url`. */
  ghost predicate IsDistance(site: Site, root: Url, k: nat, url: Url) {
    Reaches(site, root, k, url) && forall j: nat :: j < k ==> !Reaches(site, root, j, url)
  }

  datatype Entry = Entry(url: Url, depth: nat, parent: Option<Url>)
  datatype Page = Page(html: bool, depth: nat, parent: Option<Url>)

  // ---- what the queue and the recorded pages maintain ----

  datatype Walk = Walk(site: Site, root: Url, maxDepth: int) {
    /** The depth is one the walk may reach: the root's own, or within the limit. */
    predicate Allowed(depth: nat) {
      depth == 0 || depth <= maxDepth
    }

    /** Put there by a recorded page one step nearer, or the root itself. */
    ghost predicate Justified(pages: map<Url, Page>, e: Entry) {
      && Allowed(e.depth)
      && if e.parent.None? then e.depth == 0 && e.url == root
         else e.parent.value in pages && pages[e.parent.value].depth + 1 == e.depth && Links(site, root, e.parent.value, e.url)
    }

    ghost predicate Ordered(queue: seq<Entry>) {
      && (forall i, j :: 0 <= i < j < |queue| ==> queue[i].depth <= queue[j].depth)
      && (forall i :: 0 <= i < |queue| ==> queue[i].depth <= queue[0].depth + 1)
    }

    ghost predicate Exact(pages: map<Url, Page>) {
      forall u :: u in pages ==>
        Justified(pages, Entry(u, pages[u].depth, pages[u].parent)) && IsDistance(site, root, pages[u].depth, u) && pages[u].html == site.isHtml(u)
    }

    /** `url` is recorded, or waits in the queue, at depth `k` or less. */
    ghost predicate Covered(pages: map<Url, Page>, queue: seq<Entry>, url: Url, k: int) {
      || (url in pages && pages[url].depth <= k)
      || (exists i :: 0 <= i < |queue| && queue[i].url == url && queue[i].depth <= k)
    }

    /** Nothing a recorded page links to within the depth limit has been lost. */
    ghost predicate NothingLost(pages: map<Url, Page>, queue: seq<Entry>) {
      && Covered(pages, queue, root, 0)
      && forall p, u :: p in pages && pages[p].depth < maxDepth && Links(site, root, p, u) ==> Covered(pages, queue, u, pages[p].depth + 1)
    }

    ghost predicate RecordedFirst(pages: map<Url, Page>, queue: seq<Entry>) {
      forall u, i :: u in pages && 0 <= i < |queue| ==> pages[u].depth <= queue[i].depth
    }

    ghost predicate Consistent(pages: map<Url, Page>, queue: seq<Entry>) {
      && Exact(pages) && NothingLost(pages, queue) && RecordedFirst(pages, queue) && Ordered(queue)
      && (forall i :: 0 <= i < |queue| ==> Justified(pages, queue[i]))
    }

    /** Within the depth limit, whatever has a path of length `k` is recorded by then, or something as near still waits. */
    lemma {:induction false} PathsAreCovered(pages: map<Url, Page>, queue: seq<Entry>, k: nat, url: Url)
      requires Consistent(pages, queue) && Reaches(site, root, k, url) && Allowed(k)
      ensures (url in pages && pages[url].depth <= k) || (exists i :: 0 <= i < |queue| && queue[i].depth <= k)
      decreases k
    {
      if k == 0 {
        assert Covered(pages, queue, root, 0);
      } else {
        var p :| Reaches(site, root, k - 1, p) && Links(site, root, p, url);
        PathsAreCovered(pages, queue, k - 1, p);
        if p in pages && pages[p].depth <= k - 1 {
          assert Covered(pages, queue, url, pages[p].depth + 1);
        }
      }
    }

    lemma JustifiedIsReached(pages: map<Url, Page>, e: Entry)
      requires Exact(pages) && Justified(pages, e)
      ensures Reaches(site, root, e.depth, e.url)
    {
      if e.parent.Some? {
        assert Reaches(site, root, e.depth - 1, e.parent.value) && Links(site, root, e.parent.value, e.url);
      }
    }

    /** The entry at the head of the queue carries its exact distance, if its URL is not recorded yet. */
    lemma HeadIsExact(pages: map<Url, Page>, queue: seq<Entry>)
      requires Consistent(pages, queue) && queue != [] && queue[0].url !in pages
      ensures IsDistance(site, root, queue[0].depth, queue[0].url)
    {
      hide Exact, NothingLost, RecordedFirst, Reaches, Links;
      var e := queue[0];
      assert Justified(pages, e);
      JustifiedIsReached(pages, e);
      forall j: nat | j < e.depth ensures !Reaches(site, root, j, e.url) {
        if Reaches(site, root, j, e.url) {
          PathsAreCovered(pages, queue, j, e.url);
        }
      }
    }

    /** Dropping a duplicate loses nothing: its URL was recorded at no greater depth. */
    lemma SkipKeeps(pages: map<Url, Page>, queue: seq<Entry>)
      requires Consistent(pages, queue) && queue != [] && queue[0].url in pages
      ensures Consistent(pages, queue[1..])
    {
      var rest := queue[1..];
      forall u, k: int | Covered(pages, queue, u, k) ensures Covered(pages, rest, u, k) {
        StillCovered(pages, pages, queue, rest, u, k);
      }
    }

    lemma StillCovered(pages: map<Url, Page>, pages': map<Url, Page>, queue: seq<Entry>, queue': seq<Entry>, u: Url, k: int)
      requires Covered(pages, queue, u, k) && queue != [] && queue[1..] <= queue'
      requires queue[0].url in pages' && pages'[queue[0].url].depth <= queue[0].depth
      requires forall w :: w in pages ==> w in pages' && pages'[w].depth == pages[w].depth
      ensures Covered(pages', queue', u, k)
    {
      if !(u in pages && pages[u].depth <= k) {
        var i :| 0 <= i < |queue| && queue[i].url == u && queue[i].depth <= k;
        if i > 0 { assert queue'[i - 1] == queue[1..][i - 1] == queue[i]; }
      }
    }

    /** `found` holds the links of the page `u`, recorded at depth `d`, that are not in `pages`. */
    ghost predicate Discovers(pages: map<Url, Page>, u: Url, d: nat, found: seq<Entry>) {
      && (forall i :: 0 <= i < |found| ==>
            d < maxDepth && found[i].depth == d + 1 && found[i].parent == Some(u) && Links(site, root, u, found[i].url))
      && (d < maxDepth ==> forall v :: Links(site, root, u, v) ==> v in pages || exists i :: 0 <= i < |found| && found[i].url == v)
    }

    /** Recording the head of the queue and appending its new links keeps everything. */
    lemma VisitKeeps(pages: map<Url, Page>, queue: seq<Entry>, found: seq<Entry>)
      requires Consistent(pages, queue) && queue != [] && queue[0].url !in pages
      requires var e := queue[0];
               Discovers(pages[e.url := Page(site.isHtml(e.url), e.depth, e.parent)], e.url, e.depth, found)
      ensures var e := queue[0];
              Consistent(pages[e.url := Page(site.isHtml(e.url), e.depth, e.parent)], queue[1..] + found)
    {
      var e := queue[0];
      var pages', queue' := pages[e.url := Page(site.isHtml(e.url), e.depth, e.parent)], queue[1..] + found;
      hide Exact, NothingLost, Justified, IsDistance, Links, Ordered;
      HeadIsExact(pages, queue);
      VisitKeepsOrder(pages, queue, found);
      assert Justified(pages, e);
      RecordKeepsExact(pages, e);
      forall i | 0 <= i < |queue'| ensures Justified(pages', queue'[i]) {
        if i < |queue| - 1 {
          assert queue'[i] == queue[i + 1] && Justified(pages, queue[i + 1]);
          JustifiedStays(pages, e, queue[i + 1]);
        } else {
          FoundIsJustified(pages', e, found[i - (|queue| - 1)]);
        }
      }
      VisitLosesNothing(pages, queue, found);
    }

    lemma JustifiedStays(pages: map<Url, Page>, e: Entry, other: Entry)
      requires e.url !in pages && Justified(pages, other)
      ensures Justified(pages[e.url := Page(site.isHtml(e.url), e.depth, e.parent)], other)
    {
    }

    lemma FoundIsJustified(pages: map<Url, Page>, e: Entry, f: Entry)
      requires e.url in pages && pages[e.url].depth == e.depth
      requires e.depth < maxDepth && f.depth == e.depth + 1 && f.parent == Some(e.url) && Links(site, root, e.url, f.url)
      ensures Justified(pages, f)
    {
    }

    lemma RecordKeepsExact(pages: map<Url, Page>, e: Entry)
      requires Exact(pages) && e.url !in pages && Justified(pages, e) && IsDistance(site, root, e.depth, e.url)
      ensures Exact(pages[e.url := Page(site.isHtml(e.url), e.depth, e.parent)])
    {
      hide IsDistance, Links;
      var pages' := pages[e.url := Page(site.isHtml(e.url), e.depth, e.parent)];
      forall u | u in pages' ensures Justified(pages', Entry(u, pages'[u].depth, pages'[u].parent)) {
        if u != e.url { JustifiedStays(pages, e, Entry(u, pages[u].depth, pages[u].parent)); } else { JustifiedStays(pages, e, e); }
      }
    }

    lemma VisitKeepsOrder(pages: map<Url, Page>, queue: seq<Entry>, found: seq<Entry>)
      requires Consistent(pages, queue) && queue != []
      requires forall i :: 0 <= i < |found| ==> found[i].depth == queue[0].depth + 1
      ensures Ordered(queue[1..] + found)
      ensures forall u, i :: u in pages && 0 <= i < |queue[1..] + found| ==> pages[u].depth <= (queue[1..] + found)[i].depth
      ensures forall i :: 0 <= i < |queue[1..] + found| ==> queue[0].depth <= (queue[1..] + found)[i].depth
    {
      hide Exact, NothingLost, Justified;
      var queue' := queue[1..] + found;
      forall i | 0 <= i < |queue'| ensures queue[0].depth <= queue'[i].depth <= queue[0].depth + 1 {
        if i < |queue| - 1 { assert queue'[i] == queue[i + 1]; }
      }
      forall i, j | 0 <= i < j < |queue'| ensures queue'[i].depth <= queue'[j].depth {
        if j < |queue| - 1 { assert queue'[i] == queue[i + 1] && queue'[j] == queue[j + 1]; }
      }
    }

    lemma VisitLosesNothing(pages: map<Url, Page>, queue: seq<Entry>, found: seq<Entry>)
      requires Consistent(pages, queue) && queue != [] && queue[0].url !in pages
      requires var e := queue[0];
               Discovers(pages[e.url := Page(site.isHtml(e.url), e.depth, e.parent)], e.url, e.depth, found)
      ensures var e := queue[0];
              NothingLost(pages[e.url := Page(site.isHtml(e.url), e.depth, e.parent)], queue[1..] + found)
    {
      hide Exact, Ordered, Justified, IsDistance;
      var e := queue[0];
      var pages', queue' := pages[e.url := Page(site.isHtml(e.url), e.depth, e.parent)], queue[1..] + found;
      StillCovered(pages, pages', queue, queue', root, 0);
      forall p, u | p in pages' && pages'[p].depth < maxDepth && Links(site, root, p, u) ensures Covered(pages', queue', u, pages'[p].depth + 1) {
        if p != e.url {
          StillCovered(pages, pages', queue, queue', u, pages[p].depth + 1);
        } else if u in pages' {
          assert u in pages ==> pages[u].depth <= queue[0].depth;
        } else {
          var i :| 0 <= i < |found| && found[i].url == u;
          assert queue'[|queue| - 1 + i] == found[i];
        }
      }
    }

    lemma StartIsConsistent()
      ensures Consistent(map[], [Entry(root, 0, None)])
    {
      assert [Entry(root, 0, None)][0].url == root;
    }

    /** A page that is not followed discovers nothing and owes nothing. */
    lemma NotFollowed(pages: map<Url, Page>, u: Url, d: nat)
      requires !site.isHtml(u) || maxDepth <= d
      ensures Discovers(pages, u, d, [])
    {
    }

    /** What a record promises about each of its pages. */
    ghost predicate Truthful(pages: map<Url, Page>) {
      forall u :: u in pages ==>
        && IsDistance(site, root, pages[u].depth, u)
        && (pages[u].depth == 0 || pages[u].depth <= maxDepth)
        && pages[u].html == site.isHtml(u)
        && (u == root || '#' !in u)
        && (if pages[u].parent.None? then u == root
            else var p := pages[u].parent.value;
                 p in pages && pages[p].depth + 1 == pages[u].depth && Links(site, root, p, u))
    }

    lemma ExactIsTruthful(pages: map<Url, Page>)
      requires Exact(pages)
      ensures Truthful(pages)
    {
      hide IsDistance;
      forall u | u in pages ensures Justified(pages, Entry(u, pages[u].depth, pages[u].parent)) {
      }
    }

    /** With an empty queue the recorded pages are exactly the URLs within the depth limit. */
    lemma EmptyQueueIsComplete(pages: map<Url, Page>)
      requires Consistent(pages, [])
      ensures forall u :: u in pages <==> exists k: nat :: Allowed(k) && Reaches(site, root, k, u)
    {
      forall u ensures u in pages <==> exists k: nat :: Allowed(k) && Reaches(site, root, k, u) {
        if u in pages {
          assert Justified(pages, Entry(u, pages[u].depth, pages[u].parent));
        } else if k: nat :| Allowed(k) && Reaches(site, root, k, u) {
          PathsAreCovered(pages, [], k, u);
        }
      }
    }
  }

  class Crawler {
    const walk: Walk
    const maxPages: int
    var visited: set<Url>
    var queue: seq<Entry>
    var pages: map<Url, Page>

    ghost predicate Valid()
      reads this
    {
      visited == pages.Keys && walk.Consistent(pages, queue)
    }

    constructor (site: Site, root: Url, maxPages: int, maxDepth: int)
      ensures Valid() && visited == {} && queue == [Entry(root, 0, None)]
      ensures walk == Walk(site, root, maxDepth) && this.maxPages == maxPages
    {
      walk, this.maxPages := Walk(site, root, maxDepth), maxPages;
      visited, queue, pages := {}, [Entry(root, 0, None)], map[];
      new;
      walk.StartIsConsistent();
    }

    /** Appends the links of a page recorded at depth `d` that were not visited. */
    method Follow(u: Url, d: nat)
      requires u in visited && walk.site.isHtml(u) && visited == pages.Keys && d < walk.maxDepth
      modifies this`queue
      ensures old(queue) <= queue && walk.Discovers(pages, u, d, queue[|old(queue)|..])
    {
      var hrefs := walk.site.hrefs(u);
      ghost var found: seq<Entry> := [];
      for i := 0 to |hrefs|
        invariant queue == old(queue) + found
        invariant forall j :: 0 <= j < |found| ==>
                    found[j].depth == d + 1 && found[j].parent == Some(u) && Links(walk.site, walk.root, u, found[j].url)
        invariant forall j :: 0 <= j < i && walk.site.netloc(Destination(walk.site, u, hrefs[j])) == walk.site.netloc(walk.root) ==>
                    Destination(walk.site, u, hrefs[j]) in visited || exists m :: 0 <= m < |found| && found[m].url == Destination(walk.site, u, hrefs[j])
      {
        var full := Destination(walk.site, u, hrefs[i]);
        FragmentIsCut(walk.site.join(u, hrefs[i]), full);
        if walk.site.netloc(full) == walk.site.netloc(walk.root) && full !in visited {
          queue := queue + [Entry(full, d + 1, Some(u))];
          ghost var before := found;
          found := found + [Entry(full, d + 1, Some(u))];
          assert forall m :: 0 <= m < |before| ==> found[m] == before[m];
          assert found[|before|].url == full;
        }
      }
      assert queue[|old(queue)|..] == found;
      forall v | Links(walk.site, walk.root, u, v) ensures v in pages || exists m :: 0 <= m < |found| && found[m].url == v {
        var i :| 0 <= i < |hrefs| && Addresses(walk.site.join(u, hrefs[i]), v);
        FragmentIsCut(walk.site.join(u, hrefs[i]), v);
        assert v == Destination(walk.site, u, hrefs[i]);
      }
    }

    /**
      Every recorded page carries its exact link distance and a parent one step
      nearer, and none but the root has a fragment.  When the queue runs out, the
      record is complete up to the depth limit.
    */
    method Crawl() returns (result: map<Url, Page>)
      requires Valid()
      modifies this
      ensures Valid() && result == pages && (queue == [] || |visited| >= maxPages)
      ensures |visited| <= if |old(visited)| <= maxPages then maxPages else |old(visited)|
      ensures walk.Truthful(result)
      ensures queue == [] ==> forall u :: u in result <==> exists k: nat :: walk.Allowed(k) && Reaches(walk.site, walk.root, k, u)
    {
      hide Walk.Exact, Walk.NothingLost, Walk.RecordedFirst, Walk.Ordered, Walk.Justified, Walk.Discovers, Walk.Truthful, Reaches;
      while queue != [] && |visited| < maxPages
        invariant Valid()
        invariant |visited| <= if |old(visited)| <= maxPages then maxPages else |old(visited)|
        decreases maxPages - |visited|, |queue|
      {
        ghost var pages0, queue0 := pages, queue;
        var e := queue[0];
        queue := queue[1..];
        if e.url in visited {
          walk.SkipKeeps(pages0, queue0);
          continue;
        }
        visited := visited + {e.url};
        pages := pages[e.url := Page(walk.site.isHtml(e.url), e.depth, e.parent)];
        ghost var rest := queue;
        if walk.site.isHtml(e.url) && e.depth < walk.maxDepth {
          Follow(e.url, e.depth);
        } else {
          walk.NotFollowed(pages, e.url, e.depth);
        }
        ghost var found := queue[|rest|..];
        assert queue == rest + found;
        walk.VisitKeeps(pages0, queue0, found);
      }
      result := pages;
      if queue == [] {
        walk.EmptyQueueIsComplete(pages);
      }
      walk.ExactIsTruthful(pages);
    }
  }
}
