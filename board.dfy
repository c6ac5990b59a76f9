/**
 * crawlers/base.py: the site-independent crawl protocol. A board is one of the two dialects;
 * each hook of the abstract base class dispatches to the dialect's module.
 *
 * The HTTP exchange is a parameter: `pages[i]` is what the i-th request of a crawl returns
 * (`Failure` when `requests.get` or `response.json()` raises). A request past the end of
 * `pages` is answered with an empty list, which ends any crawl.
 */
module Board {
  import opened Wrappers
  import opened PyStr
  import opened Json
  import opened Models
  import opened Seqs
  import Danbooru
  import Gelbooru

  datatype Site = SiteDanbooru | SiteGelbooru

  /** A board: its dialect and the two credentials it was constructed with. */
  datatype Board = Board(site: Site, apiKey: Option<string>, userId: Option<string>)

  const MAX_LIMIT: int := 100

  function SortString(site: Site, sortBy: string, desc: string): string {
    match site
    case SiteDanbooru => Danbooru.SortString(sortBy, desc)
    case SiteGelbooru => Gelbooru.SortString(sortBy, desc)
  }

  function BuildParams(b: Board, tags: string, page: int, limit: int): Params {
    match b.site
    case SiteDanbooru => Danbooru.BuildParams(b.apiKey, b.userId, tags, page, limit)
    case SiteGelbooru => Gelbooru.BuildParams(b.apiKey, b.userId, tags, page, limit)
  }

  function ParseJsonList(site: Site, body: Json): seq<Json> {
    match site
    case SiteDanbooru => Danbooru.ParseJsonList(body)
    case SiteGelbooru => Gelbooru.ParseJsonList(body)
  }

  /** The dialect's `_normalize_data` hook, as a value: the crawl driver below is generic over
      it, as the abstract base class is. */
  function NormalizeHook(site: Site): Json -> Normalized {
    match site
    case SiteDanbooru => Danbooru.Normalize
    case SiteGelbooru => Gelbooru.Normalize
  }

  /** The `rating:` fragment of a query; nothing for an empty rating. */
  function RatingPart(rating: string): string {
    if rating == [] then [] else "rating:" + rating
  }

  /** `assemble_tags(base_tags, artist, rating, sort_by, desc)`: the non-empty fragments, in the
      order artist, base tags, rating, sort, joined by single spaces. */
  function AssembleTags(site: Site, baseTags: string, artist: string, rating: string, sortBy: string, desc: string): (q: string)
    ensures artist != [] ==> StartsWith(q, artist)
    ensures artist == [] && baseTags != [] ==> StartsWith(q, baseTags)
  {
    var raw := [artist, baseTags, RatingPart(rating), SortString(site, sortBy, desc)];
    var parts := NonEmpty(raw);
    var rest := [baseTags, RatingPart(rating), SortString(site, sortBy, desc)];
    assert raw[1..] == rest;
    assert artist != [] ==> parts == [artist] + NonEmpty(rest);
    assert artist == [] ==> parts == NonEmpty(rest);
    assert baseTags != [] ==> NonEmpty(rest) == [baseTags] + NonEmpty(rest[1..]);
    JoinStartsWithFirst(" ", parts);
    Join(" ", parts)
  }

  // ---------------------------------------------------------------- fetch_posts

  datatype Response = Response(status: int, body: Json) | Failure

  function PageAt(pages: seq<Response>, i: nat): Response {
    if i < |pages| then pages[i] else Response(200, JList([]))
  }

  /** Normalising the raw posts of one page in order: the records built before the first post
      that raises, and whether one raised. */
  function NormalizeRun(norm: Json -> Normalized, raw: seq<Json>): (r: (seq<Item>, bool))
    ensures |r.0| <= |raw|
    decreases |raw|
  {
    if raw == [] then ([], false)
    else Extend(NormalizeRun(norm, raw[..|raw| - 1]), norm(raw[|raw| - 1]))
  }

  /** One more post: nothing changes once a post raised; otherwise its record, if any, is added. */
  function Extend(prev: (seq<Item>, bool), n: Normalized): (seq<Item>, bool) {
    if prev.1 then prev
    else
      match n
      case Keep(item) => (prev.0 + [item], false)
      case Skip => prev
      case Raise => (prev.0, true)
  }

  lemma RunSnoc(norm: Json -> Normalized, raw: seq<Json>, j: nat)
    requires j < |raw|
    ensures NormalizeRun(norm, raw[..j + 1]) == Extend(NormalizeRun(norm, raw[..j]), norm(raw[j]))
  {
    assert raw[..j + 1][..j] == raw[..j];
  }

  /** A page stops the crawl exactly when one of its posts raises. */
  lemma {:induction false} RunRaisedIff(norm: Json -> Normalized, raw: seq<Json>)
    ensures NormalizeRun(norm, raw).1 <==> exists j :: 0 <= j < |raw| && norm(raw[j]) == Raise
    decreases |raw|
  {
    if raw != [] {
      var front := raw[..|raw| - 1];
      RunRaisedIff(norm, front);
      var last := norm(raw[|raw| - 1]);
      assert NormalizeRun(norm, raw) == Extend(NormalizeRun(norm, front), last);
      if exists j :: 0 <= j < |front| && norm(front[j]) == Raise {
        var j :| 0 <= j < |front| && norm(front[j]) == Raise;
        assert raw[j] == front[j];
      }
      if exists j :: 0 <= j < |raw| && norm(raw[j]) == Raise {
        var j :| 0 <= j < |raw| && norm(raw[j]) == Raise;
        if j < |front| {
          assert front[j] == raw[j];
        }
      }
    }
  }

  /** A Gelbooru page that stops nothing yields one record per post: that dialect drops none. */
  lemma {:induction false} GelbooruKeepsAll(raw: seq<Json>)
    ensures !NormalizeRun(Gelbooru.Normalize, raw).1 ==> |NormalizeRun(Gelbooru.Normalize, raw).0| == |raw|
    decreases |raw|
  {
    if raw != [] {
      GelbooruKeepsAll(raw[..|raw| - 1]);
      assert Gelbooru.Normalize(raw[|raw| - 1]) != Skip;
    }
  }

  /** What one response contributes to a crawl: the records it yields, and whether the crawl
      goes on to the next page. */
  datatype Step = Stop(found: seq<Item>) | Next(found: seq<Item>)

  function PageStep(site: Site, norm: Json -> Normalized, resp: Response): (s: Step)
    ensures resp.Failure? || resp.status != 200 ==> s == Stop([])
  {
    match resp
    case Failure => Stop([])
    case Response(status, body) =>
      if status != 200 then Stop([])
      else
        var raw := ParseJsonList(site, body);
        if raw == [] then Stop([])
        else
          var run := NormalizeRun(norm, raw);
          if run.1 then Stop(run.0) else Next(run.0)
  }

  /** What each response of the exchange contributes. */
  function Steps(site: Site, norm: Json -> Normalized, pages: seq<Response>): (steps: seq<Step>)
    ensures |steps| == |pages|
    decreases |pages|
  {
    if pages == [] then [] else Steps(site, norm, pages[..|pages| - 1]) + [PageStep(site, norm, pages[|pages| - 1])]
  }

  lemma {:induction false} StepsAt(site: Site, norm: Json -> Normalized, pages: seq<Response>, i: nat)
    requires i < |pages|
    ensures Steps(site, norm, pages)[i] == PageStep(site, norm, pages[i])
    decreases |pages|
  {
    if i < |pages| - 1 {
      StepsAt(site, norm, pages[..|pages| - 1], i);
    }
  }

  /** Every record a crawl starting at `page` can gather when it is never told to stop early. */
  function Available(steps: seq<Step>, page: nat): seq<Item>
    decreases |steps| - page
  {
    if page >= |steps| then []
    else
      match steps[page]
      case Stop(found) => found
      case Next(found) => found + Available(steps, page + 1)
  }

  /** The number of requests a crawl starting at `page`, already holding `have` records, makes
      on its way to `target` records. */
  function Requests(steps: seq<Step>, target: int, page: nat, have: nat): (n: nat)
    ensures n == 0 <==> have >= target
    ensures page <= |steps| ==> n <= |steps| - page + 1
    decreases |steps| - page
  {
    if have >= target then 0
    else if page >= |steps| then 1
    else
      match steps[page]
      case Stop(_) => 1
      case Next(found) => 1 + Requests(steps, target, page + 1, have + |found|)
  }

  /** The records a page yields and whether the crawl stopped there. */
  method NormalizePage(norm: Json -> Normalized, raw: seq<Json>) returns (items: seq<Item>, raised: bool)
    ensures (items, raised) == NormalizeRun(norm, raw)
  {
    items := [];
    raised := false;
    var j := 0;
    while j < |raw| && !raised
      invariant 0 <= j <= |raw|
      invariant (items, raised) == NormalizeRun(norm, raw[..j])
    {
      RunSnoc(norm, raw, j);
      match norm(raw[j]) {
        case Keep(item) => items := items + [item];
        case Skip =>
        case Raise => raised := true;
      }
      j := j + 1;
    }
    if raised {
      RaisedPrefix(norm, raw, j);
    } else {
      assert raw[..j] == raw;
    }
  }

  /** Once a post raised, the rest of the page changes nothing. */
  lemma {:induction false} RaisedPrefix(norm: Json -> Normalized, raw: seq<Json>, j: nat)
    requires j <= |raw| && NormalizeRun(norm, raw[..j]).1
    ensures NormalizeRun(norm, raw) == NormalizeRun(norm, raw[..j])
    decreases |raw| - j
  {
    if j < |raw| {
      RunSnoc(norm, raw, j);
      RaisedPrefix(norm, raw, j + 1);
    } else {
      assert raw[..j] == raw;
    }
  }

  /** The body of the crawl loop for request number `page`: the records its response yields,
      and whether the crawl goes on. */
  method FetchPage(site: Site, norm: Json -> Normalized, pages: seq<Response>, page: nat) returns (found: seq<Item>, more: bool)
    requires page <= |pages|
    ensures more ==> page < |pages| && Steps(site, norm, pages)[page] == Next(found)
    ensures !more && page < |pages| ==> Steps(site, norm, pages)[page] == Stop(found)
    ensures !more && page == |pages| ==> found == []
  {
    var resp := PageAt(pages, page);
    if page < |pages| {
      StepsAt(site, norm, pages, page);
    }
    if resp.Failure? || resp.status != 200 {
      return [], false;
    }
    var raw := ParseJsonList(site, resp.body);
    if raw == [] {
      return [], false;
    }
    assert page < |pages|;
    var raised;
    found, raised := NormalizePage(norm, raw);
    more := !raised;
  }

  /** `fetch_posts(tags, limit_num)`: request pages 0, 1, 2, ... of `MAX_LIMIT` posts until
      `target` records are gathered or a page fails, is empty or holds a post that raises; return
      the first `target` records. `requested` lists the query parameters of every request made. */
  method FetchPosts(b: Board, tags: string, target: int, pages: seq<Response>)
    returns (images: seq<Item>, requested: seq<Params>)
    ensures images == Take(Available(Steps(b.site, NormalizeHook(b.site), pages), 0), target)
    ensures |requested| == Requests(Steps(b.site, NormalizeHook(b.site), pages), target, 0, 0)
    ensures forall i :: 0 <= i < |requested| ==> requested[i] == BuildParams(b, tags, i, MAX_LIMIT)
  {
    images, requested := Crawl(b.site, NormalizeHook(b.site), i => BuildParams(b, tags, i, MAX_LIMIT), target, pages);
    CrawledIs(Steps(b.site, NormalizeHook(b.site), pages), target, 0, []);
  }

  /** The records gathered and the number of requests still to be made by a crawl that holds
      `acc` before request number `page`. */
  function Crawled(steps: seq<Step>, target: int, page: nat, acc: seq<Item>): (seq<Item>, nat)
    decreases |steps| - page
  {
    if |acc| >= target then (acc, 0)
    else if page >= |steps| then (acc, 1)
    else
      match steps[page]
      case Stop(found) => (acc + found, 1)
      case Next(found) =>
        var r := Crawled(steps, target, page + 1, acc + found);
        (r.0, r.1 + 1)
  }

  /** The loop of `fetch_posts`, over the dialect's hooks: `query(i)` is the parameters of
      request number `i`, and `requested` is the log of the parameters sent. */
  method Crawl(site: Site, norm: Json -> Normalized, query: int -> Params, target: int, pages: seq<Response>)
    returns (images: seq<Item>, requested: seq<Params>)
    ensures images == Take(Crawled(Steps(site, norm, pages), target, 0, []).0, target)
    ensures |requested| == Crawled(Steps(site, norm, pages), target, 0, []).1
    ensures forall i :: 0 <= i < |requested| ==> requested[i] == query(i)
  {
    ghost var steps := Steps(site, norm, pages);
    ghost var total := Crawled(steps, target, 0, []);
    images := [];
    var made := 0;
    var page: nat := 0;
    while |images| < target
      invariant page <= |pages|
      invariant made == page
      invariant Crawled(steps, target, page, images).0 == total.0
      invariant page + Crawled(steps, target, page, images).1 == total.1
      decreases |pages| - page
    {
      made := made + 1;
      var found, more := FetchPage(site, norm, pages, page);
      images := images + found;
      if !more {
        break;
      }
      page := page + 1;
    }
    images := Take(images, target);
    requested := seq(made, i => query(i));
  }

  /** The crawl gathers the first `target` of the available records and makes `Requests`
      requests. */
  lemma {:induction false} CrawledIs(steps: seq<Step>, target: int, page: nat, acc: seq<Item>)
    ensures Take(Crawled(steps, target, page, acc).0, target) == Take(acc + Available(steps, page), target)
    ensures Crawled(steps, target, page, acc).1 == Requests(steps, target, page, |acc|)
    decreases |steps| - page
  {
    if |acc| >= target {
      TakeLonger(acc, Available(steps, page), target);
    } else if page >= |steps| {
      assert acc + Available(steps, page) == acc;
    } else if steps[page].Next? {
      var found := steps[page].found;
      CrawledIs(steps, target, page + 1, acc + found);
      assert acc + Available(steps, page) == (acc + found) + Available(steps, page + 1);
    }
  }

  lemma TakeLonger<T>(a: seq<T>, x: seq<T>, n: int)
    requires |a| >= n
    ensures Take(a + x, n) == Take(a, n)
  {
    if n > 0 {
      assert (a + x)[..n] == a[..n];
    }
  }

  // ---------------------------------------------------------------- properties

  /** The records of the pages `lo` to `hi - 1`, in order. */
  function Collect(steps: seq<Step>, lo: nat, hi: nat): seq<Item>
    decreases hi - lo
  {
    if lo >= hi || lo >= |steps| then [] else steps[lo].found + Collect(steps, lo + 1, hi)
  }

  /** The crawl is lazy and stops as soon as it may: of the `n` requests made from `page` on,
      every one but the last was answered by a page that let the crawl go on, the records gathered
      before the last request were fewer than `target`, and when the last page also let the crawl
      go on, the crawl stopped because `target` was reached. */
  lemma {:induction false} CrawlStopsWhenFull(steps: seq<Step>, target: int, page: nat, have: nat)
    requires page <= |steps|
    ensures var n := Requests(steps, target, page, have);
      (n > 0 ==> have + |Collect(steps, page, page + n - 1)| < target) &&
      (forall i :: page <= i < page + n - 1 ==> i < |steps| && steps[i].Next?) &&
      (n > 0 && page + n - 1 < |steps| && steps[page + n - 1].Next? ==>
         have + |Collect(steps, page, page + n)| >= target)
    decreases |steps| - page
  {
    var n := Requests(steps, target, page, have);
    if have < target && page < |steps| && steps[page].Next? {
      var found := steps[page].found;
      var m := Requests(steps, target, page + 1, have + |found|);
      assert n == 1 + m;
      CrawlStopsWhenFull(steps, target, page + 1, have + |found|);
      if m > 0 {
        assert Collect(steps, page, page + m) == found + Collect(steps, page + 1, page + m);
        assert Collect(steps, page, page + m + 1) == found + Collect(steps, page + 1, page + m + 1);
      } else {
        assert Collect(steps, page, page + 1) == found + Collect(steps, page + 1, page + 1);
      }
    }
  }

  /** A crawl whose first request fails or is refused makes one request and returns nothing. */
  lemma FailedFirstRequest(site: Site, pages: seq<Response>, target: int)
    requires pages != [] && (pages[0].Failure? || pages[0].status != 200)
    requires target > 0
    ensures Available(Steps(site, NormalizeHook(site), pages), 0) == []
    ensures Requests(Steps(site, NormalizeHook(site), pages), target, 0, 0) == 1
  {
    StepsAt(site, NormalizeHook(site), pages, 0);
  }

  /** The joined query is empty exactly when every fragment is. */
  lemma AssembleTagsEmpty(site: Site, baseTags: string, artist: string, rating: string, sortBy: string, desc: string)
    ensures AssembleTags(site, baseTags, artist, rating, sortBy, desc) == [] <==>
      artist == [] && baseTags == [] && rating == [] && SortString(site, sortBy, desc) == []
  {
    var parts := [artist, baseTags, RatingPart(rating), SortString(site, sortBy, desc)];
    var kept := NonEmpty(parts);
    JoinEmpty(" ", kept);
    assert kept == [] <==> forall k :: 0 <= k < |parts| ==> parts[k] == [] by {
      if kept == [] {
        forall k | 0 <= k < |parts| ensures parts[k] == [] {
          assert parts[k] in parts;
        }
      } else {
        assert kept[0] in parts;
      }
    }
    assert (forall k :: 0 <= k < |parts| ==> parts[k] == []) <==>
      parts[0] == [] && parts[1] == [] && parts[2] == [] && parts[3] == [];
    assert RatingPart(rating) == [] <==> rating == [];
  }

  /** A server that splits the query at spaces recovers the fragments in order, when none of the
      inputs holds a space. */
  lemma AssembleTagsSplit(site: Site, baseTags: string, artist: string, rating: string, sortBy: string, desc: string)
    requires ' ' !in baseTags && ' ' !in artist && ' ' !in rating && ' ' !in sortBy && ' ' !in desc
    requires AssembleTags(site, baseTags, artist, rating, sortBy, desc) != []
    ensures Split(AssembleTags(site, baseTags, artist, rating, sortBy, desc), ' ') ==
      NonEmpty([artist, baseTags, RatingPart(rating), SortString(site, sortBy, desc)])
  {
    var sp := SortString(site, sortBy, desc);
    assert ' ' !in sp by {
      if site == SiteGelbooru && sortBy != [] {
        assert sp == "sort:" + sortBy + ":" + desc;
      }
    }
    assert ' ' !in RatingPart(rating);
    var kept := NonEmpty([artist, baseTags, RatingPart(rating), sp]);
    assert forall k :: 0 <= k < |kept| ==> ' ' !in kept[k];
    SplitJoin(kept, ' ');
  }

  /** A server that splits the query at spaces gets, in order, the words of the artist, of the
      base tags, of the rating part and of the sort part; an empty query splits into one empty
      piece. */
  lemma AssembleTagsWords(site: Site, baseTags: string, artist: string, rating: string, sortBy: string, desc: string)
    ensures var kept := NonEmpty([artist, baseTags, RatingPart(rating), SortString(site, sortBy, desc)]);
      Split(AssembleTags(site, baseTags, artist, rating, sortBy, desc), ' ') ==
        if kept == [] then [""] else SplitEach(kept, ' ')
  {
    var kept := NonEmpty([artist, baseTags, RatingPart(rating), SortString(site, sortBy, desc)]);
    if kept != [] {
      SplitJoinEach(kept, ' ');
    }
  }
}
