/**
 * main.py: the older single-site script. It builds Gelbooru query parameters from configured
 * values, unwraps the answer of the details request, and flattens each post into a row dict.
 * Configured values are parameters; the HTTP request and the interactive count prompt are not
 * modelled.
 */
module MainScript {
  import opened Wrappers
  import opened PyStr
  import opened Json

  /** `makeup_keywords_to_check(...)`. The artist always starts the keywords, but the keywords
      are used only when a sort or a rating is configured. */
  function MakeupKeywords(artist: string, sortBy: string, desc: Json, rating: string, tags: string,
                          userId: Param, apiKey: Param): (p: Params)
    ensures p.Keys == {"tags", "user_id", "api_key", "json"}
    ensures p["user_id"] == userId && p["api_key"] == apiKey && p["json"] == PInt(1)
    ensures sortBy != [] ==> p["tags"] == PStr("sort:" + sortBy + ":" + Format(desc) + " " + (artist + " " + tags))
    ensures sortBy == [] && rating != [] ==> p["tags"] == PStr("rating:" + rating + " " + (artist + " " + tags))
    ensures sortBy == [] && rating == [] ==> p["tags"] == PStr(tags)
  {
    var keywords := artist + " " + tags;
    var q := if sortBy != [] then "sort:" + sortBy + ":" + Format(desc) + " " + keywords
             else if rating != [] then "rating:" + rating + " " + keywords
             else tags;
    map["tags" := PStr(q), "user_id" := userId, "api_key" := apiKey, "json" := PInt(1)]
  }

  /** The envelope branch of `get_details`: an object gives its `post` value (an empty list when
      absent), a list is the posts themselves, anything else gives an empty list. */
  function Envelope(raw: Json): (posts: Json)
    ensures raw.JList? ==> posts == raw
    ensures raw.JObj? && "post" in raw.fields ==> posts == raw.fields["post"]
    ensures raw.JObj? && "post" !in raw.fields ==> posts == JList([])
    ensures !raw.JList? && !raw.JObj? ==> posts == JList([])
  {
    match raw
    case JObj(m) => Get(m, "post", JList([]))
    case JList(_) => raw
    case _ => JList([])
  }

  /** `get_details(params)` after the request: the unwrapped posts of a 200 answer whose body
      decodes (`body` is None when `json.loads` raises), and None otherwise. */
  function Details(status: int, body: Option<Json>): (r: Option<Json>)
    ensures r.Some? <==> status == 200 && body.Some?
    ensures r.Some? ==> r.value == Envelope(body.value)
  {
    if status == 200 && body.Some? then Some(Envelope(body.value)) else None
  }

  /** One row dict of `parser`, field by field. */
  datatype Row = Row(
    id: Json,
    posted: Json,
    uploader: Json,
    rating: Json,
    score: Json,
    size: string,
    source: Json,
    preview: Json,
    fileUrl: Json)

  /** Python's `a or b`: the first operand when it is truthy, else the second. */
  function Or(a: Json, b: Json): (r: Json)
    ensures Truthy(a) ==> r == a
    ensures !Truthy(a) ==> r == b
  {
    if Truthy(a) then a else b
  }

  /** `f"{width}x{height}"`. */
  function SizeOf(width: Json, height: Json): string {
    Format(width) + "x" + Format(height)
  }

  /** The row `parser` builds from one post: missing keys read as None, except `source`, which
      defaults to "". */
  function ToRow(post: map<string, Json>): (r: Row)
    ensures r.id == Get(post, "id", JNull) && r.posted == Get(post, "created_at", JNull)
    ensures r.uploader == Get(post, "owner", JNull) && r.rating == Get(post, "rating", JNull)
    ensures r.score == Get(post, "score", JNull) && r.preview == Get(post, "preview_url", JNull)
    ensures r.source == Get(post, "source", JStr(""))
    ensures r.size == SizeOf(Get(post, "width", JNull), Get(post, "height", JNull))
    ensures r.fileUrl == Or(Get(post, "file_url", JNull), Or(Get(post, "sample_url", JNull), Get(post, "preview_url", JNull)))
  {
    var preview := Get(post, "preview_url", JNull);
    Row(Get(post, "id", JNull), Get(post, "created_at", JNull), Get(post, "owner", JNull),
        Get(post, "rating", JNull), Get(post, "score", JNull),
        SizeOf(Get(post, "width", JNull), Get(post, "height", JNull)),
        Get(post, "source", JStr("")), preview,
        Or(Get(post, "file_url", JNull), Or(Get(post, "sample_url", JNull), preview)))
  }

  /** What `parser(posts)` returns: one row per post, in order, or an `AttributeError` at the
      first post that is not an object (`post.get` does not exist on it). */
  function Parsed(posts: seq<Json>): (r: Result<seq<Row>>)
    ensures r.Ok? <==> AllObjects(posts)
    ensures r.Ok? ==> |r.value| == |posts|
    decreases |posts|
  {
    if posts == [] then Ok([])
    else
      AllObjectsSnoc(posts);
      var front := Parsed(posts[..|posts| - 1]);
      var last := posts[|posts| - 1];
      if front.Raises? then front
      else if !last.JObj? then Raises("AttributeError")
      else Ok(front.value + [ToRow(last.fields)])
  }

  predicate AllObjects(posts: seq<Json>) {
    forall k :: 0 <= k < |posts| ==> posts[k].JObj?
  }

  lemma AllObjectsSnoc(posts: seq<Json>)
    requires posts != []
    ensures AllObjects(posts) <==> AllObjects(posts[..|posts| - 1]) && posts[|posts| - 1].JObj?
  {
    var front := posts[..|posts| - 1];
    assert forall k :: 0 <= k < |front| ==> front[k] == posts[k];
  }

  /** `parser(posts)`: the row loop. */
  method Parser(posts: seq<Json>) returns (r: Result<seq<Row>>)
    ensures r == Parsed(posts)
  {
    var rows: seq<Row> := [];
    var i := 0;
    while i < |posts|
      invariant 0 <= i <= |posts|
      invariant Parsed(posts[..i]) == Ok(rows)
    {
      assert posts[..i + 1][..i] == posts[..i];
      var post := posts[i];
      if !post.JObj? {
        PrefixRaises(posts, i + 1);
        return Raises("AttributeError");
      }
      rows := rows + [ToRow(post.fields)];
      i := i + 1;
    }
    assert posts[..i] == posts;
    return Ok(rows);
  }

  // ---------------------------------------------------------------- properties

  /** Once a prefix of the posts raises, the whole run raises with the same error. */
  lemma {:induction false} PrefixRaises(posts: seq<Json>, n: nat)
    requires n <= |posts| && Parsed(posts[..n]).Raises?
    ensures Parsed(posts) == Parsed(posts[..n])
    decreases |posts| - n
  {
    if n < |posts| {
      assert posts[..n + 1][..n] == posts[..n];
      PrefixRaises(posts, n + 1);
    } else {
      assert posts[..n] == posts;
    }
  }

  /** Row `k` of a successful parse is the row of post `k`: one row per post, in order. */
  lemma {:induction false} ParsedAt(posts: seq<Json>, k: nat)
    requires Parsed(posts).Ok? && k < |posts|
    ensures posts[k].JObj? && Parsed(posts).value[k] == ToRow(posts[k].fields)
    decreases |posts|
  {
    var front := posts[..|posts| - 1];
    if k < |posts| - 1 {
      ParsedAt(front, k);
      assert front[k] == posts[k];
    }
  }

  /** With neither a sort nor a rating configured, the artist has no effect on the query. */
  lemma ArtistDroppedWithoutFilters(a1: string, a2: string, desc: Json, tags: string, userId: Param, apiKey: Param)
    ensures MakeupKeywords(a1, "", desc, "", tags, userId, apiKey) == MakeupKeywords(a2, "", desc, "", tags, userId, apiKey)
  {
  }

  /** With a sort configured the rating has no effect, and the query ends with the keywords. */
  lemma SortOverridesRating(artist: string, sortBy: string, desc: Json, r1: string, r2: string, tags: string, userId: Param, apiKey: Param)
    requires sortBy != []
    ensures MakeupKeywords(artist, sortBy, desc, r1, tags, userId, apiKey) == MakeupKeywords(artist, sortBy, desc, r2, tags, userId, apiKey)
    ensures var q := MakeupKeywords(artist, sortBy, desc, r1, tags, userId, apiKey)["tags"].s;
      |q| >= |artist| + 1 + |tags| && q[|q| - |artist| - 1 - |tags|..] == artist + " " + tags
  {
    var q := MakeupKeywords(artist, sortBy, desc, r1, tags, userId, apiKey)["tags"].s;
    var head := "sort:" + sortBy + ":" + Format(desc) + " ";
    assert q == head + (artist + " " + tags);
  }

  /** The download URL of a row is the first truthy of `file_url`, `sample_url`, `preview_url`,
      and the last of them when none is truthy. */
  lemma FileUrlChoice(post: map<string, Json>)
    ensures var f := Get(post, "file_url", JNull);
      var s := Get(post, "sample_url", JNull);
      var p := Get(post, "preview_url", JNull);
      ToRow(post).fileUrl == if Truthy(f) then f else if Truthy(s) then s else p
    ensures Truthy(ToRow(post).fileUrl) <==>
      Truthy(Get(post, "file_url", JNull)) || Truthy(Get(post, "sample_url", JNull)) || Truthy(Get(post, "preview_url", JNull))
  {
  }

  /** An object envelope without posts and an empty list both give no rows. */
  lemma EmptyEnvelope(m: map<string, Json>)
    requires "post" !in m
    ensures Envelope(JObj(m)) == JList([]) && Parsed(Envelope(JObj(m)).items) == Ok([])
  {
  }
}
