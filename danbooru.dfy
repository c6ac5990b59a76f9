/** crawlers/Danbooru.py: the Danbooru dialect of the crawl protocol. */
module Danbooru {
  import opened Wrappers
  import opened PyStr
  import opened Json
  import opened Models

  const BASE_URL: string := "https://danbooru.donmai.us/posts.json"
  const SITE_NAME: string := "Danbooru"
  const MAX_NAME: nat := 100

  /** Characters stripped from both ends of a safe name. */
  const TRIM_CHARS: set<char> := {' ', '.', '_'}

  /** Characters a safe name never contains. */
  const FORBIDDEN: set<char> := {' ', ':', '*', '?', '<', '>', '"', '\\', '/', '|'}

  predicate NoDoubled(s: string, c: char) {
    forall k :: 0 <= k < |s| - 1 ==> !(s[k] == c && s[k + 1] == c)
  }

  /** The character-level cleaning of `get_safe_tag_name`: spaces and colons become `_`, the
      wildcards and the characters a file name may not hold are removed. */
  function Scrub(s: string): (r: string)
    ensures forall k :: 0 <= k < |r| ==> r[k] !in FORBIDDEN
    ensures NoUpper(s) ==> NoUpper(r)
  {
    var s1 := ReplaceChar(s, ' ', '_');
    var s2 := ReplaceChar(s1, ':', '_');
    assert forall x :: x in s2 ==> x != ' ' && x != ':' && (NoUpper(s) ==> !IsUpper(x));
    var s3 := RemoveChars(s2, {'*', '?'});
    assert forall x :: x in s3 ==> x in s2;
    RemoveChars(s3, {'<', '>', '"', '\\', '/', '|'})
  }

  /** The last step of `get_safe_tag_name`: strip space, `.` and `_` from both ends and keep at
      most 100 characters. */
  function Trim(s: string): (r: string)
    ensures |r| <= MAX_NAME
    ensures TrimOffset(s) + |r| <= |s| && r == s[TrimOffset(s)..TrimOffset(s) + |r|]
    ensures r != [] ==> r[0] !in TRIM_CHARS
  {
    var l := LStrip(s, TRIM_CHARS);
    var t := RStrip(l, TRIM_CHARS);
    var r := t[..if |t| < MAX_NAME then |t| else MAX_NAME];
    TrimSlice(s, l, t, r);
    r
  }

  /** A prefix of a prefix of a suffix of `s` is a slice of `s`. */
  lemma TrimSlice(s: string, l: string, t: string, r: string)
    requires |l| <= |s| && l == s[|s| - |l|..]
    requires |t| <= |l| && t == l[..|t|]
    requires |r| <= |t| && r == t[..|r|]
    ensures r == s[|s| - |l|..|s| - |l| + |r|]
  {
    forall k | 0 <= k < |r| ensures r[k] == s[|s| - |l| + k] {
      assert r[k] == t[k] == l[k];
    }
  }

  /** Where the text `Trim` keeps begins. */
  function TrimOffset(s: string): nat {
    |s| - |LStrip(s, TRIM_CHARS)|
  }

  /** `get_safe_tag_name(tags)`; `None` is the empty string. */
  function SafeTagName(tags: string): (r: string)
    ensures tags == [] ==> r == "all"
    ensures |r| <= MAX_NAME
  {
    if tags == [] then "all"
    else Trim(CollapseRuns(Scrub(Strip(Lower(tags))), '_'))
  }

  /** `_get_sort_string(sort_by, desc)`: Danbooru's `order:` metatag; `desc` plays no part. */
  function SortString(sortBy: string, desc: string): (r: string)
    ensures sortBy == [] ==> r == []
    ensures sortBy == "updated" ==> r == "order:id"
    ensures sortBy != [] && sortBy != "updated" ==> StartsWith(r, "order:")
    ensures sortBy != [] && sortBy != "updated" && StartsWith(sortBy, "order:") ==> r == sortBy
    ensures sortBy != [] && sortBy != "updated" && !StartsWith(sortBy, "order:") ==> r == "order:" + sortBy
  {
    if sortBy == [] then []
    else if sortBy == "updated" then "order:id"
    else if !StartsWith(sortBy, "order:") then "order:" + sortBy
    else sortBy
  }

  /** `_build_params(tags, page, limit)`: 1-based `page`; `login` and `api_key` only when both
      credentials are set. */
  function BuildParams(apiKey: Option<string>, userId: Option<string>, tags: string, page: int, limit: int): (p: Params)
    ensures "tags" in p && p["tags"] == PStr(tags)
    ensures "limit" in p && p["limit"] == PInt(limit)
    ensures "page" in p && p["page"] == PInt(page + 1)
    ensures ("login" in p) <==> Configured(apiKey) && Configured(userId)
    ensures ("api_key" in p) <==> Configured(apiKey) && Configured(userId)
    ensures "login" in p ==> p["login"] == OptParam(userId) && p["api_key"] == OptParam(apiKey)
    ensures p.Keys <= {"tags", "limit", "page", "login", "api_key"}
  {
    var base := map["tags" := PStr(tags), "limit" := PInt(limit), "page" := PInt(page + 1)];
    if Configured(apiKey) && Configured(userId) then
      base["login" := OptParam(userId)]["api_key" := OptParam(apiKey)]
    else base
  }

  /** `_parse_json_list(json_data)`: a bare list is the page; anything else is an empty page. */
  function ParseJsonList(body: Json): (r: seq<Json>)
    ensures body.JList? ==> r == body.items
    ensures !body.JList? ==> r == []
  {
    match body
    case JList(l) => l
    case _ => []
  }

  /** `_get_count(json_data)`: `int(json_data["counts"]["posts"])`, and 0 on a missing key or any
      failure. */
  function GetCount(body: Json): (r: int)
    ensures !body.JObj? ==> r == 0
    ensures (body.JObj? && "counts" in body.fields && body.fields["counts"].JObj? &&
      "posts" in body.fields["counts"].fields) ==> r == PyInt(body.fields["counts"].fields["posts"]).GetOr(0)
    ensures r != 0 ==>
      body.JObj? && "counts" in body.fields && body.fields["counts"].JObj? &&
      "posts" in body.fields["counts"].fields && PyInt(body.fields["counts"].fields["posts"]) == Some(r)
  {
    match body
    case JObj(m) =>
      (match Get(m, "counts", JObj(map[]))
       case JObj(c) => PyInt(Get(c, "posts", JInt(0))).GetOr(0)
       case _ => 0)
    case _ => 0
  }

  /** The long form of a Danbooru rating code; other codes pass through. */
  function RatingName(code: string): (r: string)
    ensures code == "e" ==> r == "explicit"
    ensures code == "q" ==> r == "questionable"
    ensures code == "s" ==> r == "sensitive"
    ensures code == "g" ==> r == "general"
    ensures code !in RATING_CODES ==> r == code
  {
    if code == "e" then "explicit"
    else if code == "q" then "questionable"
    else if code == "s" then "sensitive"
    else if code == "g" then "general"
    else code
  }

  /** The short rating codes the adapter expands. */
  const RATING_CODES: set<string> := {"e", "q", "s", "g"}

  /** The date part of an ISO timestamp: the text before the first `T`, when there is one. */
  function DatePart(created: string): (r: string)
    ensures 'T' !in r
    ensures StartsWith(created, r)
    ensures 'T' !in created ==> r == created
    ensures 'T' in created ==> created == r + "T" + created[|r| + 1..]
  {
    if created != [] && 'T' in created then Before(created, 'T') else created
  }

  /** Whether `created_at and "T" in created_at` raises, or the `split` after it does: `in` on a
      number or `True` is a TypeError, and a list or dict holding "T" has no `split`. */
  predicate DateRaises(v: Json) {
    match v
    case JInt(i) => i != 0
    case JBool(b) => b
    case JList(l) => JStr("T") in l
    case JObj(m) => "T" in m
    case _ => false
  }

  /** Whether `rating_map.get(raw_rating, raw_rating)` raises: a non-empty list or dict is not
      hashable. */
  predicate RatingRaises(v: Json) {
    (v.JList? || v.JObj?) && Truthy(v)
  }

  /** The rating code as read by `raw_post.get("rating") or ""`. */
  function RatingCode(m: map<string, Json>): string {
    var rr := Get(m, "rating", JNull);
    if Truthy(rr) then AsStr(rr) else ""
  }

  /** `_normalize_data(raw_post)`. */
  function Normalize(raw: Json): (r: Normalized)
    ensures !raw.JObj? ==> r == Raise
    ensures raw.JObj? ==>
      (r == Skip <==> !Truthy(Get(raw.fields, "file_url", JNull)) && !Truthy(Get(raw.fields, "large_file_url", JNull)))
    ensures raw.JObj? && r != Skip ==>
      (r == Raise <==> DateRaises(Get(raw.fields, "created_at", JStr(""))) || RatingRaises(Get(raw.fields, "rating", JNull)))
    ensures r.Keep? ==> r.item.site == SITE_NAME && r.item.artist == UNKNOWN && r.item.explicitExt == []
    ensures r.Keep? ==> (r.item.url ==
      if Truthy(Get(raw.fields, "file_url", JNull)) then AsStr(raw.fields["file_url"])
      else AsStr(raw.fields["large_file_url"]))
    ensures r.Keep? ==> r.item.createdAt == DatePart(AsStr(Get(raw.fields, "created_at", JStr(""))))
    ensures r.Keep? ==> r.item.rating == RatingName(RatingCode(raw.fields))
    ensures r.Keep? ==> r.item.tags == AsStr(Get(raw.fields, "tag_string", JStr("")))
    ensures r.Keep? ==> r.item.id == AsInt(Get(raw.fields, "id", JNull)) && r.item.score == AsInt(Get(raw.fields, "score", JNull))
    ensures r.Keep? ==> r.item.width == AsInt(Get(raw.fields, "image_width", JNull))
    ensures r.Keep? ==> r.item.height == AsInt(Get(raw.fields, "image_height", JNull))
    ensures r.Keep? ==> r.item.source == AsStr(Get(raw.fields, "source", JNull))
  {
    match raw
    case JObj(m) =>
      var fileUrl := Get(m, "file_url", JNull);
      var largeUrl := Get(m, "large_file_url", JNull);
      if !Truthy(fileUrl) && !Truthy(largeUrl) then Skip
      else if DateRaises(Get(m, "created_at", JStr(""))) || RatingRaises(Get(m, "rating", JNull)) then Raise
      else
        var url := if Truthy(fileUrl) then AsStr(fileUrl) else AsStr(largeUrl);
        var created := DatePart(AsStr(Get(m, "created_at", JStr(""))));
        Keep(Item(
          AsInt(Get(m, "id", JNull)), url, RatingName(RatingCode(m)), AsStr(Get(m, "tag_string", JStr(""))),
          AsInt(Get(m, "image_width", JNull)), AsInt(Get(m, "image_height", JNull)),
          AsStr(Get(m, "source", JNull)), created, AsInt(Get(m, "score", JNull)),
          SITE_NAME, "", UNKNOWN))
    case _ => Raise
  }

  // ---------------------------------------------------------------- properties

  /** The safe name is at most 100 characters, lower-case, free of the forbidden characters, has
      no doubled `_`, does not begin with space, `.` or `_`, and is "all" for an empty query. */
  lemma SafeTagNameProperties(tags: string)
    ensures tags == [] ==> SafeTagName(tags) == "all"
    ensures |SafeTagName(tags)| <= MAX_NAME
    ensures forall k :: 0 <= k < |SafeTagName(tags)| ==> SafeTagName(tags)[k] !in FORBIDDEN
    ensures NoUpper(SafeTagName(tags))
    ensures NoDoubled(SafeTagName(tags), '_')
    ensures SafeTagName(tags) != [] ==> SafeTagName(tags)[0] !in TRIM_CHARS
  {
    if tags != [] {
      StripNoUpper(Lower(tags));
      var s4 := Scrub(Strip(Lower(tags)));
      CollapseKeeps(s4);
      TrimKeeps(CollapseRuns(s4, '_'));
    }
  }

  /** Characters the later steps of `get_safe_tag_name` never bring back. */
  predicate Clean(s: string) {
    forall k :: 0 <= k < |s| ==> !IsUpper(s[k]) && s[k] !in FORBIDDEN
  }

  lemma CollapseKeeps(s: string)
    requires Clean(s)
    ensures Clean(CollapseRuns(s, '_')) && NoDoubled(CollapseRuns(s, '_'), '_')
  {
    var r := CollapseRuns(s, '_');
    forall k | 0 <= k < |r| ensures !IsUpper(r[k]) && r[k] !in FORBIDDEN {
      assert r[k] in s;
    }
  }

  lemma TrimKeeps(s: string)
    requires Clean(s) && NoDoubled(s, '_')
    ensures Clean(Trim(s)) && NoDoubled(Trim(s), '_')
  {
    SliceKeeps(s, TrimOffset(s), Trim(s));
  }

  /** A slice of a clean text without doubled underscores is one too. */
  lemma SliceKeeps(s: string, off: nat, r: string)
    requires Clean(s) && NoDoubled(s, '_')
    requires off + |r| <= |s| && r == s[off..off + |r|]
    ensures Clean(r) && NoDoubled(r, '_')
  {
    forall k | 0 <= k < |r| ensures !IsUpper(r[k]) && r[k] !in FORBIDDEN {
      assert r[k] == s[off + k];
    }
    forall k | 0 <= k < |r| - 1 ensures !(r[k] == '_' && r[k + 1] == '_') {
      assert r[k] == s[off + k] && r[k + 1] == s[off + k + 1];
    }
  }

  lemma StripNoUpper(s: string)
    requires NoUpper(s)
    ensures NoUpper(Strip(s))
  {
    var l := LStrip(s, Whitespace);
    var t := RStrip(l, Whitespace);
    assert Strip(s) == t;
    forall k | 0 <= k < |t| ensures !IsUpper(t[k]) {
      assert t[k] == l[k] == s[|s| - |l| + k];
    }
  }

  /** A rating normalised by this adapter is explicit exactly when the raw code is, case aside,
      one of "e", "explicit" or "sx". */
  lemma NormalizedRatingExplicit(raw: Json)
    requires Normalize(raw).Keep?
    ensures var rr := Get(raw.fields, "rating", JNull);
      IsExplicit(Normalize(raw).item) <==> Lower(if Truthy(rr) then AsStr(rr) else "") in EXPLICIT_RATINGS
  {
    RatingNameExplicit(RatingCode(raw.fields));
  }

  /** Expanding a rating code keeps whether it is explicit. */
  lemma RatingNameExplicit(code: string)
    ensures Lower(RatingName(code)) in EXPLICIT_RATINGS <==> Lower(code) in EXPLICIT_RATINGS
  {
    if code == "e" {
      assert Lower("explicit") == "explicit" && Lower("e") == "e";
    } else if code == "q" {
      assert Lower("questionable") == "questionable" && Lower("q") == "q";
    } else if code == "s" {
      assert Lower("sensitive") == "sensitive" && Lower("s") == "s";
    } else if code == "g" {
      assert Lower("general") == "general" && Lower("g") == "g";
    }
  }

  /** The count of a well-formed count response is the number it carries. */
  lemma GetCountOf(n: int)
    ensures GetCount(JObj(map["counts" := JObj(map["posts" := JInt(n)])])) == n
    ensures GetCount(JObj(map["counts" := JObj(map["posts" := JStr(IntToString(n))])])) == n
    ensures GetCount(JList([])) == 0 && GetCount(JObj(map[])) == 0
  {
    var num := JObj(map["posts" := JInt(n)]);
    assert Get(num.fields, "posts", JInt(0)) == JInt(n);
    var text := JObj(map["posts" := JStr(IntToString(n))]);
    assert Get(text.fields, "posts", JInt(0)) == JStr(IntToString(n));
    IntRoundTrip(n);
    assert PyInt(JStr(IntToString(n))) == Some(n);
  }

  /** The post object Danbooru sends for a record: the rating as its short code and the
      creation time as a full timestamp. */
  function PostOf(it: Item): Json {
    JObj(map[
      "id" := JInt(it.id), "file_url" := JStr(it.url), "rating" := JStr(it.rating),
      "tag_string" := JStr(it.tags), "image_width" := JInt(it.width), "image_height" := JInt(it.height),
      "source" := JStr(it.source), "created_at" := JStr(it.createdAt), "score" := JInt(it.score)])
  }

  /** Normalizing the post of a record with a URL gives the record back with the rating code
      expanded, the timestamp cut to its date and the site set to Danbooru. */
  lemma NormalizePostOf(it: Item)
    requires it.url != []
    ensures Normalize(PostOf(it)) == Keep(it.(rating := RatingName(it.rating), createdAt := DatePart(it.createdAt),
      site := SITE_NAME, explicitExt := "", artist := UNKNOWN))
  {
    var raw := PostOf(it);
    PostFields(it);
    assert Truthy(Get(raw.fields, "file_url", JNull));
    assert !DateRaises(Get(raw.fields, "created_at", JStr("")));
    assert !RatingRaises(Get(raw.fields, "rating", JNull));
    assert RatingCode(raw.fields) == it.rating;
    var r := Normalize(raw);
    assert r.Keep?;
  }

  /** Each field of the post of a record holds the record's value. */
  lemma PostFields(it: Item)
    ensures var m := PostOf(it).fields;
      Get(m, "id", JNull) == JInt(it.id) && Get(m, "file_url", JNull) == JStr(it.url) &&
      Get(m, "rating", JNull) == JStr(it.rating) && Get(m, "tag_string", JStr("")) == JStr(it.tags) &&
      Get(m, "image_width", JNull) == JInt(it.width) && Get(m, "image_height", JNull) == JInt(it.height) &&
      Get(m, "source", JNull) == JStr(it.source) && Get(m, "created_at", JStr("")) == JStr(it.createdAt) &&
      Get(m, "score", JNull) == JInt(it.score)
  {
  }

  /** An ISO timestamp `<date>T<time>` keeps exactly its date. */
  lemma DatePartOf(date: string, time: string)
    requires 'T' !in date
    ensures DatePart(date + "T" + time) == date
  {
    assert date + "T" + time == date + ['T'] + time;
    BeforeOf(date, 'T', time);
  }

  /** Expanding a rating is idempotent: a full rating name, or any text that is not a short
      code, is kept as it is. */
  lemma RatingNameIdempotent(code: string)
    ensures RatingName(RatingName(code)) == RatingName(code)
  {
    if code in RATING_CODES {
      assert RatingName(code) in {"explicit", "questionable", "sensitive", "general"};
    }
  }

  /** ASCII letters only, in either case. */
  predicate Letters(s: string) {
    forall i :: 0 <= i < |s| ==> 'a' <= LowerChar(s[i]) <= 'z'
  }

  /** Lower-case ASCII letters only. */
  predicate LowerLetters(s: string) {
    forall i :: 0 <= i < |s| ==> 'a' <= s[i] <= 'z'
  }

  lemma PairLower(a: string, b: string)
    requires Letters(a) && Letters(b)
    ensures Lower(a + ": " + b + "?*") == Lower(a) + ": " + Lower(b) + "?*"
    ensures LowerLetters(Lower(a)) && LowerLetters(Lower(b))
  {
    LowerAppend(a + ": " + b, "?*");
    LowerAppend(a + ": ", b);
    LowerAppend(a, ": ");
    assert Lower(": ") == ": " && Lower("?*") == "?*";
  }

  lemma PairReplace(x: string, y: string)
    requires LowerLetters(x) && LowerLetters(y)
    ensures ReplaceChar(ReplaceChar(x + ": " + y + "?*", ' ', '_'), ':', '_') == x + "__" + y + "?*"
  {
    var t := x + ": " + y + "?*";
    var r := x + "__" + y + "?*";
    var n := |x|;
    assert |t| == |r| == n + |y| + 4;
    forall i | 0 <= i < |t|
      ensures ReplaceChar(ReplaceChar(t, ' ', '_'), ':', '_')[i] == r[i]
    {
      if i < n {
        assert t[i] == x[i] && r[i] == x[i];
      } else if i < n + 2 {
        assert t[i] in {':', ' '} && r[i] == '_';
      } else if i < n + 2 + |y| {
        assert t[i] == y[i - n - 2] && r[i] == y[i - n - 2];
      } else {
        assert t[i] == r[i] && t[i] in {'?', '*'};
      }
    }
  }

  /** Two lower-case words around a doubled underscore hold only letters and `_`. */
  lemma JoinedWord(x: string, y: string, w: string)
    requires LowerLetters(x) && LowerLetters(y) && w == x + "__" + y
    ensures forall i :: 0 <= i < |w| ==> w[i] == '_' || 'a' <= w[i] <= 'z'
  {
    forall i | 0 <= i < |w| ensures w[i] == '_' || 'a' <= w[i] <= 'z' {
      if i < |x| {
        assert w[i] == x[i];
      } else if i >= |x| + 2 {
        assert w[i] == y[i - |x| - 2];
      }
    }
  }

  /** Removing the wildcards drops a trailing `?*` from a text that holds neither. */
  lemma DropWildcards(w: string, t: string)
    requires forall i :: 0 <= i < |w| ==> w[i] != '*' && w[i] != '?'
    requires t == w + "?*"
    ensures RemoveChars(t, {'*', '?'}) == w
  {
    RemoveCharsAppend(w, "?*", {'*', '?'});
    RemoveCharsNone(w, {'*', '?'});
    assert RemoveChars("?*", {'*', '?'}) == [] by {
      assert "?*"[1..] == "*";
      assert "*"[1..] == [];
    }
    assert w + [] == w;
  }

  /** Removing the characters a file name may not hold leaves letters and `_` alone. */
  lemma KeepWord(w: string)
    requires forall i :: 0 <= i < |w| ==> w[i] == '_' || 'a' <= w[i] <= 'z'
    ensures RemoveChars(w, {'<', '>', '"', '\\', '/', '|'}) == w
  {
    forall i | 0 <= i < |w| ensures w[i] !in {'<', '>', '"', '\\', '/', '|'} {
      assert w[i] == '_' || 'a' <= w[i] <= 'z';
    }
    RemoveCharsNone(w, {'<', '>', '"', '\\', '/', '|'});
  }

  lemma PairRemove(w: string)
    requires forall i :: 0 <= i < |w| ==> w[i] == '_' || 'a' <= w[i] <= 'z'
    ensures RemoveChars(RemoveChars(w + "?*", {'*', '?'}), {'<', '>', '"', '\\', '/', '|'}) == w
  {
    DropWildcards(w, w + "?*");
    KeepWord(w);
  }

  /** A doubled `c` in front of a `c`-free text collapses to one. */
  lemma CollapseDouble(y: string, c: char)
    requires y != [] && c !in y
    ensures CollapseRuns([c, c] + y, c) == [c] + y
  {
    var u := [c] + y;
    assert ([c, c] + y)[1..] == u && u[1..] == y;
    CollapsePrefix(y, [], c);
    assert y + [] == y;
  }

  lemma PairCollapse(x: string, y: string)
    requires x != [] && y != [] && LowerLetters(x) && LowerLetters(y)
    ensures CollapseRuns(x + "__" + y, '_') == x + "_" + y
  {
    assert '_' !in x && '_' !in y;
    assert x + "__" + y == x + (['_', '_'] + y);
    CollapsePrefix(x, ['_', '_'] + y, '_');
    CollapseDouble(y, '_');
    assert x + "_" + y == x + (['_'] + y);
  }

  /** A name of at most 100 characters that starts and ends with a letter is kept whole. */
  lemma TrimLetters(c: string)
    requires c != [] && |c| <= MAX_NAME
    requires 'a' <= c[0] <= 'z' && 'a' <= c[|c| - 1] <= 'z'
    ensures Trim(c) == c
  {
    assert c[0] !in TRIM_CHARS && c[|c| - 1] !in TRIM_CHARS;
    LStripKeeps(c, TRIM_CHARS);
    RStripKeeps(c, TRIM_CHARS);
    assert c[..|c|] == c;
  }

  /** The cleaning stages up to run collapsing turn `<a>: <b>?*` into the lower-case words
      around a doubled underscore. */
  lemma PairScrub(tags: string, a: string, b: string)
    requires Letters(a) && Letters(b) && tags == a + ": " + b + "?*"
    ensures Scrub(Strip(Lower(tags))) == Lower(a) + "__" + Lower(b)
  {
    PairLower(a, b);
    StripPair(Lower(a), Lower(b));
    ScrubPair(Lower(a), Lower(b));
  }

  /** The four character passes of `Scrub` on `<x>: <y>?*` for lower-case words. */
  lemma ScrubPair(x: string, y: string)
    requires LowerLetters(x) && LowerLetters(y)
    ensures Scrub(x + ": " + y + "?*") == x + "__" + y
  {
    var w := x + "__" + y;
    PairReplace(x, y);
    JoinedWord(x, y, w);
    PairRemove(w);
    ScrubOf(x + ": " + y + "?*", w + "?*", w);
  }

  /** `<x>: <y>?*` with `x` a lower-case word has nothing to strip. */
  lemma StripPair(x: string, y: string)
    requires LowerLetters(x)
    ensures Strip(x + ": " + y + "?*") == x + ": " + y + "?*"
  {
    var t := x + ": " + y + "?*";
    assert t[|t| - 1] == '*';
    if x != [] {
      assert t[0] == x[0];
    } else {
      assert t[0] == ':';
    }
    StripUnchanged(t);
  }

  /** `Scrub` is its four character passes in turn. */
  lemma ScrubOf(t: string, u: string, w: string)
    requires ReplaceChar(ReplaceChar(t, ' ', '_'), ':', '_') == u
    requires RemoveChars(RemoveChars(u, {'*', '?'}), {'<', '>', '"', '\\', '/', '|'}) == w
    ensures Scrub(t) == w
  {
  }

  /** A join of two non-empty texts starts like the first and ends like the second. */
  lemma EndsOfJoin(x: string, m: string, y: string)
    requires x != [] && y != []
    ensures (x + m + y)[0] == x[0] && (x + m + y)[|x + m + y| - 1] == y[|y| - 1]
  {
  }

  /** Two words joined the way a search for `<Word>: <Word>` with trailing wildcards is typed
      become the lower-case words joined by one underscore. */
  lemma SafeTagNameOfPair(tags: string, name: string, a: string, b: string)
    requires a != [] && b != [] && Letters(a) && Letters(b) && |a| + |b| + 1 <= MAX_NAME
    requires tags == a + ": " + b + "?*" && name == Lower(a) + "_" + Lower(b)
    ensures SafeTagName(tags) == name
  {
    var x, y := Lower(a), Lower(b);
    PairScrub(tags, a, b);
    PairLower(a, b);
    PairCollapse(x, y);
    EndsOfJoin(x, "_", y);
    TrimLetters(name);
  }

  /** A worked example: the query "Foo: Bar?*" names the folder "foo_bar". */
  lemma SafeTagNameExample(tags: string, name: string)
    requires tags == "Foo: Bar?*" && name == "foo_bar"
    ensures SafeTagName(tags) == name
  {
    var a, b := "Foo", "Bar";
    assert Letters(a) && Letters(b);
    assert tags == a + ": " + b + "?*";
    assert Lower(a) + "_" + Lower(b) == name;
    SafeTagNameOfPair(tags, name, a, b);
  }
}
