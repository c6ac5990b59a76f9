/** crawlers/Gelbooru.py: the Gelbooru dialect of the crawl protocol. */
module Gelbooru {
  import opened Wrappers
  import opened PyStr
  import opened Json
  import opened Models

  const BASE_URL: string := "https://gelbooru.com/index.php?page=dapi&s=post&q=index"
  const ATTRIBUTES: string := "@attributes"

  /** `_get_sort_string(sort_by, desc)`: the `sort:<field>:<direction>` metatag. */
  function SortString(sortBy: string, desc: string): (r: string)
    ensures sortBy == [] <==> r == []
    ensures sortBy != [] ==> StartsWith(r, "sort:") && r[5..] == sortBy + ":" + desc
  {
    if sortBy == [] then [] else "sort:" + sortBy + ":" + desc
  }

  /** `_build_params(tags, page, limit)`: 0-based `pid`, credentials always present, perhaps as
      None. */
  function BuildParams(apiKey: Option<string>, userId: Option<string>, tags: string, page: int, limit: int): (p: Params)
    ensures p.Keys == {"tags", "user_id", "api_key", "json", "limit", "pid"}
    ensures p["tags"] == PStr(tags) && p["limit"] == PInt(limit) && p["pid"] == PInt(page)
    ensures p["json"] == PInt(1)
    ensures p["user_id"] == OptParam(userId) && p["api_key"] == OptParam(apiKey)
  {
    map["tags" := PStr(tags), "user_id" := OptParam(userId), "api_key" := OptParam(apiKey),
        "json" := PInt(1), "limit" := PInt(limit), "pid" := PInt(page)]
  }

  /** `_parse_json_list(json_data)`: the list under "post" of an object, else an empty page. A
      "post" value that is not a list yields no record in the crawl loop either: falsy values end
      the crawl at once, and iterating any other value fails on its first element, so it is read
      here as the empty page. */
  function ParseJsonList(body: Json): (r: seq<Json>)
    ensures body.JObj? && "post" in body.fields && body.fields["post"].JList? ==> r == body.fields["post"].items
    ensures !body.JObj? || "post" !in body.fields ==> r == []
  {
    match body
    case JObj(m) =>
      (match Get(m, "post", JList([]))
       case JList(l) => l
       case _ => [])
    case _ => []
  }

  /** `_get_count(response_json)`: `int(response_json["@attributes"]["count"])` when the key is
      present, 0 otherwise; unguarded, so a malformed response raises. */
  function GetCount(body: Json): (r: Result<int>)
    ensures body.JObj? && ATTRIBUTES !in body.fields ==> r == Ok(0)
    ensures r.Ok? && r.value != 0 ==>
      body.JObj? && ATTRIBUTES in body.fields && body.fields[ATTRIBUTES].JObj? &&
      "count" in body.fields[ATTRIBUTES].fields &&
      PyInt(body.fields[ATTRIBUTES].fields["count"]) == Some(r.value)
    ensures body.JObj? && ATTRIBUTES in body.fields && !body.fields[ATTRIBUTES].JObj? ==> r == Raises("TypeError")
    ensures body.JNull? || body.JBool? || body.JInt? ==> r.Raises?
  {
    match body
    case JObj(m) =>
      if ATTRIBUTES !in m then Ok(0)
      else
        (match m[ATTRIBUTES]
         case JObj(a) =>
           if "count" !in a then Raises("KeyError")
           else
             IntCall(a["count"])
         case _ => Raises("TypeError"))
    case JList(l) => if JStr(ATTRIBUTES) in l then Raises("TypeError") else Ok(0)
    case JStr(s) => if Contains(s, ATTRIBUTES) then Raises("TypeError") else Ok(0)
    case _ => Raises("TypeError")
  }

  /** `_normalize_data(raw_post)`: a record for every object; the site is left at its default. */
  function Normalize(raw: Json): (r: Normalized)
    ensures !raw.JObj? <==> r == Raise
    ensures r != Skip
    ensures r.Keep? ==> r.item.url == AsStr(Get(raw.fields, "file_url", JNull))
    ensures r.Keep? ==> r.item.id == AsInt(Get(raw.fields, "id", JNull))
    ensures r.Keep? ==> r.item.rating == AsStr(Get(raw.fields, "rating", JNull))
    ensures r.Keep? ==> r.item.tags == AsStr(Get(raw.fields, "tags", JNull))
    ensures r.Keep? ==> r.item.createdAt == AsStr(Get(raw.fields, "created_at", JNull))
    ensures r.Keep? ==> r.item.width == AsInt(Get(raw.fields, "width", JNull))
    ensures r.Keep? ==> r.item.height == AsInt(Get(raw.fields, "height", JNull))
    ensures r.Keep? ==> r.item.score == AsInt(Get(raw.fields, "score", JNull))
    ensures r.Keep? ==> r.item.source == AsStr(Get(raw.fields, "source", JNull))
    ensures r.Keep? ==> r.item.site == [] && r.item.explicitExt == [] && r.item.artist == UNKNOWN
  {
    match raw
    case JObj(m) =>
      Keep(Item(
        AsInt(Get(m, "id", JNull)), AsStr(Get(m, "file_url", JNull)), AsStr(Get(m, "rating", JNull)),
        AsStr(Get(m, "tags", JNull)), AsInt(Get(m, "width", JNull)), AsInt(Get(m, "height", JNull)),
        AsStr(Get(m, "source", JNull)), AsStr(Get(m, "created_at", JNull)), AsInt(Get(m, "score", JNull)),
        "", "", UNKNOWN))
    case _ => Raise
  }

  // ---------------------------------------------------------------- properties

  /** The count of a response object with the attributes block: the number under "count" when
      it converts; `TypeError` when the block is not an object or the count is None, a list or
      a dict; `KeyError` when "count" is missing; `ValueError` for a count text that is not a
      number. */
  lemma GetCountOfObject(m: map<string, Json>)
    requires ATTRIBUTES in m
    ensures !m[ATTRIBUTES].JObj? ==> GetCount(JObj(m)) == Raises("TypeError")
    ensures m[ATTRIBUTES].JObj? && "count" !in m[ATTRIBUTES].fields ==> GetCount(JObj(m)) == Raises("KeyError")
    ensures m[ATTRIBUTES].JObj? && "count" in m[ATTRIBUTES].fields ==>
      var c := m[ATTRIBUTES].fields["count"];
      GetCount(JObj(m)) == match PyInt(c)
        case Some(n) => Ok(n)
        case None => if c.JStr? then Raises("ValueError") else Raises("TypeError")
  {
  }

  /** A count given as a number or as its decimal text is read back as that number. */
  lemma GetCountOf(m: map<string, Json>, count: map<string, Json>, n: int)
    requires ATTRIBUTES in m && m[ATTRIBUTES] == JObj(count) && "count" in count
    requires count["count"] == JInt(n) || count["count"] == JStr(IntToString(n))
    ensures GetCount(JObj(m)) == Ok(n)
  {
    IntRoundTrip(n);
    GetCountOfObject(m);
  }

  /** A count text that is not a number raises `ValueError` instead of yielding 0. */
  lemma GetCountNotNumber(m: map<string, Json>, count: map<string, Json>)
    requires ATTRIBUTES in m && m[ATTRIBUTES] == JObj(count) && "count" in count
    requires count["count"] == JStr("abc")
    ensures GetCount(JObj(m)) == Raises("ValueError")
  {
    assert ParseInt("abc") == None by {
      StripUnchanged("abc");
    }
    GetCountOfObject(m);
  }

  /** Outside an object, only a list or a string that holds the attributes key raises. */
  lemma GetCountNonObject(l: seq<Json>, n: int)
    ensures GetCount(JList(l)).Raises? <==> JStr(ATTRIBUTES) in l
    ensures GetCount(JInt(n)).Raises?
  {
  }

  /** The post object Gelbooru sends for a record, every field with its JSON type. */
  function PostOf(it: Item): Json {
    JObj(map[
      "id" := JInt(it.id), "file_url" := JStr(it.url), "rating" := JStr(it.rating),
      "tags" := JStr(it.tags), "width" := JInt(it.width), "height" := JInt(it.height),
      "source" := JStr(it.source), "created_at" := JStr(it.createdAt), "score" := JInt(it.score)])
  }

  /** Normalizing the post of a record gives the record back: every field is copied unchanged,
      the rating included, and the site, explicit extension and artist take their defaults. */
  lemma NormalizePostOf(it: Item)
    ensures Normalize(PostOf(it)) == Keep(it.(site := "", explicitExt := "", artist := UNKNOWN))
  {
    PostFields(it);
  }

  /** Each field of the post of a record holds the record's value. */
  lemma PostFields(it: Item)
    ensures var m := PostOf(it).fields;
      Get(m, "id", JNull) == JInt(it.id) && Get(m, "file_url", JNull) == JStr(it.url) &&
      Get(m, "rating", JNull) == JStr(it.rating) && Get(m, "tags", JNull) == JStr(it.tags) &&
      Get(m, "width", JNull) == JInt(it.width) && Get(m, "height", JNull) == JInt(it.height) &&
      Get(m, "source", JNull) == JStr(it.source) && Get(m, "created_at", JNull) == JStr(it.createdAt) &&
      Get(m, "score", JNull) == JInt(it.score)
  {
  }
}
