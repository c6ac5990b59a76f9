/**
 * core/models.py: the normalised record `ImageItem`, its derived properties and its CSV row.
 *
 * The source dataclass declares no `artist` field, yet the roster, the database sink and the
 * CSV importer read and write `item.artist`; the model gives the record an `artist` field whose
 * default is "Unknown". An unset `_extension` (None) is the empty string, and a `url` of None is
 * the empty string: both are falsy wherever the source tests them.
 */
module Models {
  import opened Wrappers
  import opened PyStr

  const UNKNOWN: string := "Unknown"
  const DEFAULT_EXT: string := ".jpg"
  const VIDEO_EXTS: set<string> := {".mp4", ".webm", ".gif"}
  const EXPLICIT_RATINGS: set<string> := {"explicit", "e", "sx"}

  datatype Item = Item(
    id: int,
    url: string,
    rating: string,
    tags: string,
    width: int,
    height: int,
    source: string,
    createdAt: string,
    score: int,
    site: string,
    explicitExt: string,
    artist: string)

  /** What a site adapter's `_normalize_data` does with one raw post: build a record, return
      None (the post is dropped), or raise (a post that is not a JSON object). */
  datatype Normalized = Keep(item: Item) | Skip | Raise

  /** `ImageItem(id=..., url=..., ...)` with the dataclass defaults for the remaining fields. */
  function NewItem(id: int, url: string, rating: string, tags: string, width: int, height: int): (it: Item)
    ensures it.source == "" && it.createdAt == "" && it.score == 0 && it.site == ""
    ensures it.explicitExt == "" && it.artist == UNKNOWN
  {
    Item(id, url, rating, tags, width, height, "", "", 0, "", "", UNKNOWN)
  }

  /** The extension derived from a URL: the `splitext` suffix cut before any `?`, lower-cased,
      or ".jpg" when that leaves nothing. */
  function UrlExtension(url: string): (e: string)
    ensures |e| > 0 && e[0] == '.'
    ensures NoUpper(e) && '?' !in e && '/' !in e
    ensures Before(SplitExt(url).1, '?') != [] ==> e == Lower(Before(SplitExt(url).1, '?'))
    ensures Before(SplitExt(url).1, '?') == [] ==> e == DEFAULT_EXT
  {
    var cut := Before(SplitExt(url).1, '?');
    if cut != [] then
      CutOfSuffix(SplitExt(url).1);
      LowerLacks(cut, '?');
      LowerLacks(cut, '/');
      Lower(cut)
    else DEFAULT_EXT
  }

  /** The part of a `splitext` suffix before `?` is empty or starts with the dot and, like the
      suffix, holds no `/`. */
  lemma CutOfSuffix(ext: string)
    requires ext == [] || ext[0] == '.'
    requires '/' !in ext
    ensures var cut := Before(ext, '?'); cut == [] || (cut[0] == '.' && '/' !in cut)
  {
    var cut := Before(ext, '?');
    if '?' in ext {
      assert ext == cut + ['?'] + ext[|cut| + 1..];
      assert forall x :: x in cut ==> x in ext;
    }
  }

  /** Lower-casing neither creates nor removes a character that is not a letter. */
  lemma LowerLacks(s: string, c: char)
    requires c !in s && !('A' <= c <= 'Z') && !('a' <= c <= 'z')
    ensures c !in Lower(s)
  {
    var r := Lower(s);
    forall k | 0 <= k < |r| ensures r[k] != c {
      assert r[k] == LowerChar(s[k]);
    }
  }

  /** `ImageItem.extension`. */
  function Extension(item: Item): (e: string)
    ensures item.explicitExt != [] ==> e == item.explicitExt
    ensures item.explicitExt == [] ==> |e| > 0 && e[0] == '.' && NoUpper(e) && '?' !in e
    ensures item.explicitExt == [] && item.url == [] ==> e == DEFAULT_EXT
    ensures item.explicitExt == [] && item.url != [] ==> e == UrlExtension(item.url)
  {
    if item.explicitExt != [] then item.explicitExt
    else if item.url != [] then UrlExtension(item.url)
    else DEFAULT_EXT
  }

  /** `ImageItem.filename`: the decimal id followed by the extension. Its meaning is stated by the
      lemmas `FilenameStem` (the stem parses back to the id), `FilenamesDistinct` (distinct ids
      give distinct names) and `ExampleFilename`. */
  function Filename(item: Item): (name: string)
  {
    IntToString(item.id) + Extension(item)
  }

  /** `ImageItem.is_video`. */
  function IsVideo(item: Item): (b: bool)
    ensures item.explicitExt == [] && item.url == [] ==> !b
    ensures item.explicitExt != [] ==> (b <==> item.explicitExt in VIDEO_EXTS)
  {
    Extension(item) in VIDEO_EXTS
  }

  /** `ImageItem.is_explicit`. */
  function IsExplicit(item: Item): (b: bool)
    ensures item.rating in EXPLICIT_RATINGS ==> b
    ensures item.rating == [] ==> !b
  {
    assert item.rating in EXPLICIT_RATINGS ==> Lower(item.rating) == item.rating;
    Lower(item.rating) in EXPLICIT_RATINGS
  }

  /** One line of the tabular sink, in the column order `to_dict` builds. */
  datatype CsvRow = CsvRow(
    id: int,
    site: string,
    posted: string,
    artist: string,
    rating: string,
    score: int,
    size: string,
    fileUrl: string,
    tags: string)

  /** `"{w}x{h}"`. */
  function SizeText(w: int, h: int): (r: string)
    ensures Before(r, 'x') == IntToString(w)
    ensures |r| == |IntToString(w)| + 1 + |IntToString(h)| && r[|IntToString(w)| + 1..] == IntToString(h)
  {
    IntToStringLacks(w, 'x');
    BeforeOf(IntToString(w), 'x', IntToString(h));
    assert IntToString(w) + "x" + IntToString(h) == IntToString(w) + ['x'] + IntToString(h);
    IntToString(w) + "x" + IntToString(h)
  }

  /** `ImageItem.to_dict(artist)`. */
  function ToRow(item: Item, artist: string): (r: CsvRow)
    ensures r.artist == if artist != [] then artist else UNKNOWN
    ensures r.size == SizeText(item.width, item.height)
    ensures r.id == item.id && r.site == item.site && r.posted == item.createdAt
    ensures r.rating == item.rating && r.score == item.score
    ensures r.fileUrl == item.url && r.tags == item.tags
  {
    var row := CsvRow(item.id, item.site, item.createdAt, UNKNOWN, item.rating, item.score,
                      SizeText(item.width, item.height), item.url, item.tags);
    if artist != [] then row.(artist := artist) else row
  }

  // ---------------------------------------------------------------- properties

  /** A worked example: id 9 with URL "https://x/9.jpg?v=2" gets extension ".jpg" and file "9.jpg". */
  lemma ExampleFilename()
    ensures Extension(NewItem(9, "https://x/9.jpg?v=2", "", "", 0, 0)) == ".jpg"
    ensures Filename(NewItem(9, "https://x/9.jpg?v=2", "", "", 0, 0)) == "9.jpg"
  {
    var item := NewItem(9, "https://x/9.jpg?v=2", "", "", 0, 0);
    ExampleUrlExtension();
    assert Extension(item) == ".jpg";
    NineFilename();
  }

  lemma NineFilename()
    ensures IntToString(9) + ".jpg" == "9.jpg"
  {
    assert IntToString(9) == "9";
  }

  lemma ExampleUrlExtension()
    ensures UrlExtension("https://x/9.jpg?v=2") == ".jpg"
  {
    ExampleSuffix();
    ExampleCut();
    LowerJpg();
  }

  /** A URL whose last path component is a dot-free stem, one dot-led suffix and perhaps a
      query string has that suffix, lower-cased, as its extension. */
  lemma UrlExtensionOfFile(dir: string, stem: string, ext: string, query: string)
    requires stem != [] && '.' !in stem && '/' !in stem
    requires |ext| > 0 && ext[0] == '.' && '.' !in ext[1..] && '/' !in ext && '?' !in ext
    requires query == [] || (query[0] == '?' && '.' !in query && '/' !in query)
    ensures UrlExtension(dir + stem + ext + query) == Lower(ext)
  {
    var suffix := ext + query;
    assert dir + stem + ext + query == dir + stem + suffix;
    assert suffix[1..] == ext[1..] + query;
    SplitExtOf(dir, stem, suffix);
    if query == [] {
      assert suffix == ext;
    } else {
      assert suffix == ext + ['?'] + query[1..];
      BeforeOf(ext, '?', query[1..]);
    }
  }

  /** A URL whose last path component holds no dot falls back to the default extension, however
      many dots the rest of the URL holds. */
  lemma UrlExtensionFallback(dir: string, name: string)
    requires dir == [] || dir[|dir| - 1] == '/'
    requires '.' !in name && '/' !in name
    ensures UrlExtension(dir + name) == DEFAULT_EXT
  {
    var p := dir + name;
    assert forall j :: |dir| <= j < |p| ==> p[j] == name[j - |dir|];
    var dotIndex := RFind(p, '.');
    assert dotIndex < |dir|;
    if dir != [] {
      RFindAt(p, '/', |dir| - 1);
    }
    assert SplitExt(p).1 == [];
  }

  lemma LowerJpg()
    ensures Lower(".jpg") == ".jpg"
  {
  }

  lemma ExampleSuffix()
    ensures SplitExt("https://x/9.jpg?v=2").1 == ".jpg?v=2"
  {
    var ext := ".jpg?v=2";
    assert "https://x/9.jpg?v=2" == "https://x/" + "9" + ext;
    assert '.' !in ext[1..];
    SplitExtOf("https://x/", "9", ext);
  }

  lemma ExampleCut()
    ensures Before(".jpg?v=2", '?') == ".jpg"
  {
    assert ".jpg?v=2" == ".jpg" + ['?'] + "v=2";
    BeforeOf(".jpg", '?', "v=2");
  }

  /** Without an explicit extension, the text of a filename before its first `.` is the id. */
  lemma FilenameStem(item: Item)
    requires item.explicitExt == []
    ensures Before(Filename(item), '.') == IntToString(item.id)
    ensures ParseInt(Before(Filename(item), '.')) == Some(item.id)
  {
    var e := Extension(item);
    assert e != [] && e[0] == '.';
    IntToStringLacks(item.id, '.');
    StemOf(IntToString(item.id), e);
    IntRoundTrip(item.id);
  }

  /** Two records without explicit extensions and with distinct ids have distinct filenames. */
  lemma FilenamesDistinct(a: Item, b: Item)
    requires a.explicitExt == [] && b.explicitExt == []
    requires a.id != b.id
    ensures Filename(a) != Filename(b)
  {
    FilenameStem(a);
    FilenameStem(b);
  }

  lemma LowerIdempotent(s: string)
    ensures Lower(Lower(s)) == Lower(s)
  {
  }

  /** `is_explicit` ignores the case of the rating. */
  lemma ExplicitIgnoresCase(item: Item)
    ensures IsExplicit(item) == IsExplicit(item.(rating := Lower(item.rating)))
    ensures IsExplicit(item.(rating := "E")) && IsExplicit(item.(rating := "Explicit"))
    ensures !IsExplicit(item.(rating := "questionable"))
  {
    LowerIdempotent(item.rating);
    assert Lower("E") == "e";
    assert Lower("Explicit") == "explicit";
    assert Lower("questionable") == "questionable";
  }

  /** A record whose URL ends in a video suffix, in any letter case, is a video. */
  lemma VideoFromUrl(item: Item, dir: string, stem: string, ext: string)
    requires item.explicitExt == []
    requires '/' !in stem && '.' !in stem && stem != []
    requires ext in [".mp4", ".webm", ".gif", ".MP4", ".WEBM", ".GIF"]
    requires item.url == dir + stem + ext
    ensures IsVideo(item)
  {
    VideoSuffix(ext);
    UrlExtensionOfFile(dir, stem, ext, "");
    assert item.url == dir + stem + ext + "";
  }

  lemma VideoSuffix(ext: string)
    requires ext in [".mp4", ".webm", ".gif", ".MP4", ".WEBM", ".GIF"]
    ensures ext[0] == '.' && '.' !in ext[1..] && '/' !in ext && '?' !in ext
    ensures Before(ext, '?') == ext && Lower(ext) in VIDEO_EXTS
  {
    if ext == ".mp4" || ext == ".MP4" {
      SuffixLower(ext, ".mp4");
      DotSuffix(ext);
    } else if ext == ".webm" || ext == ".WEBM" {
      SuffixLower(ext, ".webm");
      DotSuffix(ext);
    } else {
      SuffixLower(ext, ".gif");
      DotSuffix(ext);
    }
  }

  /** A dot followed by characters that are neither dots, slashes nor question marks. */
  lemma DotSuffix(ext: string)
    requires |ext| >= 2 && ext[0] == '.'
    requires forall i :: 1 <= i < |ext| ==> ext[i] != '.' && ext[i] != '/' && ext[i] != '?'
    ensures '.' !in ext[1..] && '/' !in ext && '?' !in ext && Before(ext, '?') == ext
  {
    assert forall i :: 0 <= i < |ext| - 1 ==> ext[1..][i] == ext[i + 1];
  }

  /** A suffix whose characters lower-case one by one to those of `low`. */
  lemma SuffixLower(ext: string, low: string)
    requires |ext| == |low| && forall i :: 0 <= i < |ext| ==> LowerChar(ext[i]) == low[i]
    ensures Lower(ext) == low
  {
  }
}
