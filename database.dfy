/**
 * core/database.py: `DBManager`, the relational sink. The three tables are values: images in
 * insertion order (the autoincrement id is the position), and the tag and artist tables as the
 * sequences of their names. An image row holds the names of its artists and tags, standing for
 * the rows of the two association tables. A `save_items` call works on a session copy of the
 * tables and either commits all of it or, when the commit raises, rolls all of it back;
 * whether the commit succeeds is a parameter.
 *
 * The duplicate check at the start of each record runs a query, which flushes the records
 * added earlier in the same batch, so a repeated `(post_id, site)` within one batch is skipped
 * too. The iteration order of the name sets is taken as first occurrence.
 */
module Database {
  import opened PyStr
  import opened Models
  import opened Seqs

  datatype ImageRow = ImageRow(
    postId: int,
    site: string,
    fileUrl: string,
    rating: string,
    score: int,
    width: int,
    height: int,
    postedAt: string,
    artists: seq<string>,
    tags: seq<string>)

  datatype Tables = Tables(images: seq<ImageRow>, tags: seq<string>, artists: seq<string>)

  /** `session.query(Image.id).filter_by(post_id=..., site=...).first()` finds a row. */
  predicate HasImage(images: seq<ImageRow>, postId: int, site: string) {
    exists k :: 0 <= k < |images| && images[k].postId == postId && images[k].site == site
  }

  /** The database invariants: tag and artist names are unique and non-empty, `(post_id, site)`
      identifies an image, and every name an image refers to has its row. */
  predicate Consistent(t: Tables) {
    NameTable(t.tags) && NameTable(t.artists) && UniqueKeys(t.images) &&
    TagsLinked(t.images, t.tags) && ArtistsLinked(t.images, t.artists)
  }

  /** Every tag an image refers to has its row. */
  predicate TagsLinked(images: seq<ImageRow>, table: seq<string>) {
    forall k, n :: 0 <= k < |images| && n in images[k].tags ==> n in table
  }

  /** Every artist an image refers to has its row. */
  predicate ArtistsLinked(images: seq<ImageRow>, table: seq<string>) {
    forall k, n :: 0 <= k < |images| && n in images[k].artists ==> n in table
  }

  /** A `unique=True, nullable=False` name column, with the empty names never inserted. */
  predicate NameTable(table: seq<string>) {
    Distinct(table) && forall k :: 0 <= k < |table| ==> table[k] != []
  }

  predicate UniqueKeys(images: seq<ImageRow>) {
    forall i, j :: 0 <= i < j < |images| ==>
      images[i].postId != images[j].postId || images[i].site != images[j].site
  }

  /** `[p.strip() for p in parts]`. */
  function StripEach(parts: seq<string>): (r: seq<string>)
    ensures |r| == |parts|
    ensures forall k :: 0 <= k < |parts| ==> r[k] == Strip(parts[k])
  {
    seq(|parts|, k requires 0 <= k < |parts| => Strip(parts[k]))
  }

  /** The artist names of a record, before empty names are skipped: the distinct stripped pieces
      of the `,`-split, or "Unknown" when the field is empty. */
  function ArtistNames(artist: string): (r: seq<string>)
    ensures artist == [] ==> r == [UNKNOWN]
    ensures Distinct(r)
    ensures artist != [] ==> forall k :: 0 <= k < |r| ==> r[k] in StripEach(Split(artist, ','))
    ensures artist != [] ==> forall p :: p in StripEach(Split(artist, ',')) ==> p in r
  {
    if artist == [] then [UNKNOWN] else Dedupe(StripEach(Split(artist, ',')))
  }

  /** The tag names of a record, before empty names are skipped: the distinct stripped pieces
      of the `' '`-split, and none for an empty field. */
  function TagNames(tags: string): (r: seq<string>)
    ensures tags == [] ==> r == []
    ensures Distinct(r)
    ensures tags != [] ==> forall k :: 0 <= k < |r| ==> r[k] in StripEach(Split(tags, ' '))
    ensures tags != [] ==> forall p :: p in StripEach(Split(tags, ' ')) ==> p in r
  {
    if tags == [] then [] else Dedupe(StripEach(Split(tags, ' ')))
  }

  /** `_get_or_create(session, model, name=name)` on a name table. */
  function GetOrCreate(table: seq<string>, name: string): (t: seq<string>)
    ensures name in t
    ensures name in table ==> t == table
    ensures name !in table ==> t == table + [name]
  {
    if name in table then table else table + [name]
  }

  /** A name table after `_get_or_create` for each non-empty name, in order. */
  function AddNames(table: seq<string>, names: seq<string>): (t: seq<string>)
    ensures |table| <= |t| && t[..|table|] == table
    decreases |names|
  {
    if names == [] then table
    else
      var prev := AddNames(table, names[..|names| - 1]);
      var n := names[|names| - 1];
      if n == [] then prev else GetOrCreate(prev, n)
  }

  /** The `Image(...)` of a record; the `int(x) if x else 0` conversions leave an int as it is. */
  function NewImage(item: Item, artists: seq<string>, tags: seq<string>): (r: ImageRow)
    ensures r.postId == item.id && r.site == item.site && r.fileUrl == item.url
    ensures r.rating == item.rating && r.postedAt == item.createdAt
    ensures r.score == item.score && r.width == item.width && r.height == item.height
    ensures r.artists == artists && r.tags == tags
  {
    ImageRow(item.id, item.site, item.url, item.rating,
             if item.score != 0 then item.score else 0,
             if item.width != 0 then item.width else 0,
             if item.height != 0 then item.height else 0,
             item.createdAt, artists, tags)
  }

  /** One pass of the `save_items` loop on the session. */
  function AddItem(t: Tables, item: Item): (r: Tables)
    ensures HasImage(t.images, item.id, item.site) ==> r == t
    ensures !HasImage(t.images, item.id, item.site) ==>
      |r.images| == |t.images| + 1 && r.images[..|t.images|] == t.images &&
      r.images[|t.images|].postId == item.id && r.images[|t.images|].site == item.site
    ensures HasImage(r.images, item.id, item.site)
  {
    if HasImage(t.images, item.id, item.site) then t
    else
      var an := ArtistNames(item.artist);
      var tn := TagNames(item.tags);
      Tables(t.images + [NewImage(item, NonEmpty(an), NonEmpty(tn))], AddNames(t.tags, tn), AddNames(t.artists, an))
  }

  /** The session after the whole loop. */
  function Saved(t: Tables, items: seq<Item>): (r: Tables)
    ensures |t.images| <= |r.images| <= |t.images| + |items|
    ensures forall k :: 0 <= k < |items| ==> HasImage(r.images, items[k].id, items[k].site)
    decreases |items|
  {
    if items == [] then t else AddItem(Saved(t, items[..|items| - 1]), items[|items| - 1])
  }

  class DBManager {
    var db: Tables

    ghost predicate Valid()
      reads this
    {
      Consistent(db)
    }

    /** `DBManager(db_path)` on a database whose tables hold `db`. */
    constructor(db: Tables)
      requires Consistent(db)
      ensures this.db == db && Valid()
    {
      this.db := db;
    }

    /** The name loop of one record: `_get_or_create` for each non-empty name, collecting the
        rows the new image is linked to. */
    static method LinkNames(table: seq<string>, names: seq<string>) returns (t: seq<string>, linked: seq<string>)
      ensures t == AddNames(table, names) && linked == NonEmpty(names)
    {
      t := table;
      linked := [];
      var j := 0;
      while j < |names|
        invariant 0 <= j <= |names|
        invariant t == AddNames(table, names[..j]) && linked == NonEmpty(names[..j])
      {
        assert names[..j + 1][..j] == names[..j];
        NonEmptyAppend(names[..j], [names[j]]);
        assert names[..j + 1] == names[..j] + [names[j]];
        var name := names[j];
        if name != [] {
          t := GetOrCreate(t, name);
          linked := linked + [name];
        }
        j := j + 1;
      }
      assert names[..j] == names;
    }

    /** `save_items(image_items)`. Returns the number of images the call added: `new_count`
        when the commit succeeds, and 0 when it raises and the session is rolled back. */
    method SaveItems(items: seq<Item>, commitOk: bool) returns (newCount: nat)
      requires Valid()
      modifies this
      ensures Valid()
      ensures items == [] || !commitOk ==> db == old(db) && newCount == 0
      ensures items != [] && commitOk ==> db == Saved(old(db), items)
      ensures items != [] && commitOk ==> newCount == |db.images| - |old(db).images|
    {
      if items == [] {
        return 0;
      }
      var session := db;
      var added := 0;
      var i := 0;
      while i < |items|
        invariant 0 <= i <= |items|
        invariant db == old(db)
        invariant session == Saved(db, items[..i])
        invariant added == |session.images| - |db.images|
      {
        assert items[..i + 1][..i] == items[..i];
        SavedGrows(db, items[..i]);
        var item := items[i];
        if !HasImage(session.images, item.id, item.site) {
          var artistTable, artistLinks := LinkNames(session.artists, ArtistNames(item.artist));
          var tagTable, tagLinks := LinkNames(session.tags, TagNames(item.tags));
          session := Tables(session.images + [NewImage(item, artistLinks, tagLinks)], tagTable, artistTable);
          added := added + 1;
        }
        i := i + 1;
      }
      assert items[..i] == items;
      if !commitOk {
        return 0;
      }
      SavedConsistent(db, items);
      db := session;
      newCount := added;
    }
  }

  // ---------------------------------------------------------------- properties

  /** `_get_or_create` keeps names unique: at most one row per name. */
  lemma {:induction false} AddNamesUnique(table: seq<string>, names: seq<string>)
    requires NameTable(table)
    ensures NameTable(AddNames(table, names))
    ensures forall n :: n in AddNames(table, names) <==> n in table || (n in names && n != [])
    decreases |names|
  {
    if names != [] {
      var front := names[..|names| - 1];
      AddNamesUnique(table, front);
      assert forall n :: n in names <==> n in front || n == names[|names| - 1];
    }
  }

  /** A second `_get_or_create` of the same names creates nothing. */
  lemma {:induction false} AddNamesIdempotent(table: seq<string>, names: seq<string>)
    requires NameTable(table)
    ensures AddNames(AddNames(table, names), names) == AddNames(table, names)
  {
    AddNamesUnique(table, names);
    AddNamesPresent(AddNames(table, names), names);
  }

  /** Names that all have rows already leave the table as it is. */
  lemma {:induction false} AddNamesPresent(table: seq<string>, names: seq<string>)
    requires forall n :: n in names && n != [] ==> n in table
    ensures AddNames(table, names) == table
    decreases |names|
  {
    if names != [] {
      var front := names[..|names| - 1];
      assert forall n :: n in front ==> n in names;
      AddNamesPresent(table, front);
    }
  }

  /** The non-empty names of a record are among its names. */
  lemma NonEmptyMembers(names: seq<string>)
    ensures forall n :: n in NonEmpty(names) ==> n in names && n != []
  {
    forall n | n in NonEmpty(names) ensures n in names && n != [] {
      var k :| 0 <= k < |NonEmpty(names)| && NonEmpty(names)[k] == n;
    }
  }

  /** A new image row keeps `(post_id, site)` unique when no stored row has its key. */
  lemma UniqueKeysAppend(images: seq<ImageRow>, row: ImageRow)
    requires UniqueKeys(images) && !HasImage(images, row.postId, row.site)
    ensures UniqueKeys(images + [row])
  {
    var r := images + [row];
    forall i, j | 0 <= i < j < |r| ensures r[i].postId != r[j].postId || r[i].site != r[j].site {
      assert r[i] == images[i];
      if j < |images| {
        assert r[j] == images[j];
      }
    }
  }

  lemma AddItemConsistent(t: Tables, item: Item)
    requires Consistent(t)
    ensures Consistent(AddItem(t, item))
  {
    if !HasImage(t.images, item.id, item.site) {
      var an := ArtistNames(item.artist);
      var tn := TagNames(item.tags);
      AddNamesUnique(t.tags, tn);
      AddNamesUnique(t.artists, an);
      NonEmptyMembers(tn);
      NonEmptyMembers(an);
      var row := NewImage(item, NonEmpty(an), NonEmpty(tn));
      UniqueKeysAppend(t.images, row);
      TagsLinkedAppend(t.images, row, t.tags, AddNames(t.tags, tn));
      ArtistsLinkedAppend(t.images, row, t.artists, AddNames(t.artists, an));
    }
  }

  /** A new row whose tags all have rows in a grown table keeps the tag links. */
  lemma TagsLinkedAppend(images: seq<ImageRow>, row: ImageRow, table: seq<string>, grown: seq<string>)
    requires TagsLinked(images, table)
    requires forall n :: n in table ==> n in grown
    requires forall n :: n in row.tags ==> n in grown
    ensures TagsLinked(images + [row], grown)
  {
    var r := images + [row];
    forall k, n | 0 <= k < |r| && n in r[k].tags ensures n in grown {
      if k < |images| {
        assert r[k] == images[k];
      }
    }
  }

  /** A new row whose artists all have rows in a grown table keeps the artist links. */
  lemma ArtistsLinkedAppend(images: seq<ImageRow>, row: ImageRow, table: seq<string>, grown: seq<string>)
    requires ArtistsLinked(images, table)
    requires forall n :: n in table ==> n in grown
    requires forall n :: n in row.artists ==> n in grown
    ensures ArtistsLinked(images + [row], grown)
  {
    var r := images + [row];
    forall k, n | 0 <= k < |r| && n in r[k].artists ensures n in grown {
      if k < |images| {
        assert r[k] == images[k];
      }
    }
  }

  /** One record adds its key and no other. */
  lemma AddItemKeys(t: Tables, item: Item, postId: int, site: string)
    ensures HasImage(AddItem(t, item).images, postId, site) <==>
      HasImage(t.images, postId, site) || (item.id == postId && item.site == site)
  {
    var s := AddItem(t, item).images;
    if !HasImage(t.images, item.id, item.site) {
      var row := NewImage(item, NonEmpty(ArtistNames(item.artist)), NonEmpty(TagNames(item.tags)));
      assert s == t.images + [row];
      if HasImage(t.images, postId, site) {
        var k :| 0 <= k < |t.images| && t.images[k].postId == postId && t.images[k].site == site;
        assert s[k] == t.images[k];
      }
      if HasImage(s, postId, site) && !(item.id == postId && item.site == site) {
        var k :| 0 <= k < |s| && s[k].postId == postId && s[k].site == site;
        assert k < |t.images| && s[k] == t.images[k];
      }
      assert s[|t.images|] == row;
    }
  }

  /** Saving keeps the database invariants. */
  lemma {:induction false} SavedConsistent(t: Tables, items: seq<Item>)
    requires Consistent(t)
    ensures Consistent(Saved(t, items))
    decreases |items|
  {
    if items != [] {
      SavedConsistent(t, items[..|items| - 1]);
      AddItemConsistent(Saved(t, items[..|items| - 1]), items[|items| - 1]);
    }
  }

  /** Saving only appends: the old images stay in place and the name tables only grow. */
  lemma {:induction false} SavedGrows(t: Tables, items: seq<Item>)
    ensures var s := Saved(t, items);
      |t.images| <= |s.images| && s.images[..|t.images|] == t.images &&
      |t.tags| <= |s.tags| && s.tags[..|t.tags|] == t.tags &&
      |t.artists| <= |s.artists| && s.artists[..|t.artists|] == t.artists
    decreases |items|
  {
    if items != [] {
      var front := Saved(t, items[..|items| - 1]);
      SavedGrows(t, items[..|items| - 1]);
      var s := Saved(t, items);
      assert s.images[..|t.images|] == front.images[..|t.images|];
      assert s.tags[..|t.tags|] == front.tags[..|t.tags|];
      assert s.artists[..|t.artists|] == front.artists[..|t.artists|];
    }
  }

  /** After saving, an image is stored for `(post_id, site)` iff one was stored before or some
      record of the batch has that key. */
  lemma {:induction false} SavedKeys(t: Tables, items: seq<Item>, postId: int, site: string)
    ensures HasImage(Saved(t, items).images, postId, site) <==>
      HasImage(t.images, postId, site) || InBatch(items, postId, site)
    decreases |items|
  {
    if items != [] {
      var front := items[..|items| - 1];
      var last := items[|items| - 1];
      SavedKeys(t, front, postId, site);
      AddItemKeys(Saved(t, front), last, postId, site);
      InBatchSnoc(items, postId, site);
    }
  }

  /** Some record of the batch has the key `(post_id, site)`. */
  predicate InBatch(items: seq<Item>, postId: int, site: string) {
    exists k :: 0 <= k < |items| && items[k].id == postId && items[k].site == site
  }

  lemma InBatchSnoc(items: seq<Item>, postId: int, site: string)
    requires items != []
    ensures InBatch(items, postId, site) <==>
      InBatch(items[..|items| - 1], postId, site) ||
      (items[|items| - 1].id == postId && items[|items| - 1].site == site)
  {
    var front := items[..|items| - 1];
    if InBatch(items, postId, site) {
      var k :| 0 <= k < |items| && items[k].id == postId && items[k].site == site;
      if k < |front| {
        assert front[k] == items[k];
      }
    }
    if InBatch(front, postId, site) {
      var k :| 0 <= k < |front| && front[k].id == postId && front[k].site == site;
      assert items[k] == front[k];
    }
  }

  /** A batch whose every `(post_id, site)` is already stored adds nothing. */
  lemma {:induction false} SavedAllPresent(t: Tables, items: seq<Item>)
    requires forall k :: 0 <= k < |items| ==> HasImage(t.images, items[k].id, items[k].site)
    ensures Saved(t, items) == t
    decreases |items|
  {
    if items != [] {
      SavedAllPresent(t, items[..|items| - 1]);
    }
  }

  /** Saving two batches one after the other is saving their concatenation. */
  lemma {:induction false} SavedAppend(t: Tables, a: seq<Item>, b: seq<Item>)
    ensures Saved(Saved(t, a), b) == Saved(t, a + b)
    decreases |b|
  {
    if b == [] {
      assert a + b == a;
    } else {
      var b' := b[..|b| - 1];
      assert (a + b)[..|a + b| - 1] == a + b';
      SavedAppend(t, a, b');
    }
  }

  /** Saving the same batch twice adds nothing the second time. */
  lemma SavedIdempotent(t: Tables, items: seq<Item>)
    ensures Saved(Saved(t, items), items) == Saved(t, items)
  {
    forall k | 0 <= k < |items|
      ensures HasImage(Saved(t, items).images, items[k].id, items[k].site)
    {
      SavedKeys(t, items, items[k].id, items[k].site);
      assert InBatch(items, items[k].id, items[k].site);
    }
    SavedAllPresent(Saved(t, items), items);
  }

  /** The artists of a record without an artist are "Unknown"; otherwise they are the distinct
      non-empty stripped pieces of its `,`-separated artist field. */
  lemma ArtistLinks(artist: string)
    ensures artist == [] ==> NonEmpty(ArtistNames(artist)) == [UNKNOWN]
    ensures artist != [] ==>
      forall n :: n in NonEmpty(ArtistNames(artist)) <==> n in StripEach(Split(artist, ',')) && n != []
  {
    if artist != [] {
      var r := NonEmpty(ArtistNames(artist));
      forall n | n in r ensures n in StripEach(Split(artist, ',')) && n != [] {
        var k :| 0 <= k < |r| && r[k] == n;
      }
    }
  }
}
