/**
 * core/storage.py: `DataManager`, the incremental CSV sink. The file system is a `Disk` object
 * mapping a path to the file's content: whether its first line is a header, and its rows. An
 * explicit path argument of None is the empty string.
 */
module Storage {
  import opened Wrappers
  import opened PyStr
  import opened Models

  const SUMMARY_NAME: string := "datas.csv"

  /** A CSV file of records; `header` says whether it begins with the column names. */
  datatype CsvFile = CsvFile(header: bool, rows: seq<CsvRow>)

  class Disk {
    var files: map<string, CsvFile>

    constructor(files: map<string, CsvFile>)
      ensures this.files == files
    {
      this.files := files;
    }
  }

  /** The key a record is deduplicated by: `str(item.id)`. */
  function Key(item: Item): string {
    IntToString(item.id)
  }

  /** The `Id` column of a file, read back as text. */
  function IdsOf(rows: seq<CsvRow>): (ids: set<string>)
    ensures forall k :: 0 <= k < |rows| ==> IntToString(rows[k].id) in ids
    ensures forall s :: s in ids ==> exists k :: 0 <= k < |rows| && s == IntToString(rows[k].id)
  {
    set k | 0 <= k < |rows| :: IntToString(rows[k].id)
  }

  /** The id set `_load_existing_ids` ends with when reading `path`: the file's ids when it
      exists and has the `Id` header; otherwise `fallback` (the file is missing or unreadable). */
  function LoadedIds(files: map<string, CsvFile>, path: string, fallback: set<string>): (ids: set<string>)
    ensures path in files && files[path].header ==>
      forall k :: 0 <= k < |files[path].rows| ==> IntToString(files[path].rows[k].id) in ids
    ensures path in files && files[path].header ==>
      forall s :: s in ids ==> exists k :: 0 <= k < |files[path].rows| && s == IntToString(files[path].rows[k].id)
    ensures !(path in files && files[path].header) ==> ids == fallback
  {
    if path in files && files[path].header then IdsOf(files[path].rows) else fallback
  }

  /** `"{artist}.csv"`, or the tags with spaces turned into `_` when there is no artist. */
  function TargetFile(artist: string, tags: string): (name: string)
    ensures artist != [] ==> name == artist + ".csv"
    ensures artist == [] ==> name == ReplaceChar(tags, ' ', '_') + ".csv" && ' ' !in name
  {
    var base := if artist != [] then artist else ReplaceChar(tags, ' ', '_');
    base + ".csv"
  }

  /** The rows `_write_to_csv` writes for `items`. */
  function Rows(items: seq<Item>, artist: string): (rows: seq<CsvRow>)
    ensures |rows| == |items|
    ensures forall k :: 0 <= k < |items| ==> rows[k] == ToRow(items[k], artist)
  {
    seq(|items|, k requires 0 <= k < |items| => ToRow(items[k], artist))
  }

  /** The file system after appending `rows` to `path` with `to_csv(mode='a')`: a header only
      when the file did not exist. */
  function Appended(files: map<string, CsvFile>, path: string, rows: seq<CsvRow>): (r: map<string, CsvFile>)
    ensures r.Keys == files.Keys + {path}
    ensures forall p :: p in files && p != path ==> r[p] == files[p]
    ensures path !in files ==> r[path] == CsvFile(true, rows)
    ensures path in files ==> r[path] == CsvFile(files[path].header, files[path].rows + rows)
  {
    if path in files then files[path := CsvFile(files[path].header, files[path].rows + rows)]
    else files[path := CsvFile(true, rows)]
  }

  /** The filter loop of both sinks: the records whose key is not yet in `seen`, each kept at
      its first occurrence, and the set of keys afterwards. */
  function Dedup(items: seq<Item>, seen: set<string>): (r: (seq<Item>, set<string>))
    ensures |r.0| <= |items|
    decreases |items|
  {
    if items == [] then ([], seen)
    else
      var prev := Dedup(items[..|items| - 1], seen);
      var item := items[|items| - 1];
      if Key(item) in prev.1 then prev else (prev.0 + [item], prev.1 + {Key(item)})
  }

  class DataManager {
    var filePath: string
    var existingIds: set<string>
    const artist: string
    const tags: string

    constructor(filePath: string, artist: string, tags: string)
      ensures this.filePath == filePath && existingIds == {}
      ensures this.artist == artist && this.tags == tags
    {
      this.filePath := filePath;
      this.existingIds := {};
      this.artist := artist;
      this.tags := tags;
    }

    /** `_makeup_filepath()`: joins the target file name onto the current path, every call. */
    method MakeupFilepath()
      modifies this
      ensures filePath == PathJoin(old(filePath), TargetFile(artist, tags))
      ensures existingIds == old(existingIds)
    {
      filePath := PathJoin(filePath, TargetFile(artist, tags));
    }

    /** `_load_existing_ids(file_path)`. With an explicit path the set is emptied first and the
        path is kept; otherwise the target path is made up first and a missing or unreadable file
        leaves the set as it was. */
    method LoadExistingIds(disk: Disk, explicitPath: string)
      modifies this
      ensures explicitPath != [] ==> filePath == old(filePath)
      ensures explicitPath != [] ==> existingIds == LoadedIds(disk.files, explicitPath, {})
      ensures explicitPath == [] ==> filePath == PathJoin(old(filePath), TargetFile(artist, tags))
      ensures explicitPath == [] ==> existingIds == LoadedIds(disk.files, filePath, old(existingIds))
    {
      var target;
      if explicitPath != [] {
        target := explicitPath;
        existingIds := {};
      } else {
        MakeupFilepath();
        target := filePath;
      }
      if target !in disk.files {
        return;
      }
      if !disk.files[target].header {
        return;
      }
      existingIds := IdsOf(disk.files[target].rows);
    }

    /** The filter loop shared by both sinks: keep the records whose key is unseen, adding each
        kept key to `existingIds`. */
    method FilterNew(items: seq<Item>) returns (newItems: seq<Item>)
      modifies this
      ensures (newItems, existingIds) == Dedup(items, old(existingIds))
      ensures filePath == old(filePath)
    {
      newItems := [];
      ghost var seen0 := existingIds;
      var i := 0;
      while i < |items|
        invariant 0 <= i <= |items|
        invariant (newItems, existingIds) == Dedup(items[..i], seen0)
        invariant filePath == old(filePath)
      {
        assert items[..i + 1][..i] == items[..i];
        var key := IntToString(items[i].id);
        if key !in existingIds {
          newItems := newItems + [items[i]];
          existingIds := existingIds + {key};
        }
        i := i + 1;
      }
      assert items[..i] == items;
    }

    /** `_write_to_csv(items, path)`: append the rows, with the header only for a new file.
        `writeOk` is whether `to_csv` succeeds; its exception is caught and reported, and the
        file is left as it was. */
    method WriteToCsv(disk: Disk, items: seq<Item>, path: string, writeOk: bool)
      modifies disk
      ensures writeOk ==> disk.files == Appended(old(disk.files), path, Rows(items, artist))
      ensures !writeOk ==> disk.files == old(disk.files)
    {
      if writeOk {
        disk.files := Appended(disk.files, path, Rows(items, artist));
      }
    }

    /** `save_as_csv(image_items)`: append the records not yet in the per-target file. */
    method SaveAsCsv(disk: Disk, items: seq<Item>, writeOk: bool)
      requires disk != this as object
      modifies this, disk
      ensures items == [] ==> filePath == old(filePath) && existingIds == old(existingIds)
      ensures items == [] ==> disk.files == old(disk.files)
      ensures items != [] ==> filePath == PathJoin(old(filePath), TargetFile(artist, tags))
      ensures items != [] ==>
        var d := Dedup(items, LoadedIds(old(disk.files), filePath, old(existingIds)));
        existingIds == d.1 &&
        disk.files == if d.0 == [] || !writeOk then old(disk.files) else Appended(old(disk.files), filePath, Rows(d.0, artist))
    {
      if items == [] {
        return;
      }
      LoadExistingIds(disk, "");
      var newItems := FilterNew(items);
      if newItems == [] {
        return;
      }
      WriteToCsv(disk, newItems, filePath, writeOk);
    }

    /** `save_to_summary_csv(image_items)`: append the records not yet in `datas.csv`, next to
        the current path, deduplicating against that file's own ids. */
    method SaveToSummaryCsv(disk: Disk, items: seq<Item>, writeOk: bool)
      requires disk != this as object
      modifies this, disk
      ensures filePath == old(filePath)
      ensures items == [] ==> existingIds == old(existingIds) && disk.files == old(disk.files)
      ensures items != [] ==>
        var summary := PathJoin(Dirname(filePath), SUMMARY_NAME);
        var d := Dedup(items, LoadedIds(old(disk.files), summary, {}));
        existingIds == d.1 &&
        disk.files == if d.0 == [] || !writeOk then old(disk.files) else Appended(old(disk.files), summary, Rows(d.0, artist))
    {
      if items == [] {
        return;
      }
      var summary := PathJoin(Dirname(filePath), SUMMARY_NAME);
      LoadExistingIds(disk, summary);
      var newItems := FilterNew(items);
      if newItems == [] {
        return;
      }
      WriteToCsv(disk, newItems, summary, writeOk);
    }
  }

  // ---------------------------------------------------------------- properties

  function Keys(items: seq<Item>): set<string> {
    set k | 0 <= k < |items| :: Key(items[k])
  }

  /** After the filter the key set is the loaded keys plus the key of every input record. */
  lemma {:induction false} DedupSeen(items: seq<Item>, seen: set<string>)
    ensures Dedup(items, seen).1 == seen + Keys(items)
    decreases |items|
  {
    if items != [] {
      var front := items[..|items| - 1];
      DedupSeen(front, seen);
      assert Keys(items) == Keys(front) + {Key(items[|items| - 1])} by {
        forall s | s in Keys(items) ensures s in Keys(front) + {Key(items[|items| - 1])} {
          var k :| 0 <= k < |items| && s == Key(items[k]);
          if k < |items| - 1 {
            assert s == Key(front[k]);
          }
        }
        forall s | s in Keys(front) ensures s in Keys(items) {
          var k :| 0 <= k < |front| && s == Key(front[k]);
          assert s == Key(items[k]);
        }
      }
    }
  }

  /** The kept records have pairwise distinct keys, none of them previously seen, and each is an
      input record. */
  lemma {:induction false} DedupFresh(items: seq<Item>, seen: set<string>)
    ensures var kept := Dedup(items, seen).0;
      (forall i, j :: 0 <= i < j < |kept| ==> Key(kept[i]) != Key(kept[j])) &&
      (forall i :: 0 <= i < |kept| ==> Key(kept[i]) !in seen) &&
      (forall i :: 0 <= i < |kept| ==> kept[i] in items)
    decreases |items|
  {
    if items != [] {
      var front := items[..|items| - 1];
      DedupFresh(front, seen);
      DedupKeptKeys(front, seen);
      assert forall x :: x in front ==> x in items;
    }
  }

  /** The keys of the kept records are among the keys collected. */
  lemma {:induction false} DedupKeptKeys(items: seq<Item>, seen: set<string>)
    ensures forall i :: 0 <= i < |Dedup(items, seen).0| ==> Key(Dedup(items, seen).0[i]) in Dedup(items, seen).1
    ensures seen <= Dedup(items, seen).1
    decreases |items|
  {
    if items != [] {
      DedupKeptKeys(items[..|items| - 1], seen);
    }
  }

  /** Every record whose key is unseen and does not occur earlier in the input is kept. */
  lemma {:induction false} DedupKeepsFirst(items: seq<Item>, seen: set<string>, i: nat)
    requires i < |items|
    requires Key(items[i]) !in seen
    requires forall j :: 0 <= j < i ==> Key(items[j]) != Key(items[i])
    ensures items[i] in Dedup(items, seen).0
    decreases |items|
  {
    var front := items[..|items| - 1];
    if i < |items| - 1 {
      DedupKeepsFirst(front, seen, i);
    } else {
      DedupSeen(front, seen);
      forall k | 0 <= k < |front| ensures Key(front[k]) != Key(items[i]) {
        assert front[k] == items[k];
      }
    }
  }

  /** Nothing is kept when every key has been seen; in particular a second run of the filter
      over the same records keeps nothing. */
  lemma {:induction false} DedupAllSeen(items: seq<Item>, seen: set<string>)
    requires Keys(items) <= seen
    ensures Dedup(items, seen).0 == []
    ensures Dedup(items, seen).1 == seen
    decreases |items|
  {
    if items != [] {
      var front := items[..|items| - 1];
      assert Keys(front) <= Keys(items) by {
        forall s | s in Keys(front) ensures s in Keys(items) {
          var k :| 0 <= k < |front| && s == Key(front[k]);
          assert s == Key(items[k]);
        }
      }
      DedupAllSeen(front, seen);
      assert Key(items[|items| - 1]) in Keys(items);
    }
  }

  lemma DedupIdempotent(items: seq<Item>, seen: set<string>)
    ensures Dedup(items, Dedup(items, seen).1).0 == []
  {
    DedupSeen(items, seen);
    DedupAllSeen(items, Dedup(items, seen).1);
  }

  /** After one `_makeup_filepath` on a directory path, the summary file lies in that same
      directory. */
  lemma SummaryBesideTarget(dir: string, name: string)
    requires dir != [] && dir[|dir| - 1] != '/'
    requires name != [] && '/' !in name
    ensures Dirname(PathJoin(dir, name)) == dir
  {
    var p := PathJoin(dir, name);
    assert p == dir + "/" + name;
    RFindAt(p, '/', |dir|);
    var head := p[..|dir| + 1];
    assert head == dir + "/";
    assert head[|dir| - 1] != '/';
    assert RStrip(head, {'/'}) == RStrip(dir, {'/'});
  }
}
