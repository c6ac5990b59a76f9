/**
 * tools/csv_to_db.py: rebuilding records from the summary CSV and importing them into the
 * database sink in batches of 1000. A CSV record is the map from column name to cell text
 * after `fillna('')`; reading the file is not modelled.
 */
module CsvToDb {
  import opened Wrappers
  import opened PyStr
  import opened Seqs
  import opened Models
  import opened Database

  const BATCH_SIZE: nat := 1000

  /** The columns the importer reads, by their header names. */
  datatype Column = Id | Site | Posted | Artist | Rating | Score | Size | FileUrl | Tags

  /** One CSV line: the text of each column the file has. */
  type CsvRecord = map<Column, string>

  /** `str(row.get(key, default))`. */
  function Cell(rec: CsvRecord, key: Column, default: string): string {
    if key in rec then rec[key] else default
  }

  /** `int(row.get(key, 0))`: the default is the integer 0 itself. */
  function IntCell(rec: CsvRecord, key: Column): (r: Option<int>)
    ensures key !in rec ==> r == Some(0)
    ensures key in rec ==> r == ParseInt(rec[key])
  {
    if key in rec then ParseInt(rec[key]) else Some(0)
  }

  /** The size parse: no `x` gives 0x0; otherwise the parts around the first `x`, where a width
      that does not parse leaves both 0 and a height that does not parse leaves only it 0. */
  function ParseSize(size: string): (r: (int, int))
    ensures 'x' !in size ==> r == (0, 0)
    ensures 'x' in size ==>
      var parts := SplitOnce(size, 'x');
      match ParseInt(parts.0)
      case None => r == (0, 0)
      case Some(w) => r == (w, ParseInt(parts.1).GetOr(0))
  {
    if 'x' !in size then (0, 0)
    else
      var parts := SplitOnce(size, 'x');
      match ParseInt(parts.0)
      case None => (0, 0)
      case Some(w) =>
        match ParseInt(parts.1)
        case None => (w, 0)
        case Some(h) => (w, h)
  }

  /** One loop iteration of `import_csv_to_db`: the rebuilt record, or None when the `Id` cell
      does not parse (the row is skipped). */
  function ParseRecord(rec: CsvRecord): (r: Option<Item>)
    ensures r.Some? <==> IntCell(rec, Id).Some?
  {
    var size := ParseSize(Cell(rec, Size, ""));
    match IntCell(rec, Id)
    case None => None
    case Some(id) =>
      var score := IntCell(rec, Score).GetOr(0);
      Some(Item(id, Cell(rec, FileUrl, ""), Cell(rec, Rating, ""), Cell(rec, Tags, ""),
                size.0, size.1, "", Cell(rec, Posted, ""), score, Cell(rec, Site, UNKNOWN), "",
                Cell(rec, Artist, UNKNOWN)))
  }

  /** The fields of a rebuilt record: the parsed id, the score (0 when it does not parse), the
      parsed size, the text columns with their defaults, and no source or extension override. */
  lemma RecordFields(rec: CsvRecord)
    requires IntCell(rec, Id).Some?
    ensures var it := ParseRecord(rec).value;
      it.id == IntCell(rec, Id).value && it.score == IntCell(rec, Score).GetOr(0) &&
      (it.width, it.height) == ParseSize(Cell(rec, Size, "")) &&
      it.site == Cell(rec, Site, UNKNOWN) && it.artist == Cell(rec, Artist, UNKNOWN) &&
      it.createdAt == Cell(rec, Posted, "") && it.rating == Cell(rec, Rating, "") &&
      it.url == Cell(rec, FileUrl, "") && it.tags == Cell(rec, Tags, "") &&
      it.source == "" && it.explicitExt == ""
  {
  }

  /** `items_to_save`: the rebuilt records, in CSV order, skipping those without a valid id. */
  function Imported(records: seq<CsvRecord>): (items: seq<Item>)
    ensures |items| <= |records|
    decreases |records|
  {
    if records == [] then []
    else
      var front := Imported(records[..|records| - 1]);
      match ParseRecord(records[|records| - 1])
      case None => front
      case Some(item) => front + [item]
  }

  /** The record loop of `import_csv_to_db`. */
  method ImportRecords(records: seq<CsvRecord>) returns (items: seq<Item>)
    ensures items == Imported(records)
  {
    items := [];
    var i := 0;
    while i < |records|
      invariant 0 <= i <= |records|
      invariant items == Imported(records[..i])
    {
      assert records[..i + 1][..i] == records[..i];
      var parsed := ParseRecord(records[i]);
      if parsed.Some? {
        items := items + [parsed.value];
      }
      i := i + 1;
    }
    assert records[..i] == records;
  }

  /** `items[i : i + 1000]` for `i` in `range(0, len(items), 1000)`: the items cut into batches
      of `BATCH_SIZE`, the last one shorter. */
  function Batches(items: seq<Item>): seq<seq<Item>>
    decreases |items|
  {
    if items == [] then []
    else if |items| <= BATCH_SIZE then [items]
    else [items[..BATCH_SIZE]] + Batches(items[BATCH_SIZE..])
  }

  /** The tables after saving `batches` in turn when batch `k` commits exactly when
      `commitOk(k)`: a batch whose commit raises is rolled back and the loop goes on. */
  function SavedBatches(t: Tables, batches: seq<seq<Item>>, commitOk: nat -> bool): Tables
    decreases |batches|
  {
    if batches == [] then t
    else
      var front := SavedBatches(t, batches[..|batches| - 1], commitOk);
      if commitOk(|batches| - 1) then Saved(front, batches[|batches| - 1]) else front
  }

  /** The batch loop: each batch saved with `save_items`, the batches saved returned. Whether
      the commit of batch `k` succeeds is `commitOk(k)`. */
  method ImportBatches(mgr: DBManager, items: seq<Item>, commitOk: nat -> bool) returns (batches: seq<seq<Item>>)
    requires mgr.Valid()
    modifies mgr
    ensures mgr.Valid()
    ensures batches == Batches(items)
    ensures mgr.db == SavedBatches(old(mgr.db), batches, commitOk)
  {
    batches := [];
    var i := 0;
    while i < |items|
      invariant 0 <= i <= |items|
      invariant mgr.Valid()
      invariant batches + Batches(items[i..]) == Batches(items)
      invariant mgr.db == SavedBatches(old(mgr.db), batches, commitOk)
      decreases |items| - i
    {
      var end := if i + BATCH_SIZE <= |items| then i + BATCH_SIZE else |items|;
      var batch := items[i..end];
      BatchesStep(items, i, end);
      AppendAssoc(batches, [batch], Batches(items[end..]));
      var _ := mgr.SaveItems(batch, commitOk(|batches|));
      assert (batches + [batch])[..|batches|] == batches;
      batches := batches + [batch];
      i := end;
    }
    assert items[i..] == [];
  }

  /** `import_csv_to_db()` after the file is read: rebuild the records, then import them. */
  method ImportCsvToDb(mgr: DBManager, records: seq<CsvRecord>, commitOk: nat -> bool) returns (items: seq<Item>)
    requires mgr.Valid()
    modifies mgr
    ensures mgr.Valid()
    ensures items == Imported(records)
    ensures mgr.db == SavedBatches(old(mgr.db), Batches(items), commitOk)
  {
    items := ImportRecords(records);
    var _ := ImportBatches(mgr, items, commitOk);
  }

  // ---------------------------------------------------------------- properties

  /** One turn of the batch loop takes the next `BATCH_SIZE` items, or all that remain. */
  lemma BatchesStep(items: seq<Item>, i: nat, end: nat)
    requires i < |items| && end == if i + BATCH_SIZE <= |items| then i + BATCH_SIZE else |items|
    ensures items[i..end] != []
    ensures Batches(items[i..]) == [items[i..end]] + Batches(items[end..])
  {
    var rest, k := items[i..], end - i;
    BatchesFirst(rest);
    SliceOfSuffix(items, i, k);
  }

  /** `Batches` cuts off its first batch. */
  lemma BatchesFirst(rest: seq<Item>)
    requires rest != []
    ensures var k := if BATCH_SIZE <= |rest| then BATCH_SIZE else |rest|;
      Batches(rest) == [rest[..k]] + Batches(rest[k..])
  {
    if |rest| <= BATCH_SIZE {
      assert rest[..|rest|] == rest;
      assert rest[|rest|..] == [];
    }
  }

  /** When every commit succeeds, saving the batches in turn is saving them all at once. */
  lemma {:induction false} SavedBatchesAll(t: Tables, batches: seq<seq<Item>>, commitOk: nat -> bool)
    requires forall k :: commitOk(k)
    ensures SavedBatches(t, batches, commitOk) == Saved(t, Flatten(batches))
    decreases |batches|
  {
    if batches != [] {
      var front, last := batches[..|batches| - 1], batches[|batches| - 1];
      SavedBatchesAll(t, front, commitOk);
      assert commitOk(|batches| - 1);
      assert SavedBatches(t, batches, commitOk) == Saved(SavedBatches(t, front, commitOk), last);
      assert front + [last] == batches;
      FlattenAppend(front, last);
      SavedAppend(t, Flatten(front), last);
    }
  }

  /** When every commit fails, the import leaves the tables as they were. */
  lemma {:induction false} SavedBatchesNone(t: Tables, batches: seq<seq<Item>>, commitOk: nat -> bool)
    requires forall k :: !commitOk(k)
    ensures SavedBatches(t, batches, commitOk) == t
    decreases |batches|
  {
    if batches != [] {
      SavedBatchesNone(t, batches[..|batches| - 1], commitOk);
    }
  }

  /** With every commit succeeding, the batched import saves exactly the imported records. */
  lemma ImportAllCommitted(t: Tables, items: seq<Item>, commitOk: nat -> bool)
    requires forall k :: commitOk(k)
    ensures SavedBatches(t, Batches(items), commitOk) == Saved(t, items)
  {
    SavedBatchesAll(t, Batches(items), commitOk);
    BatchesFlatten(items);
  }

  /** Every item is imported exactly once and in order: the batches put together are the items. */
  lemma {:induction false} BatchesFlatten(items: seq<Item>)
    ensures Flatten(Batches(items)) == items
    decreases |items|
  {
    if |items| > BATCH_SIZE {
      var b := Batches(items);
      assert b[1..] == Batches(items[BATCH_SIZE..]);
      BatchesFlatten(items[BATCH_SIZE..]);
      assert items == items[..BATCH_SIZE] + items[BATCH_SIZE..];
    } else if items != [] {
      assert Batches(items)[1..] == [];
    }
  }

  /** No batch is empty or larger than `BATCH_SIZE`, and every batch but the last is full. */
  lemma {:induction false} BatchesSizes(items: seq<Item>)
    ensures forall k :: 0 <= k < |Batches(items)| ==> 0 < |Batches(items)[k]| <= BATCH_SIZE
    ensures forall k :: 0 <= k < |Batches(items)| - 1 ==> |Batches(items)[k]| == BATCH_SIZE
    decreases |items|
  {
    if |items| > BATCH_SIZE {
      var b := Batches(items);
      var tail := Batches(items[BATCH_SIZE..]);
      BatchesSizes(items[BATCH_SIZE..]);
      assert forall k :: 1 <= k < |b| ==> b[k] == tail[k - 1];
    }
  }

  /** As many batches as `range(0, len(items), 1000)` has values. */
  lemma {:induction false} BatchesCount(items: seq<Item>)
    ensures |Batches(items)| == (|items| + BATCH_SIZE - 1) / BATCH_SIZE
    decreases |items|
  {
    if |items| > BATCH_SIZE {
      BatchesCount(items[BATCH_SIZE..]);
    }
  }

  const Columns: set<Column> := {Id, Site, Posted, Artist, Rating, Score, Size, FileUrl, Tags}

  /** The text a summary CSV line holds in one column. */
  function CellOf(row: CsvRow, c: Column): string {
    match c
    case Id => IntToString(row.id)
    case Site => row.site
    case Posted => row.posted
    case Artist => row.artist
    case Rating => row.rating
    case Score => IntToString(row.score)
    case Size => row.size
    case FileUrl => row.fileUrl
    case Tags => row.tags
  }

  /** The cells of a summary CSV line, every column present. */
  function Cells(row: CsvRow): (rec: CsvRecord)
    ensures forall c :: c in rec <==> c in Columns
  {
    map c | c in Columns :: CellOf(row, c)
  }

  /** The size text the CSV sink writes parses back to the same width and height. */
  lemma ParseSizeRoundTrip(w: int, h: int)
    ensures ParseSize(SizeText(w, h)) == (w, h)
  {
    IntToStringLacks(w, 'x');
    BeforeOf(IntToString(w), 'x', IntToString(h));
    assert SizeText(w, h) == IntToString(w) + ['x'] + IntToString(h);
    IntRoundTrip(w);
    IntRoundTrip(h);
  }

  /** A record written by the CSV sink is rebuilt with the same fields; only the extension
      override and the source are lost, and the artist is the column's value. */
  lemma RecordRoundTrip(item: Item, artist: string)
    ensures ParseRecord(Cells(ToRow(item, artist))) ==
      Some(item.(source := "", explicitExt := "", artist := if artist != [] then artist else UNKNOWN))
  {
    var row := ToRow(item, artist);
    var rec := Cells(row);
    IntRoundTrip(item.id);
    IntRoundTrip(item.score);
    ParseSizeRoundTrip(item.width, item.height);
    assert IntCell(rec, Id) == Some(item.id);
    assert IntCell(rec, Score) == Some(item.score);
    assert Cell(rec, Size, "") == SizeText(item.width, item.height);
    RecordFields(rec);
    var it := ParseRecord(rec).value;
    var expected := item.(source := "", explicitExt := "", artist := if artist != [] then artist else UNKNOWN);
    assert it.id == expected.id && it.score == expected.score;
    assert it.width == expected.width && it.height == expected.height;
    assert it.site == expected.site && it.artist == expected.artist;
    assert it.createdAt == expected.createdAt && it.rating == expected.rating;
    assert it.url == expected.url && it.tags == expected.tags;
  }

  /** A record without an `Id` column is kept with id 0; one whose `Id` is not a number is not. */
  lemma MissingIdIsZero(rec: CsvRecord)
    requires Id !in rec
    ensures ParseRecord(rec).Some? && ParseRecord(rec).value.id == 0
  {
  }

  /** No record is lost when every `Id` cell parses. */
  lemma {:induction false} ImportedAll(records: seq<CsvRecord>)
    requires forall j :: 0 <= j < |records| ==> IntCell(records[j], Id).Some?
    ensures |Imported(records)| == |records|
    decreases |records|
  {
    if records != [] {
      ImportedAll(records[..|records| - 1]);
    }
  }

  /** A record is skipped exactly when its `Id` cell is not a number: the one-record import. */
  lemma ImportedOne(rec: CsvRecord)
    ensures Imported([rec]) == if IntCell(rec, Id).Some? then [ParseRecord(rec).value] else []
  {
    assert [rec][..0] == [];
  }

  /** Importing a CSV in two parts rebuilds the same records as importing it whole. */
  lemma {:induction false} ImportedAppend(a: seq<CsvRecord>, b: seq<CsvRecord>)
    ensures Imported(a + b) == Imported(a) + Imported(b)
    decreases |b|
  {
    if b == [] {
      assert a + b == a;
    } else {
      var b' := b[..|b| - 1];
      assert (a + b)[..|a + b| - 1] == a + b';
      ImportedAppend(a, b');
    }
  }
}
