/**
 * core/downloader.py: `Downloader`, the batch image downloader. The media file system is a
 * `MediaFs` object mapping a directory path to the names of the files in it. The HTTP answer
 * for a record is an `HttpOutcome` the caller supplies (a function of the record), so the
 * network is a parameter. The concurrent tasks of `asyncio.gather` are run one after another:
 * each writes only its own file name into the directory, so the final state and the results
 * do not depend on the order.
 */
module Download {
  import opened PyStr
  import opened Models
  import opened Seqs

  /** The folder choice of `Downloader.__init__`; semaphore, proxy and headers are not modelled. */
  datatype Downloader = Downloader(savePath: string, subFolder: string, saveDir: string)

  function MakeDownloader(savePath: string, artist: string, tags: string): (d: Downloader)
    ensures d.savePath == savePath
    ensures artist != [] ==> d.subFolder == artist
    ensures artist == [] ==> d.subFolder == tags
    ensures d.saveDir == PathJoin(savePath, d.subFolder)
  {
    var sub := if artist != [] then artist else tags;
    Downloader(savePath, sub, PathJoin(savePath, sub))
  }

  /** What one GET does: a response with a status whose body either streams to the end or breaks
      off with an exception (`complete`), or an exception before any response arrives. */
  datatype HttpOutcome = Response(status: int, complete: bool) | NetError

  /** A status of 200 opens (creates or truncates) the target file before the body streams in. */
  predicate OpensFile(o: HttpOutcome) {
    o.Response? && o.status == 200
  }

  /** `_download_one` returns True only when the whole body of a 200 response was written. */
  predicate Succeeds(o: HttpOutcome) {
    o.Response? && o.status == 200 && o.complete
  }

  class MediaFs {
    var dirs: map<string, set<string>>

    constructor(dirs: map<string, set<string>>)
      ensures this.dirs == dirs
    {
      this.dirs := dirs;
    }

    /** `os.listdir(dir)` of an existing directory, and nothing for a missing one. */
    function Listing(dir: string): set<string>
      reads this
    {
      if dir in dirs then dirs[dir] else {}
    }

    /** `if not os.path.exists(dir): os.makedirs(dir)`. */
    method MakeDirs(dir: string)
      modifies this
      ensures dir in dirs && dirs[dir] == old(Listing(dir))
      ensures dirs == if dir in old(dirs) then old(dirs) else old(dirs)[dir := {}]
    {
      if dir !in dirs {
        dirs := dirs[dir := {}];
      }
    }

    /** One download into `dir/name` with the given outcome: the file exists afterwards iff the
        response was a 200 (a body that breaks off leaves a partial file), and the result is
        True iff the body was written in full. No exception escapes. */
    method Fetch(dir: string, name: string, o: HttpOutcome) returns (ok: bool)
      requires dir in dirs
      modifies this
      ensures ok <==> Succeeds(o)
      ensures dirs == old(dirs)[dir := old(dirs)[dir] + (if OpensFile(o) then {name} else {})]
    {
      if o.Response? && o.status == 200 {
        dirs := dirs[dir := dirs[dir] + {name}];
        ok := o.complete;
      } else {
        assert dirs[dir] + {} == dirs[dir];
        assert dirs[dir := dirs[dir]] == dirs;
        ok := false;
      }
    }
  }

  /** One scheduled download: the record and the file path it is saved to. */
  datatype Task = Task(item: Item, path: string)

  /** A record is downloaded when it has a URL and its file name is not in the listing. */
  function Wanted(item: Item, existing: set<string>): (b: bool)
    ensures b ==> item.url != []
    ensures existing == {} ==> (b <==> item.url != [])
  {
    item.url != [] && Filename(item) !in existing
  }

  /** `tasks_data`: the wanted records, in input order, each with `save_dir/filename`. */
  function Scheduled(items: seq<Item>, existing: set<string>, dir: string): (ts: seq<Task>)
    ensures |ts| <= |items|
    ensures forall k :: 0 <= k < |ts| ==> Wanted(ts[k].item, existing)
    ensures forall k :: 0 <= k < |ts| ==> ts[k].path == PathJoin(dir, Filename(ts[k].item))
    ensures forall k :: 0 <= k < |ts| ==> ts[k].item in items
    decreases |items|
  {
    if items == [] then []
    else
      var front := Scheduled(items[..|items| - 1], existing, dir);
      var last := items[|items| - 1];
      assert forall x :: x in items[..|items| - 1] ==> x in items;
      if Wanted(last, existing) then front + [Task(last, PathJoin(dir, Filename(last)))] else front
  }

  /** The records of `items` without a URL. */
  function CountNoUrl(items: seq<Item>): nat
    decreases |items|
  {
    if items == [] then 0
    else CountNoUrl(items[..|items| - 1]) + (if items[|items| - 1].url == [] then 1 else 0)
  }

  /** The records of `items` with a URL whose file is already in the listing. */
  function CountOnDisk(items: seq<Item>, existing: set<string>): nat
    decreases |items|
  {
    if items == [] then 0
    else
      var last := items[|items| - 1];
      CountOnDisk(items[..|items| - 1], existing) + (if last.url != [] && Filename(last) in existing then 1 else 0)
  }

  /** The `_download_one` results of the tasks, in task order: what `gather` returns. */
  function Outcomes(ts: seq<Task>, fetch: Item -> HttpOutcome): (r: seq<bool>)
    ensures |r| == |ts|
    ensures forall k :: 0 <= k < |ts| ==> (r[k] <==> Succeeds(fetch(ts[k].item)))
    decreases |ts|
  {
    if ts == [] then []
    else Outcomes(ts[..|ts| - 1], fetch) + [Succeeds(fetch(ts[|ts| - 1].item))]
  }

  /** The file names the tasks leave on disk: those of the 200 responses. */
  function Written(ts: seq<Task>, fetch: Item -> HttpOutcome): set<string>
    decreases |ts|
  {
    if ts == [] then {}
    else
      var t := ts[|ts| - 1];
      Written(ts[..|ts| - 1], fetch) + (if OpensFile(fetch(t.item)) then {Filename(t.item)} else {})
  }

  /** One more task adds the name of its file when the response opened it. */
  lemma WrittenSnoc(ts: seq<Task>, i: nat, fetch: Item -> HttpOutcome)
    requires i < |ts|
    ensures Written(ts[..i + 1], fetch) ==
      Written(ts[..i], fetch) + (if OpensFile(fetch(ts[i].item)) then {Filename(ts[i].item)} else {})
  {
    assert ts[..i + 1][..i] == ts[..i];
  }

  /** One more task appends its own result. */
  lemma OutcomesSnoc(ts: seq<Task>, i: nat, fetch: Item -> HttpOutcome)
    requires i < |ts|
    ensures Outcomes(ts[..i + 1], fetch) == Outcomes(ts[..i], fetch) + [Succeeds(fetch(ts[i].item))]
  {
    assert ts[..i + 1][..i] == ts[..i];
  }

  /** The selection loop of `_download_batch`. */
  method SelectTasks(items: seq<Item>, existing: set<string>, dir: string) returns (ts: seq<Task>)
    ensures ts == Scheduled(items, existing, dir)
  {
    ts := [];
    var i := 0;
    while i < |items|
      invariant 0 <= i <= |items|
      invariant ts == Scheduled(items[..i], existing, dir)
    {
      assert items[..i + 1][..i] == items[..i];
      var item := items[i];
      if item.url != [] && Filename(item) !in existing {
        ts := ts + [Task(item, PathJoin(dir, Filename(item)))];
      }
      i := i + 1;
    }
    assert items[..i] == items;
  }

  /** The downloads of `asyncio.gather(*tasks)`, one task after another: the results in task
      order, and the directory gains the names of the files the tasks wrote. */
  method RunTasks(fs: MediaFs, dir: string, ts: seq<Task>, fetch: Item -> HttpOutcome)
    returns (results: seq<bool>)
    requires dir in fs.dirs
    modifies fs
    ensures results == Outcomes(ts, fetch)
    ensures fs.dirs == old(fs.dirs)[dir := old(fs.dirs)[dir] + Written(ts, fetch)]
  {
    ghost var dirs0 := fs.dirs;
    assert Written([], fetch) == {};
    assert dirs0[dir] + {} == dirs0[dir];
    assert dirs0[dir := dirs0[dir]] == dirs0;
    results := [];
    var i := 0;
    while i < |ts|
      invariant 0 <= i <= |ts|
      invariant results == Outcomes(ts[..i], fetch)
      invariant fs.dirs == dirs0[dir := dirs0[dir] + Written(ts[..i], fetch)]
    {
      var t := ts[i];
      var name := Filename(t.item);
      ghost var added := if OpensFile(fetch(t.item)) then {name} else {};
      WrittenSnoc(ts, i, fetch);
      var ok := fs.Fetch(dir, name, fetch(t.item));
      GrowListing(dirs0[dir], Written(ts[..i], fetch), added, Written(ts[..i + 1], fetch));
      OutcomesSnoc(ts, i, fetch);
      results := results + [ok];
      i := i + 1;
    }
    assert ts[..i] == ts;
  }

  /** Adding a step's names to a listing that already holds the earlier steps' names gives the
      listing with all of them. */
  lemma GrowListing<T>(existing: set<T>, earlier: set<T>, step: set<T>, all: set<T>)
    requires all == earlier + step
    ensures existing + earlier + step == existing + all
  {
  }

  /** After `makedirs`, giving the directory a new listing forgets whether it existed before. */
  lemma OverwriteListing(dirs0: map<string, set<string>>, dirs1: map<string, set<string>>, dir: string, names: set<string>)
    requires dirs1 == if dir in dirs0 then dirs0 else dirs0[dir := {}]
    ensures dirs1[dir := names] == dirs0[dir := names]
    ensures dir in dirs1 && dirs1[dir] == names ==> dirs1 == dirs0[dir := names]
  {
  }

  /** `_download_batch(image_items)`, returning what it reports: the tasks, the skip count and
      the success count. An empty input returns at once. */
  method DownloadBatch(fs: MediaFs, d: Downloader, items: seq<Item>, fetch: Item -> HttpOutcome)
    returns (ts: seq<Task>, skip: int, success: nat)
    modifies fs
    ensures items == [] ==> fs.dirs == old(fs.dirs) && ts == [] && skip == 0 && success == 0
    ensures items != [] ==> ts == Scheduled(items, old(fs.Listing(d.saveDir)), d.saveDir)
    ensures items != [] ==> skip == |items| - |ts|
    ensures success == CountTrue(Outcomes(ts, fetch))
    ensures items != [] ==>
      fs.dirs == old(fs.dirs)[d.saveDir := old(fs.Listing(d.saveDir)) + Written(ts, fetch)]
  {
    if items == [] {
      return [], 0, 0;
    }
    ghost var dirs0 := fs.dirs;
    fs.MakeDirs(d.saveDir);
    var existing := fs.dirs[d.saveDir];
    ts := SelectTasks(items, existing, d.saveDir);
    skip := |items| - |ts|;
    if ts == [] {
      assert existing + Written(ts, fetch) == existing;
      OverwriteListing(dirs0, fs.dirs, d.saveDir, existing);
      return ts, skip, 0;
    }
    OverwriteListing(dirs0, fs.dirs, d.saveDir, existing + Written(ts, fetch));
    var results := RunTasks(fs, d.saveDir, ts, fetch);
    success := CountTrue(results);
  }

  // ---------------------------------------------------------------- properties

  /** Selection distributes over concatenation: the tasks keep the input order. */
  lemma {:induction false} ScheduledAppend(a: seq<Item>, b: seq<Item>, existing: set<string>, dir: string)
    ensures Scheduled(a + b, existing, dir) == Scheduled(a, existing, dir) + Scheduled(b, existing, dir)
    decreases |b|
  {
    if b != [] {
      var b' := b[..|b| - 1];
      assert (a + b)[..|a + b| - 1] == a + b';
      ScheduledAppend(a, b', existing, dir);
    } else {
      assert a + b == a;
    }
  }

  /** Every wanted input record is scheduled. */
  lemma {:induction false} ScheduledComplete(items: seq<Item>, existing: set<string>, dir: string, i: nat)
    requires i < |items| && Wanted(items[i], existing)
    ensures Task(items[i], PathJoin(dir, Filename(items[i]))) in Scheduled(items, existing, dir)
    decreases |items|
  {
    if i < |items| - 1 {
      ScheduledComplete(items[..|items| - 1], existing, dir, i);
    }
  }

  /** The skip count lumps together the records without a URL and those already on disk. */
  lemma {:induction false} SkipCount(items: seq<Item>, existing: set<string>, dir: string)
    ensures |items| - |Scheduled(items, existing, dir)| == CountNoUrl(items) + CountOnDisk(items, existing)
    decreases |items|
  {
    if items != [] {
      SkipCount(items[..|items| - 1], existing, dir);
    }
  }

  /** The file names left on disk are exactly those of the tasks answered with a 200. */
  lemma {:induction false} WrittenIff(ts: seq<Task>, fetch: Item -> HttpOutcome, name: string)
    ensures name in Written(ts, fetch) <==>
      exists k :: 0 <= k < |ts| && OpensFile(fetch(ts[k].item)) && Filename(ts[k].item) == name
    decreases |ts|
  {
    if ts != [] {
      var front := ts[..|ts| - 1];
      WrittenIff(front, fetch, name);
      if name in Written(front, fetch) {
        var k :| 0 <= k < |front| && OpensFile(fetch(front[k].item)) && Filename(front[k].item) == name;
        assert ts[k] == front[k];
      }
      if exists k :: 0 <= k < |ts| && OpensFile(fetch(ts[k].item)) && Filename(ts[k].item) == name {
        var k :| 0 <= k < |ts| && OpensFile(fetch(ts[k].item)) && Filename(ts[k].item) == name;
        if k < |ts| - 1 {
          assert front[k] == ts[k];
        }
      }
    }
  }

  /** The tasks whose file name is not in `names`, in order. */
  function Pending(ts: seq<Task>, names: set<string>): (r: seq<Task>)
    ensures |r| <= |ts|
    decreases |ts|
  {
    if ts == [] then []
    else
      var front := Pending(ts[..|ts| - 1], names);
      var t := ts[|ts| - 1];
      if Filename(t.item) in names then front else front + [t]
  }

  /** A second run over the same records schedules exactly the first run's tasks whose file
      names were not written: a file left by a 200 response, even one cut short, is never
      fetched again, and a record once skipped stays skipped. */
  lemma {:induction false} RerunSchedulesRest(items: seq<Item>, existing: set<string>, dir: string, written: set<string>)
    ensures Scheduled(items, existing + written, dir) == Pending(Scheduled(items, existing, dir), written)
    decreases |items|
  {
    if items != [] {
      var front := items[..|items| - 1];
      RerunSchedulesRest(front, existing, dir, written);
      var ts := Scheduled(items, existing, dir);
      var fts := Scheduled(front, existing, dir);
      if Wanted(items[|items| - 1], existing) {
        assert ts[..|ts| - 1] == fts;
      }
    }
  }
}
