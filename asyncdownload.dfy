/**
 * async_download.py: the older script's downloader. It works on the row dicts of
 * `main.parser`, drops the rows whose id is already on disk and those without a URL, and
 * downloads the rest into one folder. The folder is a parameter (the configured output path
 * joined with the configured name); the media file system and the HTTP answers are those of
 * core/downloader.py's model, with an answer chosen by URL.
 */
module AsyncDownload {
  import opened Wrappers
  import opened PyStr
  import opened Json
  import opened Seqs
  import opened MainScript
  import opened Download

  /** The text before the first `.` of a file name, as `int()` reads it. */
  function StemId(name: string): (r: Option<int>)
    ensures '.' !in name ==> r == ParseInt(name)
    ensures '.' in name ==> r == ParseInt(name[..|Before(name, '.')|])
  {
    ParseInt(Before(name, '.'))
  }

  /** `set([int(name.split('.')[0]) for name in os.listdir(save_dir)])`: a `ValueError` as soon
      as one name does not start with an integer. */
  function ListedIds(listing: set<string>): (r: Result<set<int>>)
    ensures r.Ok? <==> forall n :: n in listing ==> StemId(n).Some?
    ensures r.Ok? ==> forall n :: n in listing ==> StemId(n).value in r.value
    ensures r.Ok? ==> forall i :: i in r.value ==> exists n :: n in listing && StemId(n) == Some(i)
  {
    if forall n :: n in listing ==> StemId(n).Some? then
      Ok(set n | n in listing :: StemId(n).value)
    else Raises("ValueError")
  }

  /** `img_id in existing_ids` for a set of ints: `True` hashes and compares as 1 and `False` as
      0; a list or dict id cannot be hashed and raises `TypeError`; anything else is absent. */
  function IdListed(id: Json, ids: set<int>): (r: Result<bool>)
    ensures r.Raises? <==> id.JList? || id.JObj?
    ensures id.JInt? ==> r == Ok(id.i in ids)
  {
    match id
    case JInt(i) => Ok(i in ids)
    case JBool(b) => Ok((if b then 1 else 0) in ids)
    case JList(_) => Raises("TypeError")
    case JObj(_) => Raises("TypeError")
    case _ => Ok(false)
  }

  predicate Hashable(id: Json) {
    !id.JList? && !id.JObj?
  }

  predicate Listed(row: Row, ids: set<int>)
    requires Hashable(row.id)
  {
    IdListed(row.id, ids) == Ok(true)
  }

  /** The rows whose id is on disk (`del_list` of the first pass), in order. */
  function ListedRows(rows: seq<Row>, ids: set<int>): (r: seq<Row>)
    requires forall k :: 0 <= k < |rows| ==> Hashable(rows[k].id)
    ensures |r| <= |rows|
    ensures forall x :: x in r <==> x in rows && Listed(x, ids)
    decreases |rows|
  {
    if rows == [] then []
    else
      var front := ListedRows(rows[..|rows| - 1], ids);
      var last := rows[|rows| - 1];
      assert forall x :: x in rows <==> x in rows[..|rows| - 1] || x == last;
      if Listed(last, ids) then front + [last] else front
  }

  /** One more hashable row extends the listed rows by itself when its id is on disk. */
  lemma ListedRowsSnoc(rows: seq<Row>, i: nat, ids: set<int>)
    requires i < |rows| && forall k :: 0 <= k <= i ==> Hashable(rows[k].id)
    ensures ListedRows(rows[..i + 1], ids) ==
      ListedRows(rows[..i], ids) + (if Listed(rows[i], ids) then [rows[i]] else [])
  {
    assert rows[..i + 1][..i] == rows[..i];
  }

  /** The rows whose id is not on disk, in order. */
  function UnlistedRows(rows: seq<Row>, ids: set<int>): (r: seq<Row>)
    requires forall k :: 0 <= k < |rows| ==> Hashable(rows[k].id)
    ensures |r| <= |rows|
    ensures forall x :: x in r <==> x in rows && !Listed(x, ids)
    decreases |rows|
  {
    if rows == [] then []
    else
      var front := UnlistedRows(rows[..|rows| - 1], ids);
      var last := rows[|rows| - 1];
      assert forall x :: x in rows <==> x in rows[..|rows| - 1] || x == last;
      if Listed(last, ids) then front else front + [last]
  }

  /** `[item for item in data_list if item not in del_list]`. */
  function Without(rows: seq<Row>, del: seq<Row>): (r: seq<Row>)
    ensures |r| <= |rows|
    ensures forall x :: x in r <==> x in rows && x !in del
    decreases |rows|
  {
    if rows == [] then []
    else
      var front := Without(rows[..|rows| - 1], del);
      var last := rows[|rows| - 1];
      assert forall x :: x in rows <==> x in rows[..|rows| - 1] || x == last;
      if last in del then front else front + [last]
  }

  /** The rows without a truthy `File_URL`, in order. */
  function UrlLess(rows: seq<Row>): (r: seq<Row>)
    decreases |rows|
  {
    if rows == [] then []
    else
      var front := UrlLess(rows[..|rows| - 1]);
      var last := rows[|rows| - 1];
      if Truthy(last.fileUrl) then front else front + [last]
  }

  /** The ids of `rows`, in order (`urless_ids`). */
  function Ids(rows: seq<Row>): (r: seq<Json>)
    ensures |r| == |rows|
    ensures forall k :: 0 <= k < |rows| ==> r[k] == rows[k].id
  {
    seq(|rows|, k requires 0 <= k < |rows| => rows[k].id)
  }

  /** `os.path.splitext(img_url)[-1] or ".jpg"`: the suffix as it stands, query and letter case
      included. */
  function AsyncExt(url: string): (e: string)
    ensures SplitExt(url).1 != [] ==> e == SplitExt(url).1
    ensures SplitExt(url).1 == [] ==> e == ".jpg"
    ensures |e| > 0 && e[0] == '.'
  {
    var suffix := SplitExt(url).1;
    if suffix != [] then suffix else ".jpg"
  }

  /** One download of the script: the URL, the file name `f"{img_id}{ext}"` and its path. */
  datatype Job = Job(url: string, name: string, path: string)

  function JobFor(row: Row, dir: string): (job: Job)
    requires row.fileUrl.JStr?
    ensures job.url == row.fileUrl.s && job.path == PathJoin(dir, job.name)
    ensures StartsWith(job.name, Format(row.id))
    ensures job.name[|Format(row.id)|..] == AsyncExt(row.fileUrl.s)
  {
    var name := Format(row.id) + AsyncExt(row.fileUrl.s);
    Job(row.fileUrl.s, name, PathJoin(dir, name))
  }

  /** Every row has a string URL exactly when all but the last do and the last does. */
  lemma UrlsSnoc(rows: seq<Row>, init: seq<Row>)
    requires rows != [] && init == rows[..|rows| - 1]
    ensures (forall k :: 0 <= k < |rows| ==> rows[k].fileUrl.JStr?) <==>
      (forall k :: 0 <= k < |init| ==> init[k].fileUrl.JStr?) && rows[|rows| - 1].fileUrl.JStr?
  {
    assert forall k :: 0 <= k < |init| ==> init[k] == rows[k];
  }

  /** The jobs of the download loop, in row order; a truthy URL that is not a string makes
      `splitext` raise `TypeError`. */
  function Jobs(rows: seq<Row>, dir: string): (r: Result<seq<Job>>)
    ensures r.Ok? <==> forall k :: 0 <= k < |rows| ==> rows[k].fileUrl.JStr?
    ensures r.Ok? ==> |r.value| == |rows|
    decreases |rows|
  {
    if rows == [] then Ok([])
    else
      var front := Jobs(rows[..|rows| - 1], dir);
      var last := rows[|rows| - 1];
      UrlsSnoc(rows, rows[..|rows| - 1]);
      if front.Raises? then front
      else if !last.fileUrl.JStr? then Raises("TypeError")
      else Ok(front.value + [JobFor(last, dir)])
  }

  /** `download_one` results, in job order. */
  function JobResults(jobs: seq<Job>, fetch: string -> HttpOutcome): (r: seq<bool>)
    ensures |r| == |jobs|
    ensures forall k :: 0 <= k < |jobs| ==> (r[k] <==> Succeeds(fetch(jobs[k].url)))
    decreases |jobs|
  {
    if jobs == [] then []
    else JobResults(jobs[..|jobs| - 1], fetch) + [Succeeds(fetch(jobs[|jobs| - 1].url))]
  }

  /** The file names the jobs leave on disk. */
  function JobFiles(jobs: seq<Job>, fetch: string -> HttpOutcome): set<string>
    decreases |jobs|
  {
    if jobs == [] then {}
    else
      var j := jobs[|jobs| - 1];
      JobFiles(jobs[..|jobs| - 1], fetch) + (if OpensFile(fetch(j.url)) then {j.name} else {})
  }

  /** What a run reports: the duplicate count, the ids without a URL, the jobs and the number
      of successful downloads. */
  datatype Report = Report(duplicates: nat, urlLess: seq<Json>, jobs: seq<Job>, success: nat)

  /** The first filtering pass: the rows whose id is on disk, or a `TypeError`. */
  method FindListed(rows: seq<Row>, ids: set<int>) returns (r: Result<seq<Row>>)
    ensures r.Raises? <==> exists k :: 0 <= k < |rows| && !Hashable(rows[k].id)
    ensures r.Ok? ==> r.value == ListedRows(rows, ids)
  {
    var del: seq<Row> := [];
    var i := 0;
    while i < |rows|
      invariant 0 <= i <= |rows|
      invariant forall k :: 0 <= k < i ==> Hashable(rows[k].id)
      invariant del == ListedRows(rows[..i], ids)
    {
      var found := IdListed(rows[i].id, ids);
      if found.Raises? {
        return Raises(found.reason);
      }
      ListedRowsSnoc(rows, i, ids);
      if found.value {
        del := del + [rows[i]];
      }
      i := i + 1;
    }
    assert rows[..i] == rows;
    return Ok(del);
  }

  /** The second filtering pass: the rows without a URL. */
  method FindUrlLess(rows: seq<Row>) returns (del: seq<Row>, urlLess: seq<Json>)
    ensures del == UrlLess(rows) && urlLess == Ids(UrlLess(rows))
  {
    del := [];
    urlLess := [];
    var i := 0;
    while i < |rows|
      invariant 0 <= i <= |rows|
      invariant del == UrlLess(rows[..i]) && urlLess == Ids(del)
    {
      assert rows[..i + 1][..i] == rows[..i];
      if !Truthy(rows[i].fileUrl) {
        urlLess := urlLess + [rows[i].id];
        del := del + [rows[i]];
      }
      i := i + 1;
    }
    assert rows[..i] == rows;
  }

  /** The task loop: one job per remaining row. */
  method MakeJobs(rows: seq<Row>, dir: string) returns (r: Result<seq<Job>>)
    ensures r == Jobs(rows, dir)
  {
    var jobs: seq<Job> := [];
    var i := 0;
    while i < |rows|
      invariant 0 <= i <= |rows|
      invariant Jobs(rows[..i], dir) == Ok(jobs)
    {
      assert rows[..i + 1][..i] == rows[..i];
      if !rows[i].fileUrl.JStr? {
        JobsPrefixRaises(rows, dir, i + 1);
        return Raises("TypeError");
      }
      jobs := jobs + [JobFor(rows[i], dir)];
      i := i + 1;
    }
    assert rows[..i] == rows;
    return Ok(jobs);
  }

  /** One more job appends its result and adds its file when the response opened it. */
  lemma JobsSnoc(jobs: seq<Job>, i: nat, fetch: string -> HttpOutcome)
    requires i < |jobs|
    ensures JobResults(jobs[..i + 1], fetch) == JobResults(jobs[..i], fetch) + [Succeeds(fetch(jobs[i].url))]
    ensures JobFiles(jobs[..i + 1], fetch) ==
      JobFiles(jobs[..i], fetch) + (if OpensFile(fetch(jobs[i].url)) then {jobs[i].name} else {})
  {
    assert jobs[..i + 1][..i] == jobs[..i];
  }

  /** `asyncio.gather` over the jobs, one after another. */
  method RunJobs(fs: MediaFs, dir: string, jobs: seq<Job>, fetch: string -> HttpOutcome)
    returns (results: seq<bool>)
    requires dir in fs.dirs
    modifies fs
    ensures results == JobResults(jobs, fetch)
    ensures fs.dirs == old(fs.dirs)[dir := old(fs.dirs)[dir] + JobFiles(jobs, fetch)]
  {
    ghost var dirs0 := fs.dirs;
    assert JobFiles([], fetch) == {};
    assert dirs0[dir] + {} == dirs0[dir];
    assert dirs0[dir := dirs0[dir]] == dirs0;
    results := [];
    var i := 0;
    while i < |jobs|
      invariant 0 <= i <= |jobs|
      invariant results == JobResults(jobs[..i], fetch)
      invariant fs.dirs == dirs0[dir := dirs0[dir] + JobFiles(jobs[..i], fetch)]
    {
      var j := jobs[i];
      ghost var added := if OpensFile(fetch(j.url)) then {j.name} else {};
      JobsSnoc(jobs, i, fetch);
      var ok := fs.Fetch(dir, j.name, fetch(j.url));
      GrowListing(dirs0[dir], JobFiles(jobs[..i], fetch), added, JobFiles(jobs[..i + 1], fetch));
      results := results + [ok];
      i := i + 1;
    }
    assert jobs[..i] == jobs;
  }

  /** What a run decides before downloading: the duplicate count, the ids without a URL and the
      jobs, or the exception that ends it. */
  datatype Plan = Plan(duplicates: nat, urlLess: seq<Json>, jobs: seq<Job>)

  function Planned(listing: set<string>, rows: seq<Row>, dir: string): (r: Result<Plan>)
    ensures ListedIds(listing).Raises? ==> r == Raises("ValueError")
    ensures ListedIds(listing).Ok? && (exists k :: 0 <= k < |rows| && !Hashable(rows[k].id)) ==> r == Raises("TypeError")
    ensures r.Ok? ==> r.value.duplicates <= |rows| && |r.value.jobs| <= |rows|
  {
    var listed := ListedIds(listing);
    if listed.Raises? then Raises(listed.reason)
    else if exists k :: 0 <= k < |rows| && !Hashable(rows[k].id) then Raises("TypeError")
    else
      var del := ListedRows(rows, listed.value);
      var kept := Without(rows, del);
      var urlLess := UrlLess(kept);
      var jobs := Jobs(Without(kept, urlLess), dir);
      if jobs.Raises? then Raises(jobs.reason) else Ok(Plan(|del|, Ids(urlLess), jobs.value))
  }

  /** The two filtering passes and the task loop over a listing of the folder. */
  method PlanRun(listing: set<string>, rows: seq<Row>, dir: string) returns (r: Result<Plan>)
    ensures r == Planned(listing, rows, dir)
  {
    var listed := ListedIds(listing);
    if listed.Raises? {
      return Raises(listed.reason);
    }
    var ids := listed.value;
    var found := FindListed(rows, ids);
    if found.Raises? {
      return Raises("TypeError");
    }
    var kept := Without(rows, found.value);
    var dup := |found.value|;
    var del, urlLess := FindUrlLess(kept);
    kept := Without(kept, del);
    if kept == [] {
      assert Jobs(kept, dir) == Ok([]);
      return Ok(Plan(dup, urlLess, []));
    }
    var jobs := MakeJobs(kept, dir);
    if jobs.Raises? {
      return Raises(jobs.reason);
    }
    return Ok(Plan(dup, urlLess, jobs.value));
  }

  /** `download_imgs_async(data_list)` for the folder `saveDir`. An empty input returns before
      anything is done; otherwise the folder is created, and a name on disk that does not start
      with an integer, an unhashable id or a URL that is not a string raises. */
  method DownloadImgs(fs: MediaFs, rows: seq<Row>, saveDir: string, fetch: string -> HttpOutcome)
    returns (r: Result<Report>)
    modifies fs
    ensures rows == [] ==> fs.dirs == old(fs.dirs) && r == Ok(Report(0, [], [], 0))
    ensures rows != [] ==> (r.Raises? <==> Planned(old(fs.Listing(saveDir)), rows, saveDir).Raises?)
    ensures rows != [] && r.Ok? ==>
      var plan := Planned(old(fs.Listing(saveDir)), rows, saveDir).value;
      r.value == Report(plan.duplicates, plan.urlLess, plan.jobs, CountTrue(JobResults(plan.jobs, fetch)))
    ensures rows != [] ==>
      fs.dirs == old(fs.dirs)[saveDir := old(fs.Listing(saveDir)) + (if r.Ok? then JobFiles(r.value.jobs, fetch) else {})]
  {
    if rows == [] {
      return Ok(Report(0, [], [], 0));
    }
    ghost var dirs0 := fs.dirs;
    fs.MakeDirs(saveDir);
    var existing := fs.dirs[saveDir];
    assert existing + {} == existing;
    OverwriteListing(dirs0, fs.dirs, saveDir, existing);
    var plan := PlanRun(existing, rows, saveDir);
    if plan.Raises? {
      return Raises(plan.reason);
    }
    var p := plan.value;
    if p.jobs == [] {
      assert JobFiles([], fetch) == {};
      return Ok(Report(p.duplicates, p.urlLess, [], 0));
    }
    OverwriteListing(dirs0, fs.dirs, saveDir, existing + JobFiles(p.jobs, fetch));
    var results := RunJobs(fs, saveDir, p.jobs, fetch);
    return Ok(Report(p.duplicates, p.urlLess, p.jobs, CountTrue(results)));
  }

  // ---------------------------------------------------------------- properties

  /** The k-th job is the one of the k-th remaining row. */
  lemma {:induction false} JobsAt(rows: seq<Row>, dir: string, k: nat)
    requires Jobs(rows, dir).Ok? && k < |rows|
    ensures rows[k].fileUrl.JStr? && Jobs(rows, dir).value[k] == JobFor(rows[k], dir)
    decreases |rows|
  {
    if k < |rows| - 1 {
      JobsAt(rows[..|rows| - 1], dir, k);
    }
  }

  lemma {:induction false} JobsPrefixRaises(rows: seq<Row>, dir: string, n: nat)
    requires n <= |rows| && Jobs(rows[..n], dir).Raises?
    ensures Jobs(rows, dir) == Jobs(rows[..n], dir)
    decreases |rows| - n
  {
    if n < |rows| {
      assert rows[..n + 1][..n] == rows[..n];
      JobsPrefixRaises(rows, dir, n + 1);
    } else {
      assert rows[..n] == rows;
    }
  }

  /** Removing the listed rows by equality keeps exactly the unlisted rows, in order, and the
      duplicate count is the number of rows removed. */
  lemma {:induction false} DuplicatesRemoved(rows: seq<Row>, ids: set<int>)
    requires forall k :: 0 <= k < |rows| ==> Hashable(rows[k].id)
    ensures Without(rows, ListedRows(rows, ids)) == UnlistedRows(rows, ids)
    ensures |ListedRows(rows, ids)| == |rows| - |UnlistedRows(rows, ids)|
  {
    WithoutListed(rows, ids, ListedRows(rows, ids));
    ListedSplit(rows, ids);
  }

  lemma {:induction false} WithoutListed(rows: seq<Row>, ids: set<int>, del: seq<Row>)
    requires forall k :: 0 <= k < |rows| ==> Hashable(rows[k].id)
    requires forall k :: 0 <= k < |rows| ==> (rows[k] in del <==> Listed(rows[k], ids))
    ensures Without(rows, del) == UnlistedRows(rows, ids)
    decreases |rows|
  {
    if rows != [] {
      WithoutListed(rows[..|rows| - 1], ids, del);
    }
  }

  lemma {:induction false} ListedSplit(rows: seq<Row>, ids: set<int>)
    requires forall k :: 0 <= k < |rows| ==> Hashable(rows[k].id)
    ensures |ListedRows(rows, ids)| + |UnlistedRows(rows, ids)| == |rows|
    decreases |rows|
  {
    if rows != [] {
      ListedSplit(rows[..|rows| - 1], ids);
    }
  }

  /** A run that does not raise counts as duplicates exactly the rows whose id is on disk, and
      makes one job for each remaining row with a truthy URL, in row order. */
  lemma PlannedRows(listing: set<string>, rows: seq<Row>, dir: string)
    requires Planned(listing, rows, dir).Ok?
    ensures ListedIds(listing).Ok? && forall k :: 0 <= k < |rows| ==> Hashable(rows[k].id)
    ensures var ids := ListedIds(listing).value;
      var unlisted := UnlistedRows(rows, ids);
      var rest := Without(unlisted, UrlLess(unlisted));
      var plan := Planned(listing, rows, dir).value;
      plan.duplicates == |rows| - |unlisted| &&
      plan.urlLess == Ids(UrlLess(unlisted)) &&
      Jobs(rest, dir) == Ok(plan.jobs) &&
      (forall x :: x in rest <==> x in rows && !Listed(x, ids) && Truthy(x.fileUrl))
  {
    var ids := ListedIds(listing).value;
    DuplicatesRemoved(rows, ids);
    UrlLessRemoved(UnlistedRows(rows, ids));
  }

  /** The second pass keeps exactly the rows with a truthy URL, in order. */
  lemma {:induction false} UrlLessRemoved(rows: seq<Row>)
    ensures forall x :: x in Without(rows, UrlLess(rows)) <==> x in rows && Truthy(x.fileUrl)
    ensures forall k :: 0 <= k < |UrlLess(rows)| ==> !Truthy(UrlLess(rows)[k].fileUrl)
    ensures |UrlLess(rows)| <= |rows|
  {
    UrlLessMembers(rows);
  }

  lemma {:induction false} UrlLessMembers(rows: seq<Row>)
    ensures forall x :: x in UrlLess(rows) <==> x in rows && !Truthy(x.fileUrl)
    ensures |UrlLess(rows)| <= |rows|
    decreases |rows|
  {
    if rows != [] {
      var front := rows[..|rows| - 1];
      UrlLessMembers(front);
      assert forall x :: x in rows <==> x in front || x == rows[|rows| - 1];
    }
  }

  /** A file the script wrote for an integer id is read back as that id on the next run, so the
      row is counted as a duplicate and not downloaded again. */
  lemma WrittenNameListed(i: int, url: string)
    ensures StemId(IntToString(i) + AsyncExt(url)) == Some(i)
  {
    IntToStringLacks(i, '.');
    StemOf(IntToString(i), AsyncExt(url));
    IntRoundTrip(i);
  }

  /** The suffix is kept as written: no lower-casing and no query stripping, unlike
      `ImageItem.extension`. */
  lemma SuffixKept(dir: string, stem: string, ext: string)
    requires stem != [] && '.' !in stem && '/' !in stem
    requires ext != [] && ext[0] == '.' && '.' !in ext[1..] && '/' !in ext
    ensures AsyncExt(dir + stem + ext) == ext
  {
    SplitExtOf(dir, stem, ext);
  }
}
