# BooruCrawler, modelled in Dafny

BooruCrawler collects image metadata from two image boards, Danbooru and Gelbooru. It pages
through a board's JSON API and turns each raw post into a normalised `ImageItem`. It
assigns artists from a local roster and saves the records in two places: a per-search CSV file
beside a cumulative summary `datas.csv`, and a SQLite gallery with `images`, `tags` and
`artists` tables. It then downloads the media files into a folder, skipping the ones already
on disk. A migration tool re-imports the summary CSV into the database. Two older scripts,
`main.py` and `async_download.py`, do the same for Gelbooru alone, using dictionaries instead
of records.

The Dafny project has one module per source file. Pure code becomes functions and lemmas. Code
that changes state becomes classes and methods with loops:

- `Models`: the `ImageItem` record (`Item`), its extension, filename, video and explicit tests,
  and its CSV row.
- `Board`: the shared crawler base class, `assemble_tags` and the paging loop `fetch_posts`.
  The site adapters are dispatched by a `Site` tag.
- `Danbooru` and `Gelbooru`: the two adapters, covering safe names, sort strings, request
  parameters, envelope parsing, count extraction and post normalisation.
- `Storage`: `DataManager` on an in-memory `Disk` of CSV files.
- `Roster`: `ArtistRoster`, with its set of names and the lines of its file.
- `Download`: `Downloader` and a `MediaFs` directory listing.
- `Database`: `DBManager` on three in-memory tables.
- `Utils`: `clean_tag` and the word-cloud text.
- `CsvToDb`, `AsyncDownload` and `MainScript` model `tools/csv_to_db.py`, `async_download.py`
  and `main.py`.
- Helper modules: `Wrappers` (Option/Result), `Json` (a decoded JSON value with Python
  truthiness and `int()`), `PyStr` (Python `str` methods, `str(int)`/`int(str)` and POSIX
  `os.path`), and `Seqs`.

Network answers, directory listings and file contents are parameters. A crawl receives the
sequence of page responses; a download receives a function from item to HTTP outcome. The
database and the file system are values held in the fields of the classes that change them.

## Model

| member | source | states |
|---|---|---|
| Models.NewItem | core/models.py:5-20 | a new record carries the dataclass defaults: empty source, creation time and site, score 0, no explicit extension, artist "Unknown" |
| Models.UrlExtension | core/models.py:30-38 | the extension is the `splitext` suffix cut before its first `?` and lower-cased when that is non-empty, and ".jpg" otherwise; either way it starts with a dot and has no upper-case letter, `?` or `/` |
| Models.Extension | core/models.py:22-38 | an explicit extension wins; otherwise, with a URL, the URL's extension; ".jpg" without URL |
| Models.UrlExtensionOfFile | core/models.py:30-36 | a URL whose last component is a dot-free stem, one dot-led suffix and an optional `?` query has that suffix, lower-cased, as extension |
| Models.UrlExtensionFallback | core/models.py:30-38 | a URL whose last component has no dot gets ".jpg", however many dots the rest of the URL holds |
| Models.IsVideo | core/models.py:48-51 | a record without explicit extension and URL is not a video; with an explicit extension it is a video exactly when that is .mp4, .webm or .gif |
| Models.IsExplicit | core/models.py:53-57 | the ratings "explicit", "e" and "sx" are explicit; an empty rating is not |
| Models.SizeText | core/models.py:71 | the size text is the width's decimal text, `x`, then the height's: the text before the `x` is the width |
| Models.ToRow | core/models.py:59-79 | the CSV row copies id, site, posted, rating, score, URL and tags, has size "WxH", and has artist "Unknown" unless a non-empty artist is given |
| Models.ExampleFilename | core/models.py:40-46 | id 9 with URL `https://x/9.jpg?v=2` has extension ".jpg" and filename "9.jpg" |
| Models.FilenameStem | core/models.py:40-46 | without an explicit extension, the filename's text before the first dot is the decimal id, and `int()` of it gives the id back |
| Models.FilenamesDistinct | core/models.py:40-46 | distinct ids give distinct filenames |
| Models.ExplicitIgnoresCase | core/models.py:53-57 | `is_explicit` does not depend on the case of the rating: "E" and "Explicit" are explicit, "questionable" is not |
| Models.VideoFromUrl | core/models.py:48-51 | a URL ending in .mp4/.webm/.gif, in either case, makes the record a video |
| Board.NormalizeRun | crawlers/base.py:119-124 | normalising a page keeps at most as many records as raw posts |
| Board.RunSnoc | crawlers/base.py:119-124 | the page result after one more post is the previous result extended by that post's outcome |
| Board.RunRaisedIff | crawlers/base.py:119-135 | a page's normalisation is interrupted if and only if some post on it raises |
| Board.GelbooruKeepsAll | crawlers/Gelbooru.py:48-60 | a Gelbooru page that does not raise keeps one record per raw post |
| Board.PageStep | crawlers/base.py:103-116 | a failed request or a non-200 status stops the crawl with nothing from that page |
| Board.Steps | crawlers/base.py:87-135 | one step per page response |
| Board.StepsAt | crawlers/base.py:87-135 | the i-th step is the outcome of the i-th response |
| Board.Requests | crawlers/base.py:87 | no request is sent once the target is reached, and at most one more request than the pages left |
| Board.NormalizePage | crawlers/base.py:119-124 | the loop over raw posts computes the page's normalisation run |
| Board.RaisedPrefix | crawlers/base.py:119-135 | posts after the one that raised do not change the page's result |
| Board.FetchPage | crawlers/base.py:99-135 | one request yields the page's step: continue with the page's records, or stop with what was kept |
| Board.FetchPosts | crawlers/base.py:78-138 | the crawl returns the first `target` records of all pages up to the stopping page; request i carries the site's parameters for page i and limit 100 |
| Board.Crawl | crawlers/base.py:78-138 | the paging loop's result and request count are those of the crawl specification |
| Board.CrawledIs | crawlers/base.py:87-138 | the accumulating specification equals the prefix of everything available, and its request count equals `Requests` |
| Board.CrawlStopsWhenFull | crawlers/base.py:87 | every request but the last finds the target unmet on a continuing page; a last continuing page meets the target |
| Board.FailedFirstRequest | crawlers/base.py:103-105 | a first request that fails gives an empty result after exactly one request |
| Board.AssembleTags | crawlers/base.py:33-49 | the query begins with the artist when there is one, and otherwise with the base tags when there are some |
| Board.AssembleTagsEmpty | crawlers/base.py:33-49 | the query is empty exactly when artist, base tags, rating and sort part are all empty |
| Board.AssembleTagsSplit | crawlers/base.py:33-49 | when no part contains a space, splitting the query on spaces gives back the non-empty parts in the order artist, tags, rating, sort |
| Board.AssembleTagsWords | crawlers/base.py:33-49 | for any parts, multi-word base tags included, splitting the query on spaces gives the words of artist, tags, rating and sort part in that order (one empty piece for an empty query) |
| PyStr.SplitConcat | crawlers/base.py:49 | splitting `a + " " + b` on spaces gives the pieces of `a` followed by the pieces of `b` |
| PyStr.SplitJoinEach | crawlers/base.py:49 | splitting a space-joined list on spaces gives each part's pieces in order |
| Danbooru.Scrub | crawlers/Danbooru.py:20-26 | the scrubbed name holds none of space, `:`, `*`, `?`, `<`, `>`, `"`, `\`, `/` or the pipe, and adds no upper case |
| Danbooru.Trim | crawlers/Danbooru.py:30 | the trimmed name is a slice of the input of at most 100 characters that does not start with space, dot or underscore |
| Danbooru.SafeTagName | crawlers/Danbooru.py:12-30 | empty tags give "all"; the name has at most 100 characters |
| Danbooru.SafeTagNameOfPair | crawlers/Danbooru.py:12-30 | `<A>: <B>?*` for two words of letters gives the lower-cased words joined by one underscore |
| Danbooru.SafeTagNameExample | crawlers/Danbooru.py:12-30 | "Foo: Bar?*" gives "foo_bar" |
| Danbooru.SafeTagNameProperties | crawlers/Danbooru.py:12-30 | the safe name is "all" for empty tags, is at most 100 characters long, is lower case, holds no forbidden character, has no doubled underscore and no leading space, dot or underscore |
| Danbooru.CollapseKeeps | crawlers/Danbooru.py:29 | collapsing underscore runs keeps a clean name clean and leaves no doubled underscore |
| Danbooru.TrimKeeps | crawlers/Danbooru.py:30 | trimming keeps a clean name without doubled underscores that way |
| Danbooru.StripNoUpper | crawlers/Danbooru.py:20 | stripping keeps a lower-case name lower case |
| Danbooru.SortString | crawlers/Danbooru.py:32-46 | empty sort gives ""; "updated" gives "order:id"; any other sort starts with "order:", kept as is or prefixed |
| Danbooru.BuildParams | crawlers/Danbooru.py:48-64 | tags, limit and page+1 are always sent; login and api_key are sent exactly when both credentials are set; no other key |
| Danbooru.ParseJsonList | crawlers/Danbooru.py:66-72 | a list body is the post list; anything else gives no posts |
| Danbooru.GetCount | crawlers/Danbooru.py:74-86 | a non-object body gives 0; with `counts` an object holding `posts` the count is `int()` of it, 0 when that fails; a non-zero count always comes from `counts.posts` |
| Danbooru.GetCountOf | crawlers/Danbooru.py:74-86 | `{"counts": {"posts": n}}` gives n, whether n is a number or its decimal text; a list or an empty object gives 0 |
| Danbooru.DatePart | crawlers/Danbooru.py:141-143 | a time without `T` is kept; otherwise it is cut to the text before its first `T` |
| Danbooru.RatingName | crawlers/Danbooru.py:147-155 | "e", "q", "s", "g" become "explicit", "questionable", "sensitive", "general"; any other code is kept |
| Danbooru.Normalize | crawlers/Danbooru.py:124-169 | a non-object raises; a post without file_url and large_file_url is skipped; otherwise it raises exactly when `"T" in created_at` or its `split` fails, or the rating is an unhashable non-empty list or dict; a kept record has site "Danbooru", the file_url (else large_file_url), the rating name of `rating or ""`, the date part of created_at, the tag string, and the id, size, score and source of the post |
| Danbooru.NormalizePostOf | crawlers/Danbooru.py:124-169 | the post of a record with a URL normalises back to the record, with the rating name and the date part |
| Danbooru.DatePartOf | crawlers/Danbooru.py:141-143 | `<date>T<time>` keeps exactly the date |
| Danbooru.RatingNameIdempotent | crawlers/Danbooru.py:147-155 | expanding a rating twice equals expanding it once |
| Danbooru.NormalizedRatingExplicit | crawlers/Danbooru.py:147-155 | a normalised record is explicit exactly when its raw rating is |
| Danbooru.RatingNameExplicit | crawlers/Danbooru.py:147-155 | mapping rating codes to full names keeps the explicit classification |
| Gelbooru.SortString | crawlers/Gelbooru.py:9-14 | empty sort gives ""; otherwise "sort:" followed by sort, ":" and desc |
| Gelbooru.BuildParams | crawlers/Gelbooru.py:16-25 | exactly the keys tags, user_id, api_key, json=1, limit, pid=page |
| Gelbooru.ParseJsonList | crawlers/Gelbooru.py:27-38 | an object's "post" list is the post list; a non-object or an object without "post" gives none |
| Gelbooru.GetCount | crawlers/Gelbooru.py:40-46 | an object without "@attributes" gives 0; a non-object block raises TypeError; a non-zero count is `int()` of `@attributes.count`; a null, boolean or number body raises |
| Gelbooru.GetCountOfObject | crawlers/Gelbooru.py:40-46 | with "@attributes" present: a non-object block raises TypeError, a missing count raises KeyError, a count text that is not a number raises ValueError, and a null, list or dict count raises TypeError |
| Json.IntCall | crawlers/Gelbooru.py:43 | `int()` succeeds exactly when the value converts; it raises ValueError for a string and TypeError for None, a list or a dict |
| Gelbooru.GetCountOf | crawlers/Gelbooru.py:43 | a count given as a number or as its decimal text is returned |
| Gelbooru.GetCountNotNumber | crawlers/Gelbooru.py:43 | a count "abc" raises ValueError |
| Gelbooru.GetCountNonObject | crawlers/Gelbooru.py:42 | a list body raises exactly when it contains the string "@attributes" |
| Gelbooru.Normalize | crawlers/Gelbooru.py:48-60 | a post raises exactly when it is not an object and is never skipped; a record takes its id, file_url, rating (not remapped), tags, width, height, score, source and created_at, and has empty site and artist "Unknown" |
| Gelbooru.NormalizePostOf | crawlers/Gelbooru.py:48-60 | the post of a record normalises back to the record, with the site, explicit extension and artist at their defaults |
| Storage.IdsOf | core/storage.py:49-51 | the loaded id set is exactly the decimal ids of the file's rows |
| Storage.LoadedIds | core/storage.py:28-54 | with a readable file that has the header, the ids are exactly its rows' decimal ids; otherwise the fallback |
| Storage.TargetFile | core/storage.py:19-25 | the file is `<artist>.csv`, or `<tags>.csv` with spaces made underscores |
| Storage.Rows | core/storage.py:117 | one row per record, each `to_dict(artist)` of it |
| Storage.Appended | core/storage.py:115-130 | appending creates the file with a header, or extends an existing one; other files are unchanged |
| Storage.Dedup | core/storage.py:66-70 | filtering keeps at most as many records as given |
| Storage.DataManager.constructor | core/storage.py:11-15 | a manager starts with the given path, artist and tags and no known ids |
| Storage.DataManager.MakeupFilepath | core/storage.py:19-26 | the path becomes the old path joined with the target file name |
| Storage.DataManager.LoadExistingIds | core/storage.py:28-54 | an explicit path resets the ids to that file's; otherwise the path is made up and the ids are that file's, kept as before when it is absent or headerless |
| Storage.DataManager.FilterNew | core/storage.py:66-70 | the loop keeps exactly the records of the dedup specification and leaves the seen set it computes |
| Storage.DataManager.WriteToCsv | core/storage.py:115-130 | when `to_csv` succeeds the disk gains the records' rows in the given file; when it fails the error is swallowed and the disk is unchanged |
| Storage.DataManager.SaveAsCsv | core/storage.py:57-79 | nothing happens for no records; otherwise the ids become the loaded ones plus the records', and only records with ids new to the target file are appended, nothing when none are new or the write fails |
| Storage.DataManager.SaveToSummaryCsv | core/storage.py:81-113 | the same for `datas.csv` beside the target file, with ids loaded from the summary alone |
| Storage.DedupSeen | core/storage.py:66-70 | afterwards the seen set is the old one plus every record's id |
| Storage.DedupFresh | core/storage.py:66-70 | kept records are input records with pairwise distinct ids, none seen before |
| Storage.DedupKeptKeys | core/storage.py:66-70 | every kept id is in the new seen set, which includes the old one |
| Storage.DedupKeepsFirst | core/storage.py:66-70 | the first record with an unseen id is kept |
| Storage.DedupAllSeen | core/storage.py:72-74 | when every id is already seen nothing is kept and the set is unchanged |
| Storage.DedupIdempotent | core/storage.py:57-79 | saving the same records a second time writes nothing |
| Storage.SummaryBesideTarget | core/storage.py:91-92 | the summary lives in the directory of the target file |
| Roster.Loaded | core/roster.py:11-16 | every non-blank line, stripped and lower-cased, is in the roster |
| Roster.LoadedFrom | core/roster.py:16 | every roster name is non-empty, lower case and comes from some line |
| Roster.LoadedAppend | core/roster.py:18-29 | appending a normalised name to the file adds exactly that name to the loaded set |
| Roster.NormalStable | core/roster.py:16-20 | normalising a name twice equals normalising it once |
| Roster.Matched | core/roster.py:35-46 | matched artists are distinct, each a roster name and a lower-cased tag, and every such tag is matched |
| Roster.Filter | core/roster.py:44 | the filter keeps exactly the tokens that are roster names |
| Roster.Assigned | core/roster.py:57-63 | only a record with artist "Unknown" and some match changes, and it gets the matches joined by ", " |
| Roster.AssignedOnlyArtist | core/roster.py:48-65 | assignment touches nothing but the artist, and assigning twice equals assigning once |
| Roster.JoinStart | core/roster.py:63 | the joined artist starts with the first match |
| Roster.ArtistRoster.constructor | core/roster.py:6-16 | without a file the roster is empty; with one it is what loading the file's lines gives |
| Roster.ArtistRoster.Add | core/roster.py:18-33 | a new non-empty normalised name joins the set and is appended to the file; otherwise nothing changes; the set stays the file's |
| Roster.ArtistRoster.ExtractArtists | core/roster.py:35-46 | empty tags give nothing; otherwise exactly the distinct lower-cased tags that are roster names |
| Roster.ArtistRoster.AssignArtists | core/roster.py:48-65 | every array slot becomes its assigned record, in place |
| Download.MakeDownloader | core/downloader.py:10-21 | the folder is the artist, or the tags without one, under the save path |
| Download.MediaFs.MakeDirs | core/downloader.py:69-71 | a missing folder is created empty; an existing one is left as it is |
| Download.MediaFs.Fetch | core/downloader.py:26-58 | success exactly on a complete 200 answer; a 200 answer creates the file even when the body breaks off |
| Download.Wanted | core/downloader.py:79-88 | a wanted record has a URL; against an empty folder every record with a URL is wanted |
| Download.Scheduled | core/downloader.py:77-88 | tasks are input records with a URL whose filename is not on disk, each aimed at folder/filename |
| Download.Outcomes | core/downloader.py:113 | one result per task, true exactly when its download succeeds |
| Download.SelectTasks | core/downloader.py:77-88 | the selection loop builds exactly the scheduled tasks |
| Download.RunTasks | core/downloader.py:107-113 | the results are the outcomes, and the folder gains the files written |
| Download.DownloadBatch | core/downloader.py:60-119 | nothing happens for no records; otherwise the tasks are scheduled against the listing, skips count the rest, successes count true results, and the folder gains the written files |
| Download.ScheduledAppend | core/downloader.py:79-88 | scheduling distributes over concatenation of record lists |
| Download.ScheduledComplete | core/downloader.py:79-88 | every record with a URL and a filename not on disk is scheduled |
| Download.SkipCount | core/downloader.py:91 | skipped = records without URL + records already on disk |
| Download.WrittenIff | core/downloader.py:38-43 | a name is written exactly when some task for it got a 200 answer |
| Download.RerunSchedulesRest | core/downloader.py:75-88 | a second run schedules exactly the tasks whose files the first run did not write |
| Database.StripEach | core/database.py:101 | each part stripped, in order |
| Database.ArtistNames | core/database.py:101-102 | empty artist gives ["Unknown"]; otherwise the distinct stripped comma-separated parts |
| Database.TagNames | core/database.py:110-111 | empty tags give nothing; otherwise the distinct stripped space-separated parts |
| Database.GetOrCreate | core/database.py:63-71 | an existing name is reused; a new one is appended |
| Database.AddNames | core/database.py:104-116 | a table only grows at its end |
| Database.NewImage | core/database.py:89-98 | the image row copies post id, site, URL, rating, posted, score and size from the record |
| Database.AddItem | core/database.py:82-119 | a record whose (post id, site) is stored changes nothing; otherwise one image row with its key is appended; afterwards the key is present |
| Database.Saved | core/database.py:73-131 | saving a batch adds at most one image per record and leaves every batch record's key present |
| Database.DBManager.constructor | core/database.py:53-61 | the manager holds the given consistent tables |
| Database.DBManager.LinkNames | core/database.py:104-116 | the loop gets or creates every non-empty name and links exactly those |
| Database.DBManager.SaveItems | core/database.py:73-131 | nothing changes for no records or a failed commit; otherwise the tables become the saved specification and the count is the number of new images |
| Database.AddNamesUnique | core/database.py:24-32 | name tables stay duplicate-free and non-empty, holding exactly the old names and the new non-empty ones |
| Database.AddNamesIdempotent | core/database.py:63-71 | adding the same names twice equals adding them once |
| Database.AddNamesPresent | core/database.py:63-71 | names already present leave the table unchanged |
| Database.NonEmptyMembers | core/database.py:104-116 | linked names are non-empty names from the list |
| Database.UniqueKeysAppend | core/database.py:84-86 | a new image whose key is absent keeps (post id, site) unique |
| Database.AddItemConsistent | core/database.py:82-119 | saving one record keeps the tables consistent: unique names, unique keys, every link present |
| Database.TagsLinkedAppend | core/database.py:110-116 | a new image whose tags are all in the grown table keeps tag links valid |
| Database.ArtistsLinkedAppend | core/database.py:101-107 | the same for artists |
| Database.AddItemKeys | core/database.py:84-119 | after one record, a key is present exactly when it was before or is the record's |
| Database.SavedConsistent | core/database.py:73-131 | saving a batch keeps the tables consistent |
| Database.SavedGrows | core/database.py:73-131 | saving only appends to images, tags and artists |
| Database.SavedKeys | core/database.py:84-86 | after a batch, a key is present exactly when it was before or a batch record has it |
| Database.InBatchSnoc | core/database.py:82 | a key is in a batch exactly when it is in all but the last record or is the last one's |
| Database.SavedAllPresent | core/database.py:84-86 | a batch of already-stored keys changes nothing |
| Database.SavedAppend | core/database.py:73-131 | saving a then b equals saving a + b |
| Database.SavedIdempotent | core/database.py:73-131 | saving the same batch twice equals saving it once |
| Database.ArtistLinks | core/database.py:101-107 | an image links "Unknown" without artist, else exactly the non-empty stripped comma-separated names |
| Utils.CleanTag | core/utils.py:66-82 | a tag is dropped exactly when, stripped, it contains `:` or is all digits; otherwise it is returned stripped |
| Utils.KeptTokens | core/utils.py:114-117 | kept words are non-empty, stripped, without `:`, not all digits and not stop words |
| Utils.CloudText | core/utils.py:107-117 | the loop builds the word-cloud text: every kept word followed by a space |
| Utils.CellText | core/utils.py:112-117 | the inner loop builds the text of one Tags cell |
| Utils.CleanBlank | core/utils.py:72-82 | a blank tag cleans to "" and is not kept |
| Utils.CleanIdempotent | core/utils.py:66-82 | cleaning a cleaned tag gives the same tag |
| Utils.SpacedAppend | core/utils.py:117 | the text of a concatenation is the concatenation of the texts |
| Utils.SpacedEmpty | core/utils.py:119-121 | the text is empty exactly when no word is kept |
| Utils.KeptComplete | core/utils.py:114-117 | every token that survives the filter appears in the text's words |
| Utils.CloudWordsAppend | core/utils.py:110-117 | the words of two cell lists concatenate |
| CsvToDb.IntCell | tools/csv_to_db.py:42-50 | a missing cell reads as 0; a present one is `int()` of it |
| CsvToDb.ParseSize | tools/csv_to_db.py:31-39 | without `x` the size is 0x0; else width is `int()` of the part before the first `x`, 0x0 when that fails; height is `int()` of the rest, 0 when that fails |
| CsvToDb.ParseRecord | tools/csv_to_db.py:42-65 | a row gives a record exactly when its id parses |
| CsvToDb.RecordFields | tools/csv_to_db.py:53-65 | the record's fields are the cells with their defaults ("Unknown" site and artist, score 0 when unparsable) |
| CsvToDb.Imported | tools/csv_to_db.py:29-65 | at most one record per row |
| CsvToDb.ImportRecords | tools/csv_to_db.py:29-65 | the loop builds exactly the imported records |
| CsvToDb.ImportBatches | tools/csv_to_db.py:73-78 | batches of 1000 are saved in turn, each kept when its commit succeeds and rolled back when it fails |
| CsvToDb.ImportCsvToDb | tools/csv_to_db.py:17-80 | the migration saves the batches of the imported records whose commits succeed |
| CsvToDb.SavedBatchesAll | core/database.py:123-129 | with every commit succeeding, saving the batches in turn is saving their concatenation |
| CsvToDb.SavedBatchesNone | core/database.py:126-129 | with every commit failing, the tables are unchanged |
| CsvToDb.ImportAllCommitted | tools/csv_to_db.py:73-78 | with every commit succeeding, the database ends as saving all imported records at once |
| CsvToDb.BatchesStep | tools/csv_to_db.py:74-75 | each loop step's slice is the next batch |
| CsvToDb.BatchesFirst | tools/csv_to_db.py:74-75 | a non-empty list's first batch is its first min(1000, n) records |
| CsvToDb.BatchesFlatten | tools/csv_to_db.py:74-75 | the batches concatenate to the records |
| CsvToDb.BatchesSizes | tools/csv_to_db.py:73-75 | each batch holds 1 to 1000 records, every one but the last exactly 1000 |
| CsvToDb.BatchesCount | tools/csv_to_db.py:74 | there are ceil(n / 1000) batches |
| CsvToDb.Cells | core/models.py:59-79 | a written row has exactly the nine columns |
| CsvToDb.ParseSizeRoundTrip | tools/csv_to_db.py:31-39 | parsing a written "WxH" gives back width and height |
| CsvToDb.RecordRoundTrip | tools/csv_to_db.py:42-65 | importing a row written by `to_dict` gives back the record, less source and explicit extension, with the row's artist |
| CsvToDb.MissingIdIsZero | tools/csv_to_db.py:43 | a row without an Id column imports with id 0 |
| CsvToDb.ImportedAll | tools/csv_to_db.py:42-45 | no row is skipped when every id parses |
| CsvToDb.ImportedOne | tools/csv_to_db.py:42-65 | one row imports to its record, or to nothing when its id fails |
| CsvToDb.ImportedAppend | tools/csv_to_db.py:29-65 | importing concatenated rows concatenates the results |
| AsyncDownload.StemId | async_download.py:55 | a name without a dot is read whole; otherwise the text before its first dot is |
| AsyncDownload.ListedIds | async_download.py:55 | the listing gives ids exactly when every name starts with an integer, and the ids are exactly those stems |
| AsyncDownload.IdListed | async_download.py:62 | a list or object id raises (unhashable); an integer id is listed exactly when in the set |
| AsyncDownload.ListedRows | async_download.py:59-63 | the duplicates are exactly the rows whose id is listed |
| AsyncDownload.UnlistedRows | async_download.py:65 | the rest are exactly the rows whose id is not listed |
| AsyncDownload.Without | async_download.py:65-77 | removal keeps exactly the rows not in the delete list |
| AsyncDownload.Ids | async_download.py:74 | the id of each row, in order |
| AsyncDownload.AsyncExt | async_download.py:98 | the `splitext` suffix, or ".jpg" when there is none; it starts with a dot |
| AsyncDownload.Jobs | async_download.py:94-103 | jobs are built exactly when every URL is a string, one per row |
| AsyncDownload.JobFor | async_download.py:94-100 | a job downloads the row's URL to `<id><ext>` in the folder |
| AsyncDownload.JobResults | async_download.py:105-106 | one result per job, true exactly when its download succeeds |
| AsyncDownload.FindListed | async_download.py:59-63 | the loop raises exactly on an unhashable id, otherwise returns the listed rows |
| AsyncDownload.FindUrlLess | async_download.py:69-75 | the loop collects the rows without a URL and their ids |
| AsyncDownload.MakeJobs | async_download.py:94-103 | the loop builds the jobs of the specification |
| AsyncDownload.RunJobs | async_download.py:11-32 | the results are the jobs' outcomes, and the folder gains the files written |
| AsyncDownload.Planned | async_download.py:55-103 | a listing with a name that is not an id raises ValueError; an unhashable row id raises TypeError; a plan counts at most the rows as duplicates and as jobs |
| AsyncDownload.PlanRun | async_download.py:55-77 | the filtering steps compute the planned run |
| AsyncDownload.DownloadImgs | async_download.py:40-107 | nothing happens for no rows; it raises exactly when planning raises; otherwise it reports duplicates, URL-less ids, the jobs and the successes, and the folder gains the written files |
| AsyncDownload.JobsAt | async_download.py:94-100 | job k downloads row k's URL to `<id><ext>` in the folder |
| AsyncDownload.JobsPrefixRaises | async_download.py:94-103 | the first row whose URL is not a string ends job building |
| AsyncDownload.DuplicatesRemoved | async_download.py:59-66 | removing the listed rows leaves the unlisted ones, and the duplicate count is the difference |
| AsyncDownload.WithoutListed | async_download.py:65 | removing any list that marks exactly the listed rows leaves the unlisted ones |
| AsyncDownload.ListedSplit | async_download.py:59-66 | listed and unlisted rows add up to all rows |
| AsyncDownload.PlannedRows | async_download.py:55-100 | a successful plan counts the duplicates, reports the URL-less ids, and downloads exactly the rows with an unlisted id and a truthy URL |
| AsyncDownload.UrlLessRemoved | async_download.py:69-77 | after removal exactly the rows with a truthy URL remain |
| AsyncDownload.UrlLessMembers | async_download.py:69-75 | the URL-less rows are exactly those with a falsy URL |
| AsyncDownload.WrittenNameListed | async_download.py:55-99 | a file written for id i is read back as id i by the next run's listing |
| AsyncDownload.SuffixKept | async_download.py:98 | a URL ending in a single-dot suffix keeps that suffix, in its case |
| MainScript.MakeupKeywords | main.py:12-31 | the parameters are tags, user_id, api_key and json=1; a sort prefixes "sort:s:desc ", else a rating prefixes "rating:r ", to "artist tags"; with neither, tags alone |
| MainScript.ArtistDroppedWithoutFilters | main.py:21-29 | without sort or rating the artist is not in the query |
| MainScript.SortOverridesRating | main.py:23-27 | with a sort the rating is ignored, and the query ends with "artist tags" |
| MainScript.Envelope | main.py:96-102 | a list is the posts; an object's "post" value is; anything else gives no posts |
| MainScript.EmptyEnvelope | main.py:96-98 | an object without "post" gives an empty list and an empty parse |
| MainScript.Details | main.py:93-106 | posts come back exactly on status 200 with a decoded body |
| MainScript.Or | main.py:128 | Python `or`: the first value when truthy, else the second |
| MainScript.ToRow | main.py:117-140 | each column is the post's field (source defaults to ""), the size is "WxH", the file URL is the first truthy of file_url, sample_url, preview_url |
| MainScript.FileUrlChoice | main.py:128 | the file URL is truthy exactly when one of the three URL fields is |
| MainScript.Parsed | main.py:114-144 | parsing succeeds exactly when every post is an object, with one row per post |
| MainScript.Parser | main.py:114-144 | the loop computes the parse specification |
| MainScript.PrefixRaises | main.py:117-118 | the first non-object post ends parsing with an error |
| MainScript.ParsedAt | main.py:117-142 | row k is the row of post k |

## Left out

- Network I/O is not modelled: `requests.get`, `aiohttp` sessions and `response.json()`. Responses are parameters: a sequence of page responses for a crawl, a function from item or URL to HTTP outcome for downloads.
- Board.FetchPosts: the page oracle is finite, and requests past its end answer with an empty list. This stands for a board that runs out of posts; without it the Python loop need not end.
- `Danbooru.get_total_count` and `main.get_info` are request wrappers and are not modelled; their parsing (`_get_count`, the `@attributes` count) is. `get_info` also reads `input()`.
- Concurrency is not modelled: semaphores, `asyncio.gather`, `asyncio.sleep`, `time.sleep`. Download tasks run one after another, so results and files are in task order.
- Progress bars, `print` and `tqdm.write` output are not modelled.
- The proxy and headers are not modelled.
- A failed download keeps no partial contents. The model records only which file names exist after an answer with status 200.
- pandas and SQLAlchemy internals are not modelled. A CSV file is a header flag plus rows. The database is three tables with link lists. A `read_csv` failure on a file without a header is read as "no ids".
- Database.DBManager.SaveItems: a failed commit is a parameter, and it rolls back everything. The model takes autoflush to make images and names added earlier in the same batch visible to later lookups.
- Set iteration order is not modelled. `list(set(...))` in the database, and the roster's set intersection, are taken in first-occurrence order.
- The word-cloud image, `generate_wordcloud` in core/storage.py and the drawing part of `generate_cloud` are not modelled. Neither is `get_latest_csv`. Only the tag text they feed is.
- `ArtistRoster.clean_summary_dataset` is pandas column rewriting and file saving; it is not modelled.
- `main.save_data`, `Downloader.download` and `output_name` are not modelled: `save_data` writes through pandas, `download` is an event-loop wrapper and `output_name` reads the clock.
- Not part of this model: run.py, tools.py, wasted_func.py, tools/clean_history.py and tools/clean_db_history.py.
- Strings are ASCII only. `lower()` and `strip()` handle ASCII letters and whitespace.
- JSON numbers are integers only.
- Python's `None` in a string field is the empty string. A string or integer field of another JSON type becomes "" or 0 in the record, where Python keeps the raw value. The Danbooru values on which Python raises are modelled as raises: a truthy number or `True` as `created_at`, a list or dict `created_at` holding "T", and a non-empty list or dict `rating`.
- PyStr.ParseInt: accepts an optional sign and ASCII digits only; Python's `int()` also accepts underscores between digits ("1_000") and non-ASCII digits.
- Json.Format: a list or dict formats as "", where Python's f-string gives its repr ("[1]"); JSON numbers are integers, so float formatting does not arise.
- Roster.ArtistRoster.Add: the file is a list of lines. A file that does not end in a newline has its last line merged with the appended name in Python; the model appends a separate line. `os.makedirs("")` raises for a roster path without a directory part, after the name was already added to the set; the model does not raise.
- Storage.DataManager.WriteToCsv: a failed `to_csv` is a parameter and writes nothing; a write that fails part-way is not modelled.
- The `ImageItem` dataclass in core/models.py:5-20 declares no `artist` field. core/roster.py, core/database.py and tools/csv_to_db.py read and write `item.artist`, and csv_to_db passes `artist=` to the constructor. The model gives `Item` an `artist` field that defaults to "Unknown".
- The Gelbooru class in crawlers/Gelbooru.py does not implement the abstract `get_safe_tag_name` and `get_total_count`, so Python cannot instantiate it. The model still crawls with it, through the base-class hooks.
- Gelbooru.ParseJsonList: when the "post" value is not a list, the model gives no posts. Python would return that value, and iterating over it either fails or yields keys. Both paths end the crawl without records from that page.
- `Danbooru.get_safe_tag_name` removes characters with regular expressions. The model writes these out as character-set removal and run collapsing.
