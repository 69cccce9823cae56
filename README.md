# Pop Mart image scraper: a verified model of its core

The scraper reads the catalog page of a toy-collecting site. Each item on the
page sits in a `div` of class `data-small-xlong`. From these item containers
the scraper does three things:

- it builds metadata records (`parse_metadata_only`) and writes them as SQL
  INSERT statements (`generate_sql_file`, `escape_sql_string`);
- it builds download tasks, each a URL and a readable file name
  (`parse_image_data`, `sanitize_filename`);
- it downloads every task with a three-attempt retry loop (`download_image`)
  and collects the failures in `failed_downloads` (`scrape_all_images`,
  `download_single_image`).

An annotation text gives each item a release year and a rarity tier
(`extract_year_and_type`).

The model has these modules:

- `Text`: the Python string built-ins the scraper uses, written over
  `seq<char>`.
- `Lists`: the order-preserving filter-map that both container loops perform,
  and the concatenation and read-back of what is written per element.
- `Annotation`: the year and tier classifier.
- `Filename`: filename-part assembly and `sanitize_filename`.
- `Catalog`: what the HTML search finds in a container, and the two extraction
  loops as methods over a sequence of containers.
- `SqlExport`: quote doubling, the INSERT statement for one record with its
  `year`/`NULL` rule, and a reader for those statements. The reader lets the
  model state that what is written holds exactly the records that went in.
- `Downloader`: the retry loop as the class `Scraper`. Its fields are the
  output directory, the `failedDownloads` list and the set of existing files.
  The network is a function from an attempt number to what that attempt
  meets. The run over all tasks is a sequential fold.

`scrap.py:44-222` repeats `pop_mart_scraper.py:207-385` line for line, so one
model covers both. Some rows below cite `scrap.py` for the lemma that states
the shared behaviour.

Three facts of the code are easy to misread, and the model keeps to the code:

- The year is the four-character string `small_text[:4]`, not an integer,
  although the table the SQL file creates declares `` `year` INT ``
  (`pop_mart_scraper.py:155`). It is written into the SQL unquoted.
- A metadata record carries no small text, only the year and tier read from it.
- A run's failures are not `tasks - successes`. A response that is not an image
  returns `False` and records nothing (`Downloader.NonImageLeavesGap`). Only
  `successes + failures <= tasks` holds.

## Model

| member | source | states |
|---|---|---|
| Text.Strip | pop_mart_scraper.py:269 | `str.strip()`: the result has no whitespace at either end and is no longer than the input |
| Text.StripRemovesOuterSpace | pop_mart_scraper.py:269 | what `strip` removes is whitespace, taken only from the two ends |
| Text.StripIdempotent | pop_mart_scraper.py:269 | stripping twice is stripping once |
| Text.Lower | pop_mart_scraper.py:54 | `lower()` keeps the length and lowers every character on its own |
| Text.ContainsIffOccurs | pop_mart_scraper.py:55 | `sub in s` holds exactly when `sub` occurs at some index of `s` |
| Text.RemoveChars | pop_mart_scraper.py:268 | deleting a set of characters leaves none of them and never lengthens the text |
| Text.RemoveCharsTwice | pop_mart_scraper.py:267-268 | two deletion passes equal one pass over the union of the characters |
| Text.Contains | pop_mart_scraper.py:55 | `sub in s` needs `sub` to be no longer than `s`, and the empty text is in every text |
| Text.Join | pop_mart_scraper.py:251 | `sep.join(parts)` of a non-empty list starts with the first part and ends with the last |
| Text.NonEmpty | pop_mart_scraper.py:251 | `filter(None, parts)` keeps no more parts than it is given, and every part it keeps is non-empty |
| Text.NonEmptyKeepsAll | pop_mart_scraper.py:251 | `filter(None, parts)` keeps a list whose parts are all non-empty |
| Annotation.YearOf | pop_mart_scraper.py:51 | the year, when present, is four digits that begin the small text; a text under four characters has none |
| Annotation.ItemType.Code | pop_mart_scraper.py:56-60 | the stored tier is always 0, 2 or 3; it is 0 exactly for Normal and 3 exactly for SuperSecret |
| Annotation.ExtractYearAndType | pop_mart_scraper.py:45-60 | "" gives (None, 0); under 4 characters gives no year; the year is present iff the first four characters are all digits, and is then those four characters; SuperSecret iff the lowered text contains "super secret"; Secret iff it contains "secret" but not "super secret"; Normal iff it does not contain "secret" |
| Annotation.SuperSecretIsSecret | pop_mart_scraper.py:55-58 | every text containing "super secret" contains "secret", which is why that test comes first |
| Annotation.ExampleLimited | pop_mart_scraper.py:51-60 | "2021 Limited" gives year "2021" and tier Normal |
| Annotation.ExampleSecret | pop_mart_scraper.py:51-60 | "2019 Secret" gives year "2019" and tier Secret |
| Annotation.ExampleSuperSecret | pop_mart_scraper.py:51-60 | "Super Secret" gives no year and tier SuperSecret |
| Lists.FilterMap | pop_mart_scraper.py:211-263 | the container loop emits no more items than there are containers |
| Lists.FilterMapOrigin | pop_mart_scraper.py:67-126 | the k-th output comes from the k-th kept element, the kept indices increase, and every element that yields an output is kept |
| Lists.FilterMapSkip | pop_mart_scraper.py:72-74 | an element that yields nothing (`continue`) leaves the outputs of the elements around it unchanged |
| Lists.ParseAllFlatten | pop_mart_scraper.py:164-170 | statements written one after another read back as the whole sequence they were written from |
| Filename.InvalidCharsAsSet | pop_mart_scraper.py:266 | the list of invalid characters and the set used for them are the same characters |
| Filename.Sanitized | pop_mart_scraper.py:265-269 | a sanitised name holds none of the nine characters `sanitize_filename` deletes, has no outer whitespace, and is no longer than the input |
| Filename.SanitizedIdempotent | scrap.py:102-106 | sanitising a sanitised name changes nothing |
| Filename.SanitizeFilename | pop_mart_scraper.py:265-269 | the loop of nine `replace` calls followed by `strip()` computes `Sanitized` |
| Filename.CleanUnchanged | pop_mart_scraper.py:265-269 | a name with no invalid character and no outer whitespace is left as it is |
| Filename.ExtensionClean | pop_mart_scraper.py:251 | `.jpg` has no invalid character and no whitespace at either end |
| Filename.FilenameParts | pop_mart_scraper.py:241-249 | there are at most four parts and none is empty |
| Filename.PartsClean | pop_mart_scraper.py:241-249 | parts built from clean texts are clean, and the first part never starts with whitespace |
| Filename.FilterKeepsParts | pop_mart_scraper.py:251 | `filter(None, ...)` never removes a filename part |
| Filename.SanitizedKeepsExtension | pop_mart_scraper.py:251-252 | sanitising a name that ends in `.jpg` keeps `.jpg` at its end |
| Filename.RawFilename | pop_mart_scraper.py:251 | the joined parts always end in `.jpg` |
| Filename.DerivedFilename | pop_mart_scraper.py:251-252 | the saved name holds no invalid character, has no outer whitespace and is no longer than the joined name |
| Filename.DerivedFilenameShape | scrap.py:77-89 | every derived name ends in `.jpg`, holds no invalid character, has no outer whitespace and is unchanged by a second sanitising |
| Filename.EmptyItemFilename | pop_mart_scraper.py:241-252 | an item with no texts at all is saved as `.jpg` |
| Filename.CleanTextsKeepFilename | pop_mart_scraper.py:241-252 | for stripped texts without invalid characters, the name is exactly `[character]`, series, `- main_name`, `(small_text)`, those that are non-empty, in that order, joined by single spaces, followed by `.jpg` |
| Filename.DeriveFilename | pop_mart_scraper.py:241-252 | the four conditional appends, the join, `.jpg` and `sanitize_filename` compute `DerivedFilename` |
| Catalog.GetText | pop_mart_scraper.py:97 | `get_text(strip=True)` has no outer whitespace |
| Catalog.TextOf | pop_mart_scraper.py:99-100 | a missing element reads as "", and every text read has no outer whitespace |
| Catalog.FindLink | pop_mart_scraper.py:96 | the found anchor is the first whose `href` is present, non-empty and contains the path, and there is none exactly when no anchor qualifies |
| Catalog.LinkText | pop_mart_scraper.py:96-103 | the text of a linked tag has no outer whitespace, and is "" when no anchor links to the path |
| Catalog.BottomTextsOf | pop_mart_scraper.py:96-106 | series and character come from the first `/pop-mart/series/` and `/pop-mart/line/` links, the name from the first `b`, the small text from the first `data-smallt` span, each "" when missing and all stripped |
| Catalog.Thumbnail | pop_mart_scraper.py:82-88 | `data-original` when present and non-empty, else `src` when present, else ""; "" when there is no lazy image |
| Catalog.ContainerMetadata | pop_mart_scraper.py:71-120 | no record iff the container has no linked image or no bottom region; otherwise `image_url` is the first anchor's href, the thumbnail and texts are as above, year and tier come from the small text, and `created_at` is the given time |
| Catalog.ContainerTask | pop_mart_scraper.py:215-257 | no task iff there is no linked image or no bottom region; otherwise the URL is the first anchor's href and the name is the derived filename of the bottom texts |
| Catalog.ParseMetadataOnly | pop_mart_scraper.py:62-126 | the loop that appends to `metadata_list` computes the order-preserving filter-map of `ContainerMetadata` |
| Catalog.ParseImageData | pop_mart_scraper.py:207-263 | the loop that appends to `image_data` computes the order-preserving filter-map of `ContainerTask` |
| Catalog.RecordsInDocumentOrder | pop_mart_scraper.py:67-126 | at most one record per container, one for each well-formed container and none for any other, in document order, each with `image_url` equal to its container's first href |
| Catalog.MalformedContainerSkipped | pop_mart_scraper.py:72-93 | a container without a linked image or bottom region adds no record or task, and the later containers are still processed |
| Catalog.ThreeGoodOneMalformed | pop_mart_scraper.py:91-93 | three good containers and one without a bottom region give the three good records, in order |
| Catalog.RecordsMatchTasks | pop_mart_scraper.py:216-225 | both passes keep the same containers: as many tasks as records, and the k-th task fetches the k-th record's image |
| Catalog.TasksHaveSafeNames | scrap.py:50-100 | every emitted task's filename ends in `.jpg`, holds no invalid character and has no outer whitespace |
| Catalog.TaskNamesHaveNoSlash | pop_mart_scraper.py:251-252 | no task's file name holds a '/', since `sanitize_filename` deletes it |
| SqlExport.DoubleQuotes | pop_mart_scraper.py:205 | doubling quotes lengthens the text by exactly its number of quotes |
| SqlExport.EscapeSqlString | pop_mart_scraper.py:201-205 | `None` gives ""; otherwise the output length is the input length plus the number of quotes |
| SqlExport.DoubleQuotesNoQuote | pop_mart_scraper.py:205 | a text without quotes is written unchanged |
| SqlExport.ReadEscaped | pop_mart_scraper.py:205 | un-doubling the escaped text, up to the closing quote, recovers the original text |
| SqlExport.Literal | pop_mart_scraper.py:169 | a quoted value is the escaped text between two single quotes, two characters plus one per quote longer than the value |
| SqlExport.Field | pop_mart_scraper.py:169 | each quoted value is followed by the rest of the statement |
| SqlExport.CodesThen | pop_mart_scraper.py:169 | the year, type and capture time are followed by `);` and a newline and then the next statement |
| SqlExport.InsertRowThen | pop_mart_scraper.py:168-170 | a statement begins with the fixed `INSERT INTO popmart_items (...) VALUES` head and ends with `);` and a newline, before whatever follows it |
| SqlExport.InsertRow | pop_mart_scraper.py:168-170 | one record's statement begins with the fixed head and ends with `);` and a newline |
| SqlExport.LiteralRoundTrip | pop_mart_scraper.py:169 | a quoted, escaped value reads back as the value, followed by whatever came after it |
| SqlExport.TomsLiteral | pop_mart_scraper.py:201-205 | `Tom's` is written as `'Tom''s'` |
| SqlExport.YearValue | pop_mart_scraper.py:165 | an absent year is written as the bare token `NULL`, a present one as itself, unquoted |
| SqlExport.TypeValue | pop_mart_scraper.py:169 | the tier is written as the single digit of its code |
| SqlExport.YearRoundTrip | pop_mart_scraper.py:165-169 | both forms of the year value read back as the year, or as "no year" |
| SqlExport.RowRoundTrip | pop_mart_scraper.py:168-170 | each INSERT statement reads back as exactly the record it was written from, whatever follows it |
| SqlExport.RowsRoundTrip | pop_mart_scraper.py:164-170 | the statements of all records, in order, read back as the record list |
| SqlExport.SectionRoundTrip | pop_mart_scraper.py:163-170 | the `-- Insert data` section reads back as exactly the records written, in order |
| SqlExport.ExtractedRecordsWritable | pop_mart_scraper.py:109-120 | every extracted record has a digit-only year or none, so its statement reads back, when the timestamp has no quote |
| SqlExport.WriteInsertStatements | pop_mart_scraper.py:163-170 | the loop over `metadata_list` writes the comment line and then one statement per record, in order |
| SqlExport.GenerateSqlFile | pop_mart_scraper.py:128-170 | nothing is written when the page is missing or yields no record; otherwise the insert section of the extracted records, which reads back as those records |
| Downloader.PathJoinShape | pop_mart_scraper.py:272 | the joined path ends with the file name, and an absolute name is taken as it is |
| Downloader.PathJoin | pop_mart_scraper.py:272 | `os.path.join` keeps the whole name and adds at most one separator to the directory |
| Downloader.PathJoinInjective | pop_mart_scraper.py:272 | two names without a slash give the same path exactly when they are equal |
| Downloader.Fetch | pop_mart_scraper.py:279-322 | the loop makes at most three attempts, and a success records no failure and leaves a file |
| Downloader.DownloadOutcome | pop_mart_scraper.py:271-322 | a call makes at most three attempts and never removes a file |
| Downloader.SkipWhenExisting | pop_mart_scraper.py:275-277 | an existing destination gives `True` with zero attempts, no failure record and no change of state |
| Downloader.AttemptsWhenMissing | pop_mart_scraper.py:279-282 | a missing destination is tried at least once and at most three times |
| Downloader.LeadingTimeouts | pop_mart_scraper.py:300-304 | timeouts on the first k attempts are retried: the loop goes on as if it started at attempt k |
| Downloader.AllTimeouts | scrap.py:137-149 | three timeouts give three attempts, `False`, exactly one record with error "Timeout after 3 attempts", and no file |
| Downloader.ErrorFailsAtOnce | pop_mart_scraper.py:314-322 | another error ends the loop at that attempt with `False` and exactly one record carrying the error text |
| Downloader.NonImageRecordsNothing | scrap.py:125-128 | a response whose content type lacks "image" gives `False` after that attempt and records nothing |
| Downloader.FailureMeansFalse | pop_mart_scraper.py:293-322 | a failure is recorded only by a call that returns `False`, and a call that returns `True` leaves its file in place |
| Downloader.SuccessThenSkip | pop_mart_scraper.py:293-298 | after a successful call, a repeat call for the same file takes the skip path whatever the network does |
| Downloader.BrokenBodyLaterSkipped | pop_mart_scraper.py:293-295 | a body that breaks off after the file is opened fails and records the error, but leaves the file, so the next call skips it and returns `True` |
| Downloader.RunBound | pop_mart_scraper.py:362-378 | after any number of tasks, successes plus recorded failures never exceed the number of tasks, and no file disappears |
| Downloader.RunKeepsSuccesses | pop_mart_scraper.py:366-378 | a task that downloads leaves its file in place for the rest of the run |
| Downloader.RunPrefix | pop_mart_scraper.py:365-378 | the run over the tasks never removes a file |
| Downloader.DownloadAddsOwnFile | pop_mart_scraper.py:271-298 | a call adds at most its own destination to the files that exist |
| Downloader.OtherFileIrrelevant | pop_mart_scraper.py:272-277 | whether some other file exists changes nothing in a call's outcome |
| Downloader.DistinctDownloadsCommute | pop_mart_scraper.py:366-378 | two calls with different destinations give the same results and failure records in either order, and leave the same files |
| Downloader.DistinctTaskNamesDistinctPaths | pop_mart_scraper.py:251-272 | two tasks of a page with different file names have different destinations |
| Downloader.JpegIsImage | pop_mart_scraper.py:289 | an `image/jpeg` content type passes the image test |
| Downloader.ImageSaved | pop_mart_scraper.py:284-298 | an image answered at the first attempt gives `True` after one attempt, no failure record, and the file |
| Downloader.HtmlThenImage | pop_mart_scraper.py:366-378 | two tasks for one file, answered first with HTML and then with an image, give one success |
| Downloader.ImageThenHtml | pop_mart_scraper.py:366-378 | two tasks for one file, the first answered with an image, give two successes, since the second skips |
| Downloader.SharedNameOrderMatters | pop_mart_scraper.py:366-378 | with a shared file name the success count depends on the order the tasks run in |
| Downloader.NonImageLeavesGap | pop_mart_scraper.py:288-291 | the bound is strict for a task answered with a page that is not an image: no success and no failure |
| Downloader.HtmlIsNotImage | pop_mart_scraper.py:289 | a `text/html` content type fails the image test |
| Downloader.Scraper.constructor | pop_mart_scraper.py:20-24 | a new scraper has the given output directory and an empty failure list |
| Downloader.Scraper.DownloadImage | pop_mart_scraper.py:271-322 | the skip check and attempt loop return `DownloadOutcome`'s result, append exactly its failure record (if any) to `failedDownloads`, and add the file when one was created |
| Downloader.Scraper.ScrapeAllImages | pop_mart_scraper.py:346-378 | with no page or no tasks nothing changes; otherwise `failedDownloads` is reset to [] and then holds exactly the run's failures in task order, and the tally is the run's successes |
| Downloader.Scraper.DownloadAll | scrap.py:201-215 | downloading every task in turn tallies the calls that return `True` and appends the run's failures to the failure list |
| Downloader.Scraper.DownloadSingleImage | pop_mart_scraper.py:324-344 | only the first task is downloaded, and the failure list is not reset |

## Left out

- HTTP: `get_page_content`, the session, its headers, `raise_for_status` and
  `iter_content` are not modelled. A page is given as `Option<seq<Container>>`,
  with `None` when it could not be fetched. One download attempt is an
  `Outcome`: a timeout, another error, or a response with its content type and
  how its body stream ended. An HTTP error status counts as another error.
- HTML parsing: BeautifulSoup and its `find`/`find_all` are not modelled. A
  container is given as what those searches find in it.
- Concurrency: the thread pool, `as_completed` and both `time.sleep` calls are
  left out. The run is a sequential fold over the tasks in page order, so the
  model's failure list is in task order. With threads, the order in which
  failures are appended may differ. For tasks with pairwise different file
  names, the order does not change any call's result or failure record, nor
  the files that exist at the end (`Downloader.DistinctDownloadsCommute`,
  `Downloader.DistinctTaskNamesDistinctPaths`). Two tasks with the same file
  name can give a different success count in a different order
  (`Downloader.SharedNameOrderMatters`). Under threads, the `os.path.exists`
  check and the write of another task for the same file can also interleave;
  that race is not modelled.
- Clock: `datetime.now()` is a parameter `now`, already formatted. The source
  reads the clock once per record. The model uses one value for the whole page.
- `generate_xlsx_file` (pandas and openpyxl) is left out; it numbers the records
  1..n in an `id` column.
- The SQL header (comment, timestamp, `CREATE TABLE`) and the log line and
  `print` after it are left out. The model covers the text written from
  `-- Insert data` on.
- File system: `os.makedirs`, the real `open`/`write`, and failures of `open`
  are not modelled. An `open` failure has the same effect as another error
  (`False`, one failure record, no file), and that is how it is modelled.
- Logging, `print`, the interactive `main` menu and the summary log of failures
  at the end of `scrape_all_images` are left out.
- Downloader.Scraper.ScrapeAllImages: the source returns nothing. The model
  returns the success tally it logs, so that the contract can state it.
- Downloader.Scraper.DownloadSingleImage: the source returns nothing and only
  prints whether the test download worked. The model returns the result of
  that one `download_image` call (`None` when there is no page or no task), so
  that the contract can state it.
- Text: `str.lower` and `str.isdigit` are modelled for ASCII only. Other
  Unicode letters and digits keep their case and are not digits. `str.isspace`
  is modelled as the fixed set of characters Python treats as whitespace.
- Catalog: the `try`/`except Exception` around each container is left out.
  Nothing it guards can raise in the model, since the `href` is known to exist
  and every lookup is optional.
- Downloader.PathJoin: `os.path.join` is modelled for POSIX paths only.
