# spanish-schools, modelled in Dafny

A model of the scraper that collects the Spanish education ministry's school
directory. It covers:

- the list scraper, which posts one search form and reads the school codes out of
  the result table;
- the details scraper, which posts one form per code and keeps the pages that came
  back;
- the details parser, which turns a page into a school record;
- the database layer, which upserts a record with its studies into three tables;
- the school manager, which filters out codes already stored and runs
  scrape, parse and save for each school.

The model replaces three libraries with plain inputs:

- **HTML and CSS selectors** become a `Document` value (module `Html`). It lists the
  elements each selector matches, every table with its `th` cells and `tr` rows, and
  every text node with the table that follows its enclosing div.
- **The network** becomes an oracle `Network = Request -> nat -> Attempt`. For each
  request and attempt number it gives a response with a status and a body, an
  aiohttp `ClientError`, or some other exception.
- **The database** becomes a `Store`. It holds schools by id, study rows with
  surrogate ids 1, 2, …, a set of (school id, study id) links, and a count of pending
  objects a flush cannot key.

The ORM's session is modelled too:

- A `Session` object holds `base`, the rows its queries see. Autoflush is off, so
  pending objects are never visible to a query.
- It also holds `work`, its pending state.
- The `DatabaseManager` keeps the committed store and a journal of every commit,
  rollback and close.

Each source file is one module:

| module | models |
|---|---|
| `BaseParser` | `src/parsers/base_parser.py` |
| `DetailsParser` | `src/parsers/details_parser.py` |
| `ListScraper` | `src/scrapers/list_scraper.py` |
| `Models` | `src/database/models.py` |
| `Operations` | `src/database/operations.py` |
| `UpsertLaws` | the laws of the `save_school` upsert |
| `BaseScraper` | `src/scrapers/base_scraper.py` |
| `DetailsScraper` | `src/scrapers/details_scraper.py` |
| `SchoolManager` | `src/managers/school_manager.py` |

`Text`, `Html`, `Records`, `JsonList`, `Seqs` and `Wrappers` hold the pieces these
modules share:

- `str.strip` uses Python's whitespace set;
- `lower` covers ASCII and Latin-1;
- `json.dumps`/`json.loads` of a list of strings is modelled with its round trip
  proved.

Code that loops or mutates state is modelled imperatively:

- the `_extract_table_data` loops;
- the `parse_services` and `parse_imparted_studies` loops;
- the table search of `_extract_school_ids`;
- the retry loop;
- the `setattr` and studies loops of `save_school`;
- the save loop of `scrape_and_parse`.

Each of these is proved equal to a specification function, and the properties are
proved as lemmas about that function. The scrapers and the manager are classes whose
fields the methods update: the client session, the sleeps taken, the committed store
and the journal.

Three behaviours of the code are worth stating plainly, because a reader might expect
otherwise:

- **No batching.** `DetailsScraper.run` takes only the list of codes, and all of them go
  into one batch.
- **The sentinel record is saved.** `scrape_and_parse` passes the sentinel record of an
  unparsable page to `save_school`. There the commit fails on its NULL key and the error
  is absorbed (`SchoolManager.SentinelRefused`).
- **Pages keep input order.** The fetched-page dict is built in the order of the codes,
  and the model keeps that order.

## Model

| member | source | states |
|---|---|---|
| Text.Strip | src/parsers/base_parser.py:14 | `str.strip()` gives a string with no leading or trailing whitespace, no longer than its input |
| Text.StripIsTrim | src/parsers/base_parser.py:14 | the result is the input with a whitespace prefix and a whitespace suffix cut off; since it is itself stripped, no longer run could have been cut |
| Text.StripStripped | src/parsers/base_parser.py:14 | stripping a stripped string changes nothing |
| Text.Lower | src/parsers/base_parser.py:46 | `str.lower()` keeps the length |
| Text.LowerEffect | src/parsers/base_parser.py:46 | every character but an ASCII or Latin-1 capital is left alone, no such capital is left, and lowering twice is lowering once |
| BaseParser.FirstMatch | src/parsers/base_parser.py:13 | `select_one` finds an element exactly when the selector has at least one match, and it is the first match |
| BaseParser.ExtractText | src/parsers/base_parser.py:10-17 | no match gives the default; otherwise the stripped text of the first match; with a stripped default the result is always stripped |
| BaseParser.ExtractAttribute | src/parsers/base_parser.py:19-26 | a present single-valued attribute of the first match gives its stripped value; a missing element or attribute (the KeyError) and a list-valued attribute (a list has no `strip`) give the default |
| BaseParser.ExtractAllText | src/parsers/base_parser.py:28-35 | a selector that raises gives `[]`; otherwise the non-empty stripped texts of the matches |
| BaseParser.NonEmptyTexts | src/parsers/base_parser.py:32 | no more texts than matches |
| BaseParser.NonEmptyTextsAppend | src/parsers/base_parser.py:32 | the comprehension keeps document order: the texts of two runs of matches are the texts of each, one after the other |
| BaseParser.NonEmptyTextsMembers | src/parsers/base_parser.py:32 | a text is in the result exactly when it is non-empty and is the stripped text of some match; every result is stripped |
| BaseParser.NormalizeHeaderNoSpace | src/parsers/base_parser.py:46 | a header key contains no space, and is as long as the stripped header text |
| BaseParser.HeaderKeysNoSpace | src/parsers/base_parser.py:44-46 | no header key of a table contains a space |
| BaseParser.ZipKeys | src/parsers/base_parser.py:53-54 | the row dict's keys are exactly the headers |
| BaseParser.ZipLastWins | src/parsers/base_parser.py:53-54 | under a repeated header the last cell wins |
| BaseParser.RowDictKeys | src/parsers/base_parser.py:50-54 | a row's keys are exactly the table's header keys |
| BaseParser.RowDictLastWins | src/parsers/base_parser.py:53-54 | a header maps to the stripped text of its last cell, so a later duplicate header overwrites an earlier one |
| BaseParser.RowsOfSingle | src/parsers/base_parser.py:49-55 | a `tr` yields a row exactly when it has at least one `td` and as many `td` as there are headers |
| BaseParser.RowsOfAppend | src/parsers/base_parser.py:49-55 | rows come out in table order |
| BaseParser.RowsOfNoHeaders | src/parsers/base_parser.py:52 | a table without headers yields no row |
| BaseParser.RowsKeysFromHeaders | src/parsers/base_parser.py:48-55 | every row's keys are among the header keys |
| BaseParser.TableDataKeysHaveNoSpace | src/parsers/base_parser.py:37-57 | no key of any extracted row contains a space |
| BaseParser.BuildRowDict | src/parsers/base_parser.py:50-54 | the `zip` loop builds the row dict of the specification |
| BaseParser.CollectHeaders | src/parsers/base_parser.py:44-46 | the header loop yields the normalised key of every `th`, in order |
| BaseParser.CollectRows | src/parsers/base_parser.py:48-55 | the row loop yields the rows of the specification |
| BaseParser.ExtractTableData | src/parsers/base_parser.py:37-60 | the method returns the table data of the specification; no matching table gives `[]` |
| DetailsParser.Section | src/parsers/details_parser.py:12-30 | a section dict has exactly its fixed keys; a key whose selector matches gets the stripped text of the first match, any other key `""` |
| DetailsParser.SchoolCode | src/parsers/details_parser.py:14-16 | the school code is the stripped text of the first element under the "Código de centro:" label, and `""` when there is none |
| DetailsParser.ParseBasicInfo | src/parsers/details_parser.py:10-33 | exactly the 6 basic keys, each the page's stripped text for that field, so `id` is the school code |
| DetailsParser.ParseLocationInfo | src/parsers/details_parser.py:35-69 | exactly the 9 location keys, each the page's stripped text for that field |
| DetailsParser.ParseClassificationInfo | src/parsers/details_parser.py:71-90 | exactly the 4 classification keys, each the page's stripped text for that field |
| DetailsParser.AbsentRegionIsEmpty | src/parsers/details_parser.py:48-50 | a page without a region label has `region == ""` |
| DetailsParser.ServicesOfRows | src/parsers/details_parser.py:117-124 | no more services than rows, and none empty |
| DetailsParser.ServicesOfRowsAppend | src/parsers/details_parser.py:118-124 | services come out in row order |
| DetailsParser.ServicesOfRowsMembers | src/parsers/details_parser.py:118-124 | a service is listed exactly when some row's first `td`, stripped, is that non-empty text |
| DetailsParser.ParseServices | src/parsers/details_parser.py:92-135 | the loop returns the services of the specification; a missing heading, parent div or table gives `[]` |
| DetailsParser.StudyOfRow | src/parsers/details_parser.py:164-174 | a row yields a study exactly when it has at least 4 `td` and a non-empty stripped third cell; the fields are cells 0 to 3, stripped |
| DetailsParser.StudiesOfRows | src/parsers/details_parser.py:163-174 | no more studies than rows, each with a non-empty name |
| DetailsParser.StudiesOfRowsAppend | src/parsers/details_parser.py:163-174 | studies come out in row order |
| DetailsParser.ParseImpartedStudies | src/parsers/details_parser.py:137-185 | the loop returns the studies of the specification; a missing heading, parent div or table gives `[]` |
| DetailsParser.MergedScalars | src/parsers/details_parser.py:196-199 | merging the three sections gives the union of their keys, with every value a stripped string |
| DetailsParser.MergedFirstOnly | src/parsers/details_parser.py:196-199 | a key found only in the first section keeps its value through the merge |
| DetailsParser.Scalars | src/parsers/details_parser.py:196-199 | the merged scalar part has the 19 scalar keys, every value a stripped string (the values themselves: `ScalarsFields`) |
| DetailsParser.MergedFields | src/parsers/details_parser.py:196-199 | when every section gives each of its keys that field's text, so does the merge, whichever section a key comes from |
| DetailsParser.ScalarsFields | src/parsers/details_parser.py:196-199 | every merged scalar is the page's stripped text for that field |
| DetailsParser.ScalarsId | src/parsers/details_parser.py:196-199 | the merged `id` is the school code |
| DetailsParser.IdOnlyInBasic | src/parsers/details_parser.py:10-90 | only the basic section has an `id` key |
| DetailsParser.WithLists | src/parsers/details_parser.py:196-202 | adding `services` and `imparted_studies` keeps every scalar and adds exactly those two keys |
| DetailsParser.ParseAllWithoutCode | src/parsers/details_parser.py:187-206 | a page without a school code yields exactly `{id: None, name: None, services: [], imparted_studies: []}` |
| DetailsParser.ParseAllWithCode | src/parsers/details_parser.py:196-202 | a page with a code yields all 21 keys: the code as `id`, every scalar stripped, the services list and the studies list (the scalar values: `ParseAllFields`) |
| DetailsParser.ParseAllFields | src/parsers/details_parser.py:196-202 | on a page with a code, each of the 19 scalars of the record is the page's stripped text for that field (`""` for a label the page lacks) |
| DetailsParser.RecordKeysCount | src/parsers/details_parser.py:196-202 | a record has 21 keys: 6 + 9 + 4 scalars and the two lists |
| ListScraper.PayloadSize | src/scrapers/list_scraper.py:17-31 | the search form has exactly its 11 fixed fields |
| ListScraper.PayloadValues | src/scrapers/list_scraper.py:17-31 | every filter asks for "all" (`"0"` or `"00"`), the name filter is empty and the button is `Buscar` |
| ListScraper.HeaderFromFirst | src/scrapers/list_scraper.py:54-60 | the column found is the first `th` whose stripped text contains the code label; with none there is no column |
| ListScraper.CodeColumnFirst | src/scrapers/list_scraper.py:48-63 | the table chosen is the first, in document order, with a code header; tables without one (with no `th` at all, say) are passed over |
| ListScraper.NoCodeTable | src/scrapers/list_scraper.py:65-67 | with no table holding a code header the result is `[]` |
| ListScraper.CodesAppend | src/scrapers/list_scraper.py:77-82 | codes come out in row order |
| ListScraper.CodesMembers | src/scrapers/list_scraper.py:77-82 | a code is listed exactly when some row yields it: a `tbody` row with more cells than the column index and a non-empty stripped cell there |
| ListScraper.CodesBound | src/scrapers/list_scraper.py:74-82 | no more codes than `tbody` rows |
| ListScraper.DuplicatesKept | src/scrapers/list_scraper.py:77-82 | a code listed twice comes out twice |
| ListScraper.CollectCodes | src/scrapers/list_scraper.py:77-82 | the row loop returns the codes of the specification |
| ListScraper.ExtractSchoolIds | src/scrapers/list_scraper.py:33-93 | the table search, with its flags and breaks, and the row loop return the codes of the specification |
| ListScraper.TwoRowsScenario | src/scrapers/list_scraper.py:33-93 | a table whose first column is the code column, with two data rows, gives both codes in row order |
| ListScraper.Run | src/scrapers/list_scraper.py:95-122 | inside a fresh client session, closed at the end, a successful search gives the codes of the page; a failed request is raised again with its error, never turned into `[]`; the retry sleeps are recorded |
| Models.EmptyValid | src/database/models.py:14-19 | the empty database is well formed and can be flushed |
| Models.LinkedStudies | src/database/models.py:14-19 | a school's studies are exactly the study ids linked to it |
| Models.ServicesBlob | src/database/models.py:73-78 | the setter stores NULL exactly for None, and the JSON text of a list otherwise, so what it stores can always be bound |
| Models.Services | src/database/models.py:67-71 | the getter gives `[]` when `_services` is falsy (NULL, `""` or an empty list), and fails on a non-empty raw list, which `json.loads` refuses |
| Models.ServicesSetThenGet | src/database/models.py:67-78 | reading back what the setter stored gives the list (`[]` for None) |
| Models.EmptyServicesStored | src/database/models.py:73-78 | `[]` is stored as the non-empty blob `"[]"`, and reads back as `[]` |
| JsonList.Encode | src/database/models.py:76 | the JSON of a list is bracketed, and `[]` for the empty list |
| JsonList.DecodeEncode | src/database/models.py:67-78 | decoding the JSON of a list of strings gives the list back |
| Operations.RewriteUrlOther | src/database/operations.py:15 | a URL without `sqlite:///` is left as it is |
| Operations.RewriteUrlSqlite | src/database/operations.py:15 | `sqlite:///` + path becomes `sqlite+aiosqlite:///` + path |
| Operations.DatabaseManager.constructor | src/database/operations.py:13-23 | the manager opens the rewritten URL, over the initial rows, with an empty journal |
| Operations.PopStudies | src/database/operations.py:59 | the `imparted_studies` entry is removed from the dict, and an absent entry counts as `[]` |
| Operations.StudiesKeyNoAttribute | src/database/operations.py:59-65 | `imparted_studies` is not among the keys a School is built from or updated with: the relationship takes ImpartedStudy objects, not study dicts, so the entry is popped first |
| Operations.StudyItems | src/database/operations.py:76 | a list of studies is walked as it is; anything else that is not empty fails with TypeError |
| Operations.NewSchool | src/database/operations.py:65 | `School(**school_data)` succeeds exactly when every key is a column, the key, the `services` property or the `_services` attribute, and gives a full row |
| Operations.Assign | src/database/operations.py:68-69 | the `setattr` loop keeps the row's column set |
| Operations.SetAttributes | src/database/operations.py:68-69 | the loop over the dict's items gives what `Assign` gives: every given column set, and the `services` column written by the property or by `_services` |
| Operations.Touch | src/database/models.py:26-30 | `onupdate` keeps the columns and the `services` column |
| Operations.Unlink | src/database/operations.py:73 | clearing the list drops exactly this school's links and changes nothing else |
| Operations.FindStudy | src/database/operations.py:78-85 | the study found is the first stored row equal on all four columns; none is found exactly when no row matches |
| Operations.LoadedStudies | src/database/operations.py:63-73 | the collection the new list is compared with: a stored school's links as the session sees them, and nothing for a new object |
| Operations.Link | src/database/operations.py:93 | the append adds the (school, study) pair to the link rows; a pair already appended in this call for a study the loaded collection did not hold is a second insert of one composite key, counted as a row the flush refuses; a study the collection held is inserted by no append |
| Operations.AddStudy | src/database/operations.py:87-93 | each study gets a surrogate id of at least 1 |
| Operations.LinkStudies | src/database/operations.py:76-93 | the studies loop yields one study id per item |
| Operations.AddSchool | src/database/operations.py:64-66 | adding a school leaves the studies and links alone |
| Operations.Restrict | src/database/operations.py:68 | the fields assigned so far are those of the dict among the keys done |
| Operations.DatabaseManager.NewSession | src/database/operations.py:54 | a new session sees the committed rows and has nothing pending |
| Operations.DatabaseManager.GetSession | src/database/operations.py:35-46 | on normal exit the session commits and closes; if the commit cannot flush, it rolls back; on an error it rolls back, closes and re-raises; only a successful commit changes the rows |
| Operations.DatabaseManager.SaveSchool | src/database/operations.py:48-106 | with a caller's session the upsert is only staged, with no commit, rollback or close; without one it commits on success, and otherwise rolls back, closes and re-raises |
| Operations.Session.Commit | src/database/operations.py:96 | a commit succeeds exactly when the pending state can be flushed (no NULL or duplicate key, no link row inserted twice, NOT NULL columns set), and then it becomes the committed rows |
| Operations.Session.Rollback | src/database/operations.py:101 | a rollback drops the pending state |
| Operations.Session.Close | src/database/operations.py:106 | a close drops the pending state |
| Operations.Session.Finish | src/database/operations.py:95-106 | the end of an owned session: commit and close on success, and otherwise rollback and close with the error |
| Operations.Session.Apply | src/database/operations.py:57-97 | the statements of `save_school` stage exactly the upsert of the specification and return the popped dict |
| Operations.Session.LinkItems | src/database/operations.py:76-93 | the studies loop does what the specification's loop does |
| UpsertLaws.LinkStudiesEffect | src/database/operations.py:73-93 | the studies loop only appends study rows, keeps the schools and never lowers the count of rows the flush refuses; afterwards the school's links are the old ones plus its chosen studies |
| UpsertLaws.FreshLinksCons | src/database/operations.py:93 | the links appended for studies outside the loaded collection are all new exactly when the first is (or is loaded) and the rest are new after it |
| UpsertLaws.LinkStudiesConflicts | src/database/operations.py:73-93 | for a school the flush can key, the loop adds no refused row exactly when no chosen study outside the loaded collection was linked to it before or is chosen twice |
| UpsertLaws.UpsertRepeatRefused | src/database/operations.py:57-97 | a save that links one study row twice to a school whose stored collection did not hold it (a new school, or a study new to it) leaves a session that cannot be committed |
| UpsertLaws.UpsertRepeatLoaded | src/database/operations.py:57-97 | re-saving a stored school with studies it is already linked to adds no refused row, however often a study is listed |
| UpsertLaws.LinkStudiesChoice | src/database/operations.py:77-93 | each item's study is the first equal stored row, or a new row added for it |
| UpsertLaws.AddStudyChoice | src/database/operations.py:77-93 | one study is reused when an equal row is stored, and otherwise added; no row is removed |
| UpsertLaws.LinkStudiesRows | src/database/operations.py:87-90 | no study row is ever deleted |
| UpsertLaws.LinkStudiesKnown | src/database/operations.py:77-90 | when every study is already stored, no row is added |
| UpsertLaws.PlaceSchoolEffect | src/database/operations.py:62-69 | placing the school changes only the school of that id and keeps the store well formed |
| UpsertLaws.PlaceNew | src/database/operations.py:63-66 | an id not stored gives a new School object |
| UpsertLaws.PlaceExisting | src/database/operations.py:67-69 | a stored id updates that school in place |
| UpsertLaws.AddSchoolWell | src/database/operations.py:64-66 | adding a full row keeps the store well formed |
| UpsertLaws.UpsertKeepsView | src/database/operations.py:57-93 | an upsert keeps the session's pending state well formed and extending what its queries see |
| UpsertLaws.UpsertPlaced | src/database/operations.py:59-93 | the upsert is the placement of the school followed by its links |
| UpsertLaws.LinkPlacedKeeps | src/database/operations.py:73-93 | clearing and rebuilding the links keeps the store well formed and the schools as they are |
| UpsertLaws.LinkPlacedSchools | src/database/operations.py:73-93 | the link step leaves the schools alone |
| UpsertLaws.UpsertSchools | src/database/operations.py:62-93 | the upsert's schools are those of the placement |
| UpsertLaws.NewSchoolRow | src/database/operations.py:64-66 | a new row has the given columns, with the clock for missing timestamps and NULL elsewhere, and the `services` column from the setter, else the raw `_services` value, else NULL |
| UpsertLaws.AssignColumns | src/database/operations.py:67-69 | exactly the given keys are overwritten and every other column is unchanged; the `services` column is written by the property, else by `_services`, else kept |
| UpsertLaws.AssignNoChange | src/database/operations.py:67-69 | a record equal to the stored row changes nothing |
| UpsertLaws.TouchEffect | src/database/models.py:26-30 | `updated_at` is refreshed only when the row changes, and the other columns are kept |
| UpsertLaws.AssignRow | src/database/operations.py:67-69 | an update overwrites exactly the given keys, the `services` column included when the record names the property or `_services`, and refreshes `updated_at` only when the row changed |
| UpsertLaws.UpsertInserts | src/database/operations.py:63-66 | a new id is inserted with the given fields and no other school changes; an unknown key fails with TypeError |
| UpsertLaws.UpsertUpdates | src/database/operations.py:67-69 | a stored id is updated on exactly the given keys, the `services` column through the property or `_services`, and no other school changes |
| UpsertLaws.ListedStudies | src/database/operations.py:59 | an absent `imparted_studies` entry counts as no studies |
| UpsertLaws.UpsertLinks | src/database/operations.py:73-93 | afterwards the school's studies are exactly the chosen ones, one per input study in order, and other schools' links are untouched |
| UpsertLaws.UpsertReuse | src/database/operations.py:77-93 | each input study is linked to the first stored row equal on all four columns, or to a new row |
| UpsertLaws.UpsertFails | src/database/operations.py:57-102 | each error raised, and exactly when it is raised: a missing `id`, a list id that `session.get` refuses, an unknown key on insert, a study list that cannot be walked; before the studies loop an error changes nothing |
| UpsertLaws.UpsertSucceeds | src/database/operations.py:57-97 | a successful upsert had an `id` and a walkable study list, and returns one study id per study |
| UpsertLaws.ChoseFound | src/database/operations.py:77-90 | a chosen study can be found by the query afterwards |
| UpsertLaws.ResaveAddsNoRows | src/database/operations.py:77-93 | saving the same record again adds no study row |
| UpsertLaws.DuplicateStudyTwoRows | src/database/operations.py:76-93 | with autoflush off, a study listed twice in one new record gets two new rows |
| UpsertLaws.LinkTwiceFresh | src/database/operations.py:76-93 | on an empty table a duplicated study gets ids 1 and 2 |
| BaseScraper.Scraper.constructor | src/scrapers/base_scraper.py:11-13 | a new scraper has no client session |
| BaseScraper.Scraper.Enter | src/scrapers/base_scraper.py:16-18 | `__aenter__` opens a new client session |
| BaseScraper.Scraper.Exit | src/scrapers/base_scraper.py:20-27 | `__aexit__` closes the session only when one is set |
| BaseScraper.Scraper.MakeRequest | src/scrapers/base_scraper.py:29-64 | with no session, RuntimeError before any attempt; otherwise the retry loop's result and attempt count, with one sleep of `retry_delay` after each retried attempt |
| BaseScraper.RetryNone | src/scrapers/base_scraper.py:43-64 | with `retry_attempts <= 0` no attempt is made and "Max retry attempts reached" is raised |
| BaseScraper.RetryEnds | src/scrapers/base_scraper.py:43-62 | the loop ends after 1 to `retry_attempts` attempts, with one sleep between each pair; the body returned is that of the first successful attempt; a ClientError is raised again only on the final attempt; any other exception is raised at once |
| BaseScraper.AllAttemptsFail | src/scrapers/base_scraper.py:43-62 | when every attempt raises a ClientError: `retry_attempts` attempts, `retry_attempts - 1` sleeps, and the last error |
| BaseScraper.FirstSuccessWins | src/scrapers/base_scraper.py:43-53 | the first successful attempt after ClientErrors gives its body, after one sleep per failure |
| BaseScraper.RecoversAfterOneFailure | src/scrapers/base_scraper.py:43-62 | one temporary failure followed by a good response recovers, with two attempts and one sleep |
| BaseScraper.OtherFaultNotRetried | src/scrapers/base_scraper.py:55 | an exception that is no ClientError is raised after one attempt, with no sleep |
| BaseScraper.Sleeps | src/scrapers/base_scraper.py:62 | `n` sleeps, each of `retry_delay` |
| DetailsScraper.PayloadFixed | src/scrapers/details_scraper.py:24-37 | `codCentro` carries the code, and every other field is the same whatever the code |
| DetailsScraper.PayloadSize | src/scrapers/details_scraper.py:24-37 | the form has the code and 9 fixed fields |
| DetailsScraper.FetchedIsBody | src/scrapers/details_scraper.py:49-64 | the page is None exactly when the request raised, and otherwise its body |
| DetailsScraper.ErrorStatusGivesNone | src/scrapers/details_scraper.py:49-64 | a 404 or a 500 on every attempt gives None, after every allowed attempt |
| DetailsScraper.OtherErrorGivesNone | src/scrapers/details_scraper.py:49-64 | an exception that is no ClientError gives None after one attempt |
| DetailsScraper.Outcomes | src/scrapers/details_scraper.py:74-75 | one outcome per code, in order |
| DetailsScraper.PutValid | src/scrapers/details_scraper.py:77-81 | a dict assignment keeps each key listed once, and keeps the existing keys |
| DetailsScraper.SuccessesValid | src/scrapers/details_scraper.py:77-81 | the comprehension builds a well-formed dict |
| DetailsScraper.SuccessesKeys | src/scrapers/details_scraper.py:77-81 | the keys are exactly the codes whose request gave a page; failed codes are absent |
| DetailsScraper.SuccessesLastWins | src/scrapers/details_scraper.py:77-81 | each code maps to its page, and for a repeated code the last page wins |
| DetailsScraper.SuccessesBound | src/scrapers/details_scraper.py:77-81 | the keys are among the codes, and there are no more of them than codes |
| DetailsScraper.ScrapeSchool | src/scrapers/details_scraper.py:39-64 | the page, or None for any exception, including the missing session |
| DetailsScraper.ProcessBatch | src/scrapers/details_scraper.py:66-81 | inside a fresh client session, closed at the end, one request per code; the result is the dict of the codes that gave a page |
| DetailsScraper.Run | src/scrapers/details_scraper.py:83-111 | the batch of the codes given; None or `[]` gives the empty dict |
| SchoolManager.NewIdsMembers | src/managers/school_manager.py:54 | a code is kept exactly when it was asked for and is not stored yet |
| SchoolManager.NewIdsAppend | src/managers/school_manager.py:54 | the filter keeps the order of the codes |
| SchoolManager.NewIdsCounts | src/managers/school_manager.py:54 | a new code is kept as many times as it is listed, and a stored code never |
| SchoolManager.NewIdsIdempotent | src/managers/school_manager.py:54 | filtering twice keeps what filtering once keeps |
| SchoolManager.BatchSizeRejected | src/managers/school_manager.py:29 | the call with `batch_size=` raises TypeError for every list of codes and every size |
| SchoolManager.CodesAloneBind | src/scrapers/details_scraper.py:83 | the call without that keyword binds the codes to `school_ids` |
| SchoolManager.ScrapeAndParseAsWritten | src/managers/school_manager.py:20-29 | `scrape_and_parse` as written raises TypeError before any request |
| SchoolManager.Settle | src/database/operations.py:95-106 | a save in its own session leaves one result: a failure leaves the committed rows alone, and a success commits rows that can be flushed |
| SchoolManager.SaveAll | src/managers/school_manager.py:32-43 | one result per page |
| SchoolManager.SaveAllAppend | src/managers/school_manager.py:32-43 | saving two runs of pages is saving the first, then the second from where the first left off |
| SchoolManager.FailedSaveSkipped | src/managers/school_manager.py:32-43 | a school whose save fails does not stop or change the others: the rows at the end and the later results are those reached without it |
| SchoolManager.SaveAllFlushable | src/managers/school_manager.py:32-43 | committed rows that can be flushed stay so through any run of saves |
| SchoolManager.SentinelRefused | src/managers/school_manager.py:35-43 | the record of a page without a code is saved anyway; its commit fails, it rolls back, and the rows are unchanged |
| SchoolManager.NullIdPlaced | src/database/operations.py:63-66 | a school with a NULL id becomes a pending object the flush cannot key |
| SchoolManager.Saves | src/managers/school_manager.py:32-36 | one record per fetched page, in the dict's order, each with its own timestamp |
| SchoolManager.SaveOwn | src/managers/school_manager.py:39 | a `save_school` call without a session, as a session of its own that commits or rolls back |
| SchoolManager.SavePages | src/managers/school_manager.py:32-43 | the loop parses and saves every page in order, and absorbs each failure |
| SchoolManager.Manager.constructor | src/managers/school_manager.py:11-12 | a new manager has a new details scraper |
| SchoolManager.Manager.GetExistingSchoolIds | src/managers/school_manager.py:14-18 | the codes of every stored school, read in a session that commits nothing and closes |
| SchoolManager.Manager.ScrapeAndParse | src/managers/school_manager.py:20-43 | the codes' pages are fetched, then each is parsed and saved in a session of its own; failing saves are absorbed |
| SchoolManager.Manager.ProcessNewSchools | src/managers/school_manager.py:45-60 | only codes not stored yet are scraped; with none, no request is sent and nothing is saved |
| SchoolManager.Manager.ProcessAllSchools | src/managers/school_manager.py:62-71 | every code given is scraped and saved, stored or not |

## Left out

- **Concurrency is not modelled.** That means the asyncio semaphore and
  `asyncio.gather`. The requests of a batch go out one after the other in the model.
  Since `gather` returns its results in task order, the dict built from them is the
  same.
- **BeautifulSoup, lxml and the CSS selector engine are not modelled.** The document
  is the abstract `Document` value: which elements each selector matches, and which
  selectors raise.
- **The SQL engine is not modelled.** That covers `create_tables`, `drop_tables`,
  `get_school_by_id`, `get_all_schools` and `get_school_imparted_studies`: DDL, and
  thin wrappers over the ORM.
- **Timeouts and HTTP headers are not modelled.** The network oracle decides each
  attempt's answer. A timeout is an `OtherFault`: aiohttp raises `asyncio.TimeoutError`,
  which is no ClientError, so it ends the retry loop without a retry.
- **The clock is a parameter.** `now` in `save_school`, and `clock(i)` for the i-th
  save of a run, stand for the `created_at` and `updated_at` defaults.
- **Logging is not modelled.** That includes the progress messages every 500 codes.
  None of it changes a result.
- **The code label is a parameter.** In the source, `C贸digo` at
  `src/scrapers/list_scraper.py:49,56` is stored in a garbled encoding, and both sides
  of its `or` are the same text. The label to match is therefore a parameter,
  `codeLabel`, of `ListScraper.ExtractSchoolIds` and `ListScraper.Run`.
- **Some `except Exception` branches cannot be reached in the model.** These are the
  ones in `_extract_school_ids` (`src/scrapers/list_scraper.py:91-93`) and in
  `DetailsScraper.run` (`src/scrapers/details_scraper.py:109-111`). The abstract
  document cannot raise during extraction, and `scrape_school` absorbs every error.
  The `except` branches of the parsers are modelled where a selector can raise.
- NewSchool: the declarative constructor accepts any attribute of the class as a
  keyword. The model accepts the columns, the key, `services` and `_services`, and treats
  any other key as the TypeError of an unknown keyword, including names such as
  `metadata` that the class has but no record means. A record built by the parser never
  carries such a key. `UpsertInserts` and `UpsertFails` inherit this.
- NewSchool, Assign, SetAttributes: a record naming both `services` and `_services`
  writes the `services` column twice, and in the source the later key in the dict's order
  wins. The model's records carry no key order, so it lets `services` win. No parsed
  record names `_services`. `AssignColumns`, `AssignRow`, `UpsertInserts` and
  `UpsertUpdates` inherit this.
- UpsertFails: an id that is a list of exactly one string is modelled as `BadIdentity`,
  raised by `session.get`. SQLAlchemy takes such a list as the identity tuple and looks
  up its element, so the error comes only at the flush, when the list is bound to the key
  column. Every other list id is refused by `session.get`, as modelled. No parsed
  record has a list id.
- **Loading the old studies collection is not modelled.** `save_school` replaces the
  `imparted_studies` collection of a stored School (`src/database/operations.py:73`). The
  model treats that collection as loaded from the rows the session sees
  (`Operations.LoadedStudies`). Whether an async session can load it lazily at that
  point is not modelled.
- **Studies listed twice in one record are not merged.** With autoflush off, the
  second stays a new row (`UpsertLaws.DuplicateStudyTwoRows`). Reuse is only against
  rows already stored.
- **A pending row the flush refuses is a counter, not an object.** That is a School
  with a NULL id, a second new School for an id already pending, or a link row inserted
  twice. The store counts such rows, and the commit fails while the count is not zero.
  When and how that flush error arises is not modelled. A link row counted by one save
  stays counted when a later save of the same school, in the same caller's session and
  before any flush, replaces the list again.
- **The `services` column holds the `_services` attribute.** The setter writes JSON
  text or NULL into it; `_services` writes any value as it is, and a value the database
  cannot bind (a list) makes the row unflushable.
- SchoolManager.Manager.ScrapeAndParse: models the call to `run` without its
  `batch_size=` keyword. As written, every call raises TypeError; see Findings. So do
  `ProcessNewSchools` and `ProcessAllSchools`, which reach that call.
- SchoolManager.Manager.ProcessNewSchools: in the model, reading the stored codes
  fails only when the committed rows cannot be flushed. Other database errors are
  not part of the model.
- **JSON:** `json.loads` of blobs not written by the setter is used only through
  `Models.Services`. Its contract covers the None and empty blobs and the blobs the
  setter writes.
- **The configuration and entry points are not part of this model:**
  `config/config.py`, `main.py` and `setup.py`.

## Findings

| source | as written | input that shows it | evidently intended | confidence | as-written member | corrected member |
|---|---|---|---|---|---|---|
| src/managers/school_manager.py:29 | `self.scraper.run(school_ids, batch_size=batch_size)`, but `DetailsScraper.run(self, school_ids=None)` has no `batch_size` parameter | any call, e.g. `scrape_and_parse(["28000001"])`: the binding raises TypeError before a request is sent, so `process_new_schools` and `process_all_schools` never save anything | fetch the pages of `school_ids` and save each one | not executed | SchoolManager.ScrapeAndParseAsWritten | SchoolManager.Manager.ScrapeAndParse |
