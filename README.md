# glvd vulnerability matching, modelled in Dafny

glvd (the Garden Linux Vulnerability Database) takes the Debian security
tracker, Debian `Sources` indexes and the NVD feed and turns them into one
record per distribution, CVE and source package: "is this source package
vulnerable, and how severe is it". This project models that pipeline and
proves properties of the model. It covers:

- the value layer: CPE 2.3 formatted strings (`cpe.dfy`), the CVSS
  severity enum and its column type (`cvss.dfy`, `db_types.dfy`), the
  distribution mappers (`dist_cpe.dfy`, `cli_mappers.dfy`) and the
  security tracker's advisory file (`debsec_cve.dfy`, with the line
  grammar and its round trips in `debsec_cve_text.dfy` and the fixture
  files in `debsec_cve_cases.dfy`);
- the database entities with their natural keys and in-place `merge`
  (`database.dfy`);
- the reconciliation passes. Each takes a key from the persisted rows,
  pops it from the new entries, deletes or merges the row, and inserts
  what is left. They are `ingest-debsec` and `ingest-debsrc`
  (`ingest_debsec.dfy`, `ingest_debsrc.dfy`, and the older, non-deleting
  `cli_ingest_debsec.dfy`, `cli_ingest_debsrc.dfy`), `combine-deb`
  (`combine_deb.dfy`, and the older `cli_combine_deb.dfy`) and
  `combine-all` (`combine_all.dfy`);
- the NVD ingestion: the upsert rule, the paging loop and the
  incremental-window choice (`ingest_nvd.dfy`);
- the web endpoints `/v1/cves` and `/rest/json/cves/2.0+deb`, as filters
  over in-memory tables (`web_v1_cves.dfy`, `web_nvd.dfy`);
- the apt client's request encoding (`cve_apt.dfy`);
- the release scripts (`release_check.dfy`, `unreleased_changes.dfy`,
  `release_notes.dfy`, `update_image_tags.dfy`,
  `update_image_tags_root.dfy`).

`wrappers.dfy` (Option, Result and the Python exceptions the code raises),
`text.dfy` (Python string operations and the string order), `json.dfy`
(decoded JSON values) and `sorting.dfy` (a stable insertion sort standing
in for `list.sort`) are shared helpers.

The database is a `Store` object whose fields are the tables, each a
`map` from natural key to row. The ORM's load, mutate and flush cycle is
modelled by loading a row into an entity object, merging in place and
writing the row back. A pass that raises inside its transaction leaves
the store as it was. Where the SQL does not fix an order, the model
leaves it open. Where the code iterates over a stream of persisted rows,
the order is an explicit parameter that enumerates the query's scope.
The Debian version order (the `debversion` column type) is a
function-typed parameter `lt`, left uninterpreted. Timestamps are
integers (seconds), and CVSS scores are reals.

## Model

| member | source | states |
|---|---|---|
| Cvss.FromValue | src/glvd/data/cvss.py:9-15 | `CvssSeverity(v)` succeeds exactly for 0..5 and gives the member whose value is `v` |
| Cvss.ValueRoundTrip | src/glvd/data/cvss.py:8-15 | member values lie in 0..5, are distinct, and looking a value up gives its member back |
| Cvss.FromName | src/glvd/data/cvss.py:9-15 | lookup by member name gives the member of that name, or `KeyError(name)` |
| Cvss.NameRoundTrip | src/glvd/data/cvss.py:9-15 | looking up a member's name gives the member back |
| Cvss.FromScore | src/glvd/data/cvss.py:18-29 | a score below 0 or above 10 raises `ValueError`; any other score gets the rating whose band holds it (9+ critical, 7+ high, 4+ medium, above 0 low, 0 none), and never `UNIMPORTANT` |
| Cvss.BandsDisjoint | src/glvd/data/cvss.py:21-29 | the rating bands do not overlap, so each valid score has exactly one rating |
| Cvss.FromScoreMonotone | src/glvd/data/cvss.py:21-29 | a higher score never gets a lower enum value |
| Cvss.FromScoreOutOfRange | src/glvd/data/cvss.py:19-29 | -0.1 and 10.1 are refused; 0 is NONE and 10 is CRITICAL |
| DbTypes.ProcessBindParam | src/glvd/database/types.py:18-21 | NULL is written as NULL and a severity as its value in 0..5 |
| DbTypes.ProcessResultValue | src/glvd/database/types.py:23-26 | NULL reads as NULL, an integer in 0..5 as the member with that value, any other integer raises |
| DbTypes.BindResultRoundTrip | src/glvd/database/types.py:18-26 | reading back a written value gives the original severity or NULL |
| CpeNames.Quote | src/glvd/data/cpe.py:64-65 | escaping only ever inserts backslashes, so the text never gets shorter |
| CpeNames.UnquoteQuote | src/glvd/data/cpe.py:64-65 | un-escaping after escaping gives every string back |
| CpeNames.QuoteHead | src/glvd/data/cpe.py:64-65 | an escaped string never starts with a bare punctuation character |
| CpeNames.QuoteColons | src/glvd/data/cpe.py:41-64 | escaping adds no newline, and every colon it leaves is preceded by a backslash, so no field separator is produced |
| CpeNames.QuoteLast | src/glvd/data/cpe.py:64-65 | escaping keeps the last character of a non-empty string |
| CpeNames.QuoteMarkers | src/glvd/data/cpe.py:64-74 | the escaped text is `-` or `*` only when the original is |
| CpeNames.MatchFrom | src/glvd/data/cpe.py:38-62 | the backtracking match of the lazy fields returns one group per capture of the pattern |
| CpeNames.TryField | src/glvd/data/cpe.py:41-59 | a lazy field tried from a given end returns one group per capture of the rest of the pattern |
| CpeNames.TryLast | src/glvd/data/cpe.py:60-61 | the last lazy field before `$` returns exactly one group |
| CpeNames.TryLastExact | src/glvd/data/cpe.py:60-61 | without a newline the last field takes the whole remaining text |
| CpeNames.MatchLayout | src/glvd/data/cpe.py:38-62 | completeness: a text laid out from safe field values is matched, and the match gives those values back |
| CpeNames.MatchSound | src/glvd/data/cpe.py:38-62 | soundness: the matched text is the layout of the captured groups, plus at most the one newline `$` allows |
| CpeNames.TryFieldSound | src/glvd/data/cpe.py:41-59 | soundness of one lazy field together with the rest of the pattern |
| CpeNames.TryLastSound | src/glvd/data/cpe.py:60-61 | the text after the last separator is the last group, or the last group and a newline |
| CpeNames.ParsePart | src/glvd/data/cpe.py:16-40 | the part field decodes exactly for `-`, `*`, `a`, `o` and `h`; an upper-case letter, which IGNORECASE lets through, is refused by `CpePart` |
| CpeNames.ParseCpe | src/glvd/data/cpe.py:76-89 | the field-by-field loop of `parse` builds the record the match describes, or raises `ValueError` |
| CpeNames.ToStr | src/glvd/data/cpe.py:91-103 | the field-by-field loop of `__str__` gives the template filled with NA as `-`, ANY as `*`, and concrete strings escaped |
| CpeNames.RenderSafe | src/glvd/data/cpe.py:68-100 | a field value that round-trips renders as a safe field text and decodes back to itself |
| CpeNames.RenderLast | src/glvd/data/cpe.py:68-103 | the last field renders without a newline and decodes back even when it ends in a backslash, because `$` ends it rather than a separator |
| CpeNames.FormatLayout | src/glvd/data/cpe.py:103 | the serialisation starts with `cpe:2.3:` and the part, and its remainder is the pattern's layout of the rendered fields, with a literal `*` in the edition slot |
| CpeNames.ParseFormat | src/glvd/data/cpe.py:68-103 | parsing the serialisation gives the record back when no concrete field is `-` or `*` or holds a newline, and no field before the last ends in a backslash |
| CpeNames.FormatParse | src/glvd/data/cpe.py:68-103 | a string that is the serialisation of such a record parses, and serialises back to itself |
| CpeNames.ParseShape | src/glvd/data/cpe.py:38-89 | every accepted string has the prefix, a part letter, four fields, a literal `*` edition, and five more fields |
| CpeNames.DefaultFormat | src/glvd/data/cpe.py:27-103 | the default record, every field ANY, serialises to the all-`*` name and parses back |
| CpeNames.ExampleQuote | src/glvd/data/cpe.py:64-65 | the test's version value `c:%\*;c` escapes to `c\:\%\*\;c` |
| CpeNames.ExampleFormat | src/glvd/data/cpe.py:91-103 | the test's record serialises to the test's string |
| CpeNames.ParseExample | src/glvd/data/cpe.py:38-89 | the test string parses to the test's record, whose version is `c:%\*;c`, and serialises back to itself |
| CpeNames.ParseAllAny | src/glvd/data/cpe.py:38-89 | a name whose other components are all `*` parses to the default record with the given part, or fails on a bad part |
| CpeNames.UpperPrefixExample | src/glvd/data/cpe.py:38-62 | IGNORECASE accepts an upper-case `CPE` prefix |
| CpeNames.UpperPartExample | src/glvd/data/cpe.py:27-74 | an upper-case part letter matches the pattern but is refused by `CpePart` |
| DistCpeMappers.New | src/glvd/data/dist_cpe.py:17-29 | `new` gives a concrete mapper exactly for the names `keys()` lists, and `KeyError` for any other |
| DistCpeMappers.Call | src/glvd/data/dist_cpe.py:14-71 | the base mapper raises `NotImplementedError`; the Debian mapper succeeds exactly for the codenames of its fixed table and raises `KeyError` otherwise; the Garden Linux mapper always succeeds; the result carries the mapper's vendor and product and the given codename |
| DistCpeMappers.FallbackIffEmptyCodename | src/glvd/data/dist_cpe.py:36-71 | for both concrete mappers the version is empty exactly when the codename is empty |
| DistCpeMappers.MapperExamples | src/glvd/data/dist_cpe.py:36-71 | bookworm is `12`, woody is `3.0`, the empty codename has the empty version, sid is refused, and Garden Linux 1592 keeps its codename as version |
| CliMappers.EmbeddedMappers | src/glvd/cli/ingest_debsec.py:25-71 | the mappers embedded in the older passes give the same result as the data module's mappers for every codename |
| CliMappers.Lookup | src/glvd/cli/ingest_debsec.py:73-76 | the embedded registry knows exactly `debian` and `gardenlinux`, and raises `KeyError` for any other product |
| CliMappers.LookupIsNew | src/glvd/cli/ingest_debsec.py:73-76 | the embedded registry agrees with `DistCpeMapper.new` on every name |
| CliIngestDebsec.EmbeddedBase | src/glvd/cli/ingest_debsec.py:78-81 | construction succeeds exactly for a registered product, with a mapper that behaves like the data module's, and raises `KeyError` otherwise |
| CliIngestDebsec.UpdateKeepsRows | src/glvd/cli/ingest_debsec.py:102-114 | the older update pass never adds or removes a stored advisory row |
| CliIngestDebsec.IngestDebsec.constructor | src/glvd/cli/ingest_debsec.py:78-81 | the pass keeps the looked-up mapper |
| CliIngestDebsec.IngestDebsec.ImportCveUpdate | src/glvd/cli/ingest_debsec.py:89-114 | the stored advisories of the product's distributions are merged with the file's and popped from it; a missing or empty bucket or a missing key leaves the row as it is |
| CliIngestDebsec.IngestDebsec.ImportCveInsert | src/glvd/cli/ingest_debsec.py:116-146 | `experimental` is dropped; a distribution is created once for each codename that lacks one, and a codename the mapper refuses fails; the remaining advisories are inserted under their codename's distribution |
| CliIngestDebsec.IngestDebsec.ImportCve | src/glvd/cli/ingest_debsec.py:148-166 | the update pass, then the insert pass over what the update left; a failure leaves the store as it was |
| CliIngestDebsrc.EmbeddedTarget | src/glvd/cli/ingest_debsrc.py:73-81 | the target distribution built at construction is the data module's mapper applied to the codename |
| CliIngestDebsrc.IngestDebsrc.constructor | src/glvd/cli/ingest_debsrc.py:78-81 | the pass keeps its target distribution |
| CliIngestDebsrc.IngestDebsrc.ImportUpdate | src/glvd/cli/ingest_debsrc.py:89-112 | stored sources of the target distribution that the file lists are merged and popped; the others stay |
| CliIngestDebsrc.IngestDebsrc.ImportInsert | src/glvd/cli/ingest_debsrc.py:114-134 | the distribution with the target's coordinates is reused, or the target is added; several such rows fail; the file's remaining sources are inserted under it |
| CliIngestDebsrc.IngestDebsrc.ImportFile | src/glvd/cli/ingest_debsrc.py:136-154 | fails exactly when several distributions carry the target's coordinates, and then nothing changes; otherwise every file source is stored with the file's version, every other source of the distribution keeps its row, and no other distribution's rows change |
| CliIngestDebsrc.KeptOrFromFile | src/glvd/cli/ingest_debsrc.py:103-134 | without deletes, a row of the distribution after both passes is a file source or was stored before |
| Database.DebsrcRow.MergedWith | src/glvd/database/__init__.py:64-75 | `Debsrc.merge` takes the new version and keeps the key (dist_id, deb_source) and `last_mod` |
| Database.DebsecCveRow.MergedWith | src/glvd/database/__init__.py:78-94 | `DebsecCve.merge` takes fixed version, tag and note and keeps the key (dist_id, cve_id, deb_source) and `last_mod` |
| Database.DebCveRow.MergedWith | src/glvd/database/__init__.py:97-127 | `DebCve.merge` takes severity, version, fixed version, vulnerable flag and match blob and keeps the key and `last_mod` |
| Database.AllCveRow.MergedWith | src/glvd/database/__init__.py:130-138 | `AllCve.merge` takes only the document and keeps the id and `last_mod` |
| Database.MergeLaws | src/glvd/database/__init__.py:122-127 | merging twice with the same row is merging once, merging a row with itself changes nothing, and a later merge overrides an earlier one |
| Database.MergeLawsOthers | src/glvd/database/__init__.py:74-138 | the other three merges are idempotent and leave a row merged with itself unchanged |
| Database.Debsrc.constructor | src/glvd/database/__init__.py:64-72 | the entity holds the given row |
| Database.Debsrc.Merge | src/glvd/database/__init__.py:74-75 | the in-place merge leaves the entity holding its old row merged with the other's |
| Database.DebsecCve.constructor | src/glvd/database/__init__.py:78-89 | the entity holds the given row |
| Database.DebsecCve.Merge | src/glvd/database/__init__.py:91-94 | the in-place merge leaves the entity holding its old row merged with the other's |
| Database.DebCve.constructor | src/glvd/database/__init__.py:97-110 | the entity holds the given row |
| Database.DebCve.Merge | src/glvd/database/__init__.py:122-127 | the in-place merge leaves the entity holding its old row merged with the other's |
| Database.AllCve.constructor | src/glvd/database/__init__.py:130-135 | the entity holds the given row |
| Database.AllCve.Merge | src/glvd/database/__init__.py:137-138 | the in-place merge leaves the entity holding its old row merged with the other's |
| Database.MergeDebsrc | src/glvd/database/__init__.py:74-75 | loading a row into an entity, merging in place and reading it back gives the merged row |
| Database.MergeDebsecCve | src/glvd/database/__init__.py:91-94 | the same for a `DebsecCve` entity |
| Database.MergeDebCve | src/glvd/database/__init__.py:122-127 | the same for a `DebCve` entity |
| Database.MergeAllCve | src/glvd/database/__init__.py:137-138 | the same for an `AllCve` entity |
| Database.Store.constructor | src/glvd/database/__init__.py:46-135 | an empty database, which satisfies every key and foreign-key constraint |
| Database.Store.SetDebsec | src/glvd/database/__init__.py:54-89 | new distribution and advisory rows are flushed, keeping every key and foreign-key constraint |
| Database.Store.SetDebcve | src/glvd/database/__init__.py:97-110 | `deb_cve` rows are flushed, keeping the constraints |
| Database.Store.SetNvd | src/glvd/database/__init__.py:46-51 | `nvd_cve` rows keyed by their CVE id are flushed |
| Database.Store.SetAllcve | src/glvd/database/__init__.py:130-135 | `all_cve` rows keyed by their CVE id are flushed |
| Database.Store.AddDist | src/glvd/database/__init__.py:54-57 | a new distribution gets the next id of the sequence, which no row has |
| DebsecCveFiles.Span | src/glvd/data/debsec_cve.py:14-29 | a greedy character-class run stays inside the line |
| DebsecCveFiles.SpanRun | src/glvd/data/debsec_cve.py:14-29 | the run is made of characters of the class, and the character after it is not one |
| DebsecCveFiles.SpanIs | src/glvd/data/debsec_cve.py:14-29 | a run of the class is the longest one exactly when the next character is outside the class |
| DebsecCveFiles.Token | src/glvd/data/debsec_cve.py:14-29 | the text a greedy run consumes is the slice of the line that the run spans |
| DebsecCveFiles.NoteTail | src/glvd/data/debsec_cve.py:31-33 | the optional ` (note)` before the end captures a note without a newline, and its absence needs the end of the line |
| DebsecCveFiles.Fixed | src/glvd/data/debsec_cve.py:26-30 | exactly one of `<tag>` and the fixed version is captured, non-empty and made of its class's characters |
| DebsecCveFiles.Match | src/glvd/data/debsec_cve.py:12-34 | each stage of the line pattern gives a well-formed line: a header only from the start, and a status line keeps the codename captured before its `-` |
| DebsecCveFiles.AtStart | src/glvd/data/debsec_cve.py:13-17 | from the start of the line: an id header, or the indented alternatives after white space |
| DebsecCveFiles.AtIndent | src/glvd/data/debsec_cve.py:17-23 | after the indentation: a directive, a braced list or a status line, never a header |
| DebsecCveFiles.AtDash | src/glvd/data/debsec_cve.py:24 | `-` and white space lead to a status line with the given codename |
| DebsecCveFiles.AtSource | src/glvd/data/debsec_cve.py:25 | the source and white space lead to a status line with the given codename |
| DebsecCveFiles.AtFixed | src/glvd/data/debsec_cve.py:26-33 | the tag or fixed version, the optional note and the end give a well-formed status line |
| DebsecCveFiles.Classify | src/glvd/data/debsec_cve.py:12-57 | a recognised line is well formed, non-empty, a header exactly when it starts with an id character (and then starts with its id), otherwise it starts with white space |
| DebsecCveFiles.EntryOf | src/glvd/data/debsec_cve.py:43-50 | the stored advisory has the header's CVE id, the line's source, fixed version, tag and note, and no distribution |
| DebsecCveFiles.Classified | src/glvd/data/debsec_cve.py:53-54 | each line of the file is classified by the line pattern |
| DebsecCveFiles.DebsecCveFile.constructor | src/glvd/data/debsec_cve.py:11 | a new file dictionary is empty |
| DebsecCveFiles.DebsecCveFile.ReadSource | src/glvd/data/debsec_cve.py:36-50 | `_read_source` creates the codename's bucket (`''` without a codename), then stores the advisory under (cve_id, source) unless the tag is `removed` or `not-affected` |
| DebsecCveFiles.DebsecCveFile.Read | src/glvd/data/debsec_cve.py:52-60 | `read` processes the lines in order, setting the current id on a header and storing status lines under it, and stops with the exception a line raises |
| DebsecCveFiles.AddStatusSpec | src/glvd/data/debsec_cve.py:36-50 | a status line creates its bucket even when its tag drops it, leaves every other bucket alone, and stores its advisory, replacing an earlier one for the same key, unless the tag drops it |
| DebsecCveFiles.ReadGood | src/glvd/data/debsec_cve.py:43-58 | reading keeps every advisory under its own (cve_id, source), without a distribution, with a fixed version exactly when it has no tag, and never with a dropping tag |
| DebsecCveFiles.ReadFileGood | src/glvd/data/debsec_cve.py:52-60 | what a successful or failing read leaves is well formed in the same sense |
| DebsecCveFiles.IgnoredOnly | src/glvd/data/debsec_cve.py:17-57 | headers and directive lines store nothing: a file of only those leaves the dictionary unchanged |
| DebsecCveFiles.FailingLine | src/glvd/data/debsec_cve.py:53-60 | a line of no recognised shape raises `RuntimeError`; what the earlier lines stored stays and nothing after it is read |
| DebsecCveFiles.StatusBeforeHeader | src/glvd/data/debsec_cve.py:53-58 | a status line before any header finds `current_id` unbound and raises, storing nothing |
| DebsecCveFiles.StepsAppend | src/glvd/data/debsec_cve.py:52-60 | reading is one left-to-right pass: reading two parts is reading the second on what the first left, with the first part's last header id |
| DebsecCveFiles.StatusAttribution | src/glvd/data/debsec_cve.py:55-58 | a status line is attributed to the id of the last header before it |
| DebsecCveFiles.BlockTail | src/glvd/data/debsec_cve.py:53-58 | the rest of a CVE's block is a block again |
| DebsecCveFiles.AddStatusKeys | src/glvd/data/debsec_cve.py:37-43 | one status line adds only its own key, and only to its own bucket |
| DebsecCveFiles.ReadBlock | src/glvd/data/debsec_cve.py:36-58 | reading one CVE's block raises nothing, adds a bucket for every codename a status line names, and adds to each bucket the keys of its lines whose tag does not drop them |
| DebsecCveFiles.BlockStatus | src/glvd/data/debsec_cve.py:36-58 | the same, for a block that starts with a status line |
| DebsecCveText.NoteTailText | src/glvd/data/debsec_cve.py:31 | a written ` (note)` before the newline reads back as that note |
| DebsecCveText.FixedTag | src/glvd/data/debsec_cve.py:27 | a written `<tag>` reads back as the tag |
| DebsecCveText.FixedVersion | src/glvd/data/debsec_cve.py:29 | a written fixed version followed by white space reads back as the version |
| DebsecCveText.FixedOf | src/glvd/data/debsec_cve.py:26-30 | a written tag or fixed version reads back as the one that was written |
| DebsecCveText.SourceOf | src/glvd/data/debsec_cve.py:24-25 | `- source ` reads back as the source with single spaces around it |
| DebsecCveText.FixedAtSteps | src/glvd/data/debsec_cve.py:26-33 | a read tag or version and note give the status line of those parts |
| DebsecCveText.SourceAtSteps | src/glvd/data/debsec_cve.py:25 | after the source and one space the matcher continues at the tag or version |
| DebsecCveText.DashedStep | src/glvd/data/debsec_cve.py:24 | after `- ` the matcher continues at the source |
| DebsecCveText.DashedOf | src/glvd/data/debsec_cve.py:24-33 | the body of a status line from its `-` reads back as the line it was written from |
| DebsecCveText.DashedFields | src/glvd/data/debsec_cve.py:24-33 | the same, given where the parts of the line sit |
| DebsecCveText.DashedChain | src/glvd/data/debsec_cve.py:24-33 | the stages of a status line from the `-` on, chained |
| DebsecCveText.NotIgnored | src/glvd/data/debsec_cve.py:19-21 | neither a directive nor a braced list starts with `-` or `[` |
| DebsecCveText.PlainIndent | src/glvd/data/debsec_cve.py:23-24 | an unqualified status line has no codename |
| DebsecCveText.QualifiedIndent | src/glvd/data/debsec_cve.py:23-24 | `[codename] ` before the `-` gives the status line that codename |
| DebsecCveText.TabIndent | src/glvd/data/debsec_cve.py:17 | a tab-indented line is read from its second character |
| DebsecCveText.ClassifyStatusText | src/glvd/data/debsec_cve.py:17-33 | a status line in canonical form reads back as the line it was written from |
| DebsecCveText.ClassifyHeaderText | src/glvd/data/debsec_cve.py:14-15 | a header line, with or without a title, reads back as its id |
| DebsecCveText.ClassifyDirectiveText | src/glvd/data/debsec_cve.py:19 | a directive line is recognised and states nothing |
| DebsecCveCases.FixedLine0 | tests/data/test_debsec_cve.py:10 | `CVE-2023-39323 ()` is the header of that id |
| DebsecCveCases.FixedLine1 | tests/data/test_debsec_cve.py:11 | the unqualified golang-1.21 line is fixed in 1.21.2-1 |
| DebsecCveCases.FixedLine2 | tests/data/test_debsec_cve.py:12 | the unqualified golang-1.20 line is fixed in 1.20.9-1 |
| DebsecCveCases.FixedLine3 | tests/data/test_debsec_cve.py:13 | the golang-1.19 line carries the tag `unfixed` |
| DebsecCveCases.FixedLine4 | tests/data/test_debsec_cve.py:14 | the bookworm line carries tag `no-dsa` and note `Minor issue` |
| DebsecCveCases.FixedLine5 | tests/data/test_debsec_cve.py:15 | the golang-1.15 line carries the tag `removed` |
| DebsecCveCases.FixedLine6 | tests/data/test_debsec_cve.py:16 | the bullseye line carries tag `no-dsa` and note `Minor issue` |
| DebsecCveCases.FixedLine7 | tests/data/test_debsec_cve.py:17 | the golang-1.11 line carries the tag `removed` |
| DebsecCveCases.FixedLine8 | tests/data/test_debsec_cve.py:18 | the buster line carries tag `postponed` and the note with its comma and slash |
| DebsecCveCases.FixedLine9 | tests/data/test_debsec_cve.py:19 | the `NOTE:` line is a directive |
| DebsecCveCases.IgnoredLine0 | tests/data/test_debsec_cve.py:43 | a header with a parenthesised title gives its id |
| DebsecCveCases.IgnoredLine1 | tests/data/test_debsec_cve.py:44 | `NOT-FOR-US: ...` is a directive |
| DebsecCveCases.IgnoredLine2 | tests/data/test_debsec_cve.py:45 | a bare id is a header |
| DebsecCveCases.IgnoredLine3 | tests/data/test_debsec_cve.py:46 | `TODO: check` is a directive |
| DebsecCveCases.IgnoredLine4 | tests/data/test_debsec_cve.py:47 | a bare id is a header |
| DebsecCveCases.IgnoredLine5 | tests/data/test_debsec_cve.py:48 | `RESERVED` is a directive |
| DebsecCveCases.IgnoredLine6 | tests/data/test_debsec_cve.py:49 | a bare id is a header |
| DebsecCveCases.IgnoredLine7 | tests/data/test_debsec_cve.py:50 | `REJECTED` is a directive |
| DebsecCveCases.ReadIgnoredCase | tests/data/test_debsec_cve.py:42-57 | reading the ignored-lines fixture raises nothing and leaves the dictionary empty |
| DebsecCveCases.ClassifiedFixed | tests/data/test_debsec_cve.py:9-20 | every line of the fixed-case fixture is recognised: the header, eight status lines and the `NOTE:` directive |
| DebsecCveCases.ReadFixedCase | tests/data/test_debsec_cve.py:22-40 | reading the fixed-case fixture raises nothing. It leaves exactly the buckets `''`, `bookworm`, `bullseye` and `buster`, each with the keys the test lists; the `removed` lines create a bucket and store nothing |
| DataIngestDebsec.UpdateAdvisories | src/glvd/cli/data/ingest_debsec.py:74-87 | the update pass only removes or changes stored rows and keeps the file's codename buckets |
| DataIngestDebsec.UpdateRow | src/glvd/cli/data/ingest_debsec.py:75-87 | one streamed row removes nothing but itself and keeps the set of buckets |
| DataIngestDebsec.RowClosed | src/glvd/cli/data/ingest_debsec.py:77-87 | a streamed row with an entry in its codename's bucket is merged with it and the entry is popped; without one, the row is deleted exactly when the pass deletes |
| DataIngestDebsec.UpdateBuckets | src/glvd/cli/data/ingest_debsec.py:77-81 | each bucket loses exactly the keys of the streamed rows of its codename |
| DataIngestDebsec.UpdateUntouched | src/glvd/cli/data/ingest_debsec.py:67-74 | rows outside the update query's scope are left as they are |
| DataIngestDebsec.UpdateStreamed | src/glvd/cli/data/ingest_debsec.py:77-87 | a streamed row with an entry is merged with it; one without is gone exactly when the pass deletes, and unchanged otherwise |
| DataIngestDebsec.UpdateClosed | src/glvd/cli/data/ingest_debsec.py:67-87 | the update pass as a whole: buckets lose the popped keys, rows outside the scope stay, rows with an entry are merged, rows without one are deleted |
| DataIngestDebsec.Update | src/glvd/cli/data/ingest_debsec.py:74-87 | the streaming loop leaves the tables the update pass describes and keeps the store's constraints |
| DataIngestDebsec.UpdateOne | src/glvd/cli/data/ingest_debsec.py:75-87 | one turn of the loop is one step of the update pass and keeps every key and foreign key |
| DataIngestDebsec.CodenameIndex | src/glvd/cli/data/ingest_debsec.py:95-104 | the codename dictionary indexes every codename of the product's distributions, each by a row that has it |
| DataIngestDebsec.CodenameIndexLast | src/glvd/cli/data/ingest_debsec.py:101-104 | when two rows share a codename, the later one in the stream wins |
| DataIngestDebsec.Made | src/glvd/cli/data/ingest_debsec.py:113-114 | the rows the mapper creates are exactly those for the codenames it accepts |
| DataIngestDebsec.ResolveCodenames | src/glvd/cli/data/ingest_debsec.py:109-115 | on success every codename of the file is indexed, and no existing index entry changes |
| DataIngestDebsec.Attached | src/glvd/cli/data/ingest_debsec.py:117-119 | a bucket attached to a distribution holds exactly the bucket's entries, under that distribution, with their `dist` set |
| DataIngestDebsec.ResolveErr | src/glvd/cli/data/ingest_debsec.py:109-115 | the codename loop fails exactly when some codename has no distribution and the mapper refuses it, and then with that codename's `KeyError`, the first in iteration order |
| DataIngestDebsec.ResolveState | src/glvd/cli/data/ingest_debsec.py:109-115 | a successful codename loop has resolved every codename, with ids below the sequence |
| DataIngestDebsec.AttachState | src/glvd/cli/data/ingest_debsec.py:109-119 | the advisory half adds every bucket under its distribution, recording whether one collided with stored rows |
| DataIngestDebsec.AddBucket | src/glvd/cli/data/ingest_debsec.py:117-119 | the inner loop adds the bucket's entries under the distribution and reports a collision exactly when an added key was already stored |
| DataIngestDebsec.Insert | src/glvd/cli/data/ingest_debsec.py:89-119 | `import_cve_insert`: `experimental` is dropped; each codename takes its distribution or the mapper's new row, and a refused codename raises its `KeyError`; the entries are added under their distributions, and a key collision fails the flush; a failure leaves the store unchanged |
| DataIngestDebsec.InsertCodenames | src/glvd/cli/data/ingest_debsec.py:109-119 | the codename loop computes both its distribution half and its advisory half |
| DataIngestDebsec.InsertCodename | src/glvd/cli/data/ingest_debsec.py:110-119 | one round of the codename loop continues both halves from where they were |
| DataIngestDebsec.UpdateShrinks | src/glvd/cli/data/ingest_debsec.py:81 | each bucket after the update pass is part of the file's bucket: the pass only pops |
| DataIngestDebsec.UpdateKeyed | src/glvd/cli/data/ingest_debsec.py:81 | buckets keyed by their entries stay keyed after the update pass |
| DataIngestDebsec.ScopeRows | src/glvd/cli/data/ingest_debsec.py:67-74 | the update query streams stored rows, each once |
| DataIngestDebsec.InsertFails | src/glvd/cli/data/ingest_debsec.py:101-115 | the insert pass fails exactly when some codename of the file has no distribution of the product and the mapper refuses it |
| DataIngestDebsec.InsertDists | src/glvd/cli/data/ingest_debsec.py:101-115 | after a successful insert every codename of the file has a distribution of the product carrying it; a new one is the mapper's row under a fresh id; no stored distribution changes |
| DataIngestDebsec.InsertRows | src/glvd/cli/data/ingest_debsec.py:109-119 | the flush fails exactly when a bucket collides with its existing distribution's rows; every entry sits under its codename's distribution; no stored row is lost, and one that no entry replaces is unchanged |
| DataIngestDebsec.IngestDebsec.constructor | src/glvd/cli/data/ingest_debsec.py:50-53 | the pass keeps the mapper `DistCpeMapper.new` returned |
| DataIngestDebsec.IngestDebsec.ImportCveUpdate | src/glvd/cli/data/ingest_debsec.py:61-87 | the product's stored advisories are merged with the file or deleted against it, as the update pass describes |
| DataIngestDebsec.IngestDebsec.ImportCveInsert | src/glvd/cli/data/ingest_debsec.py:89-119 | the insert pass on the store, with the outcome `Insert` states |
| DataIngestDebsec.IngestDebsec.ImportCve | src/glvd/cli/data/ingest_debsec.py:121-139 | the update pass and then the insert pass over the buckets the update left; a failure leaves the store as it was |
| DataIngestDebsrc.TargetDist | src/glvd/cli/data/ingest_debsrc.py:65-68 | the pass's distribution exists exactly for `gardenlinux` or a known Debian codename; an unknown product or codename is a `KeyError` naming it, and the distribution carries the codename |
| DataIngestDebsrc.DebsrcFile.constructor | src/glvd/cli/data/ingest_debsrc.py:70-74 | the parsed file holds the given source-to-version entries |
| DataIngestDebsrc.UpdateRows | src/glvd/cli/data/ingest_debsrc.py:90-99 | the update pass only removes or changes stored rows and only pops entries from the file |
| DataIngestDebsrc.UpdateRowsClosed | src/glvd/cli/data/ingest_debsrc.py:90-99 | the file loses exactly the streamed sources; unstreamed rows stay; a streamed row whose source is in the file takes the file's version; one whose source is not is deleted exactly when the pass deletes |
| DataIngestDebsrc.StreamHead | src/glvd/cli/data/ingest_debsrc.py:90-93 | the first streamed row's source is popped before, and differs from, those of the rest of the stream |
| DataIngestDebsrc.Inserted | src/glvd/cli/data/ingest_debsrc.py:119-121 | the inserted rows are exactly the leftover file entries, each attached to the distribution with its version |
| DataIngestDebsrc.ImportRows | src/glvd/cli/data/ingest_debsrc.py:123-130 | after both passes no leftover entry collides with a stored row of the distribution, and the distribution's sources are the file's sources with the file's versions |
| DataIngestDebsrc.Update | src/glvd/cli/data/ingest_debsrc.py:90-99 | the streaming loop leaves the table and the file as the update pass defines |
| DataIngestDebsrc.Insert | src/glvd/cli/data/ingest_debsrc.py:114-121 | more than one distribution with the target's coordinates is `MultipleResultsFound`; otherwise the existing one is reused or the target added, and the leftover entries are added under it; a failure changes nothing |
| DataIngestDebsrc.AddEntries | src/glvd/cli/data/ingest_debsrc.py:119-121 | the loop adds exactly the inserted rows of the file's entries |
| DataIngestDebsrc.InsertedStep | src/glvd/cli/data/ingest_debsrc.py:119-121 | adding one more entry extends the inserted rows by that entry's row |
| DataIngestDebsrc.IngestDebsrc.constructor | src/glvd/cli/data/ingest_debsrc.py:65-68 | the pass keeps the distribution it was built for |
| DataIngestDebsrc.IngestDebsrc.ImportUpdate | src/glvd/cli/data/ingest_debsrc.py:76-99 | the rows of the distribution are merged with, or deleted against, the file |
| DataIngestDebsrc.IngestDebsrc.ImportInsert | src/glvd/cli/data/ingest_debsrc.py:101-121 | the insert pass on the distribution's coordinates, with its `MultipleResultsFound` case |
| DataIngestDebsrc.IngestDebsrc.ImportFile | src/glvd/cli/data/ingest_debsrc.py:123-141 | fails exactly when several distributions carry the coordinates, and then nothing changes; otherwise the distribution's sources are exactly the file's with the file's versions, and no other distribution's rows change |
| DataIngestDebsrc.ImportScope | src/glvd/cli/data/ingest_debsrc.py:82-88 | with at most one matching distribution, the update query streams exactly the rows of the distribution the insert pass uses |
| DataCombineDeb.Primary | src/glvd/cli/data/combine_deb.py:72 | the primary metric entries, in order; it fails with `AttributeError` exactly when some entry is not an object, and is empty exactly when no entry is primary |
| DataCombineDeb.PrimaryFirst | src/glvd/cli/data/combine_deb.py:72-73 | the first entry of the primary list is the first primary metric entry |
| DataCombineDeb.ByName | src/glvd/cli/data/combine_deb.py:74-77 | a severity is found exactly for a string that names a member, and it carries that name; an unknown name gives none; a list or object raises |
| DataCombineDeb.ExtractCvssSeverity | src/glvd/cli/data/combine_deb.py:65-78 | the loop with its early returns computes the severity the rounds over V3.1 then V3.0 define |
| DataCombineDeb.SeverityNamed | src/glvd/cli/data/combine_deb.py:69-75 | every severity found is the `baseSeverity` name of the first primary entry of the V3.1 or the V3.0 metrics |
| DataCombineDeb.V31Decides | src/glvd/cli/data/combine_deb.py:70-75 | a V3.1 primary entry naming a severity decides, whatever V3.0 says |
| DataCombineDeb.UnknownNameStops | src/glvd/cli/data/combine_deb.py:74-77 | an unknown severity name in V3.1 gives no severity, without looking at V3.0 |
| DataCombineDeb.V30Fallback | src/glvd/cli/data/combine_deb.py:70-73 | without usable V3.1 metrics the V3.0 metrics alone decide |
| DataCombineDeb.NoMetrics | src/glvd/cli/data/combine_deb.py:69-78 | a record without metrics, or with empty metrics, has no severity |
| DataCombineDeb.NotesTokens | src/glvd/cli/data/combine_deb.py:161-164 | a note written as `;`-separated tokens reads back as those tokens, stripped |
| DataCombineDeb.EntryShape | src/glvd/cli/data/combine_deb.py:166-200 | the new entry is keyed by distribution, CVE and source, carries the row's versions and flag, is UNIMPORTANT when the note says so and has the NVD severity otherwise, and its match blob has exactly the criteria, `deb` and `vulnerable` members, with `cvssSeverity` and `versionEndExcluding` only when set |
| DataCombineDeb.EntryArgsAccepted | src/glvd/cli/data/combine_deb.py:190-199 | the newer `DebCve(...)` call gives every required keyword and no unknown one, so the constructor returns the entity |
| DataCombineDeb.CriteriaParses | src/glvd/cli/data/combine_deb.py:170-179 | the criteria string parses back to the distribution's OS CPE with the source in `other` |
| DataCombineDeb.UnimportantForces | src/glvd/cli/data/combine_deb.py:161-168 | a note token `unimportant` makes the entry UNIMPORTANT whatever the NVD record says |
| DataCombineDeb.CombineDists | src/glvd/cli/data/combine_deb.py:80-106 | the streaming loop yields exactly the generator's output as defined on the stream |
| DataCombineDeb.YieldsConcrete | src/glvd/cli/data/combine_deb.py:96-106 | empty-version rows are never yielded, and each chain starts with the yielded distribution |
| DataCombineDeb.YieldsComplete | src/glvd/cli/data/combine_deb.py:98-106 | every concrete row is yielded with its chain |
| DataCombineDeb.YieldsSound | src/glvd/cli/data/combine_deb.py:98-106 | every yield is a concrete row of the stream with its chain |
| DataCombineDeb.LastFallbackTail | src/glvd/cli/data/combine_deb.py:96-97 | rows that are no fallback of a pair do not change the recorded fallback of that pair |
| DataCombineDeb.LastFallbackUnique | src/glvd/cli/data/combine_deb.py:96-97 | the only fallback of a pair is the one recorded |
| DataCombineDeb.OrderedChain | src/glvd/cli/data/combine_deb.py:84-89 | in the query's order every fallback a concrete row can use comes before it, so its chain holds the fallback of the whole stream |
| DataCombineDeb.JoinHas | src/glvd/cli/data/combine_deb.py:41-58 | an advisory about a source of the distribution, recorded for a distribution of the chain, whose CVE has an NVD record, is joined |
| DataCombineDeb.BuiltKeyed | src/glvd/cli/data/combine_deb.py:191 | every new entry sits under its own key in the distribution |
| DataCombineDeb.BuildEntries | src/glvd/cli/data/combine_deb.py:145-200 | the loop over the join fails exactly when some row's NVD record fails the severity extraction, and otherwise holds one entry per key built from a row with that key |
| DataCombineDeb.CombineUpdate | src/glvd/cli/data/combine_deb.py:108-128 | a stored row of the distribution whose key has a new entry takes that entry's payload; every other row stays; what is left of the new entries is returned |
| DataCombineDeb.CombineInsert | src/glvd/cli/data/combine_deb.py:130-137 | every leftover entry is added under its key, and the stored rows stay |
| DataCombineDeb.AppliedTable | src/glvd/cli/data/combine_deb.py:202-203 | both passes keep `deb_cve` keyed and its foreign keys resolving |
| DataCombineDeb.Reconcile | src/glvd/cli/data/combine_deb.py:202-203 | update then insert gives the reconciled table |
| DataCombineDeb.CombineDist | src/glvd/cli/data/combine_deb.py:144-203 | one distribution: it fails exactly when its join has a failing row, and then nothing changes; otherwise the entries are built from its join and reconciled |
| DataCombineDeb.YieldsIn | src/glvd/cli/data/combine_deb.py:93-106 | every yielded distribution is one of the store's |
| DataCombineDeb.YieldsDistinct | src/glvd/cli/data/combine_deb.py:93-106 | distinct stream ids give distinct yielded ids |
| DataCombineDeb.CombinedSnoc | src/glvd/cli/data/combine_deb.py:144-203 | one more distribution applies its passes to the table left by the others |
| DataCombineDeb.Combine | src/glvd/cli/data/combine_deb.py:139-214 | the whole transaction fails exactly when some distribution's join has a failing row and then rolls `deb_cve` back; otherwise every distribution's entries are built from its join and all of them are reconciled in turn |
| DataCombineDeb.AppliedRows | src/glvd/cli/data/combine_deb.py:119-137 | the passes add the new entries, give a stored row with an entry that entry's payload, and delete nothing, not even a row that lost its entry |
| DataCombineDeb.AppliedIdempotent | src/glvd/cli/data/combine_deb.py:119-137 | reconciling again with the same entries changes nothing |
| DataCombineDeb.AppliedAt | src/glvd/cli/data/combine_deb.py:119-137 | which keys the reconciled table has, and each key's row |
| DataCombineDeb.AppliedCommute | src/glvd/cli/data/combine_deb.py:144-203 | the passes of two different distributions commute, so the stream order between distributions does not matter |
| DataCombineDeb.CombinedKeeps | src/glvd/cli/data/combine_deb.py:123-125 | the whole pass never deletes, and a distribution that is not yielded keeps its rows |
| DataCombineDeb.CombinedHas | src/glvd/cli/data/combine_deb.py:144-203 | with distinct ids every new entry of every distribution ends up stored with its payload |
| DataCombineDeb.FallbackApplies | src/glvd/cli/data/combine_deb.py:84-150 | an advisory recorded only for the fallback of a concrete distribution (its own vendor and product or, for Garden Linux, Debian's), about a source the distribution ships and a CVE with an NVD record, gives that distribution a `deb_cve` row |
| CliCombineDeb.EmptyFirst | src/glvd/cli/combine_deb.py:55-59 | ordered by version, every empty-version row comes before every other row |
| CliCombineDeb.CombineDists | src/glvd/cli/combine_deb.py:51-73 | the streaming loop yields exactly the generator's output as defined on the stream |
| CliCombineDeb.YieldsSameVendor | src/glvd/cli/combine_deb.py:66-73 | every yield is a concrete row with its chain: itself and at most one fallback of the same vendor and product, so Garden Linux never falls back to Debian |
| CliCombineDeb.LastFallbackIs | src/glvd/cli/combine_deb.py:66-67 | a recorded fallback is a fallback row of the stream |
| CliCombineDeb.YieldsComplete | src/glvd/cli/combine_deb.py:68-73 | every concrete row is yielded with its chain |
| CliCombineDeb.YieldsIn | src/glvd/cli/combine_deb.py:63-73 | every yielded distribution is one of the store's |
| CliCombineDeb.YieldsDistinct | src/glvd/cli/combine_deb.py:63-73 | distinct stream ids give distinct yielded ids |
| CliCombineDeb.OrderedChain | src/glvd/cli/combine_deb.py:55-70 | in version order a concrete row's chain holds the fallback of the whole stream |
| CliCombineDeb.JoinHas | src/glvd/cli/combine_deb.py:31-49 | an advisory about a source of the distribution, recorded for a chain distribution, is joined, with no NVD record needed |
| CliCombineDeb.EntryRaises | src/glvd/cli/combine_deb.py:120-139 | the `DebCve(...)` call gives six keywords and leaves out exactly the required `cvss_severity` and `deb_version_fixed`, so building the entity of any joined row raises `TypeError`; the blob built before it holds just the criteria and the flag |
| CliCombineDeb.CriteriaParses | src/glvd/cli/combine_deb.py:120-128 | the criteria string parses back to the distribution's OS CPE |
| CliCombineDeb.BuildEntries | src/glvd/cli/combine_deb.py:112-139 | the loop over the join fails exactly when some row's entity cannot be built, with that error; otherwise it holds one entry per key, each built from a row with that key |
| CliCombineDeb.CombineDist | src/glvd/cli/combine_deb.py:111-142 | one distribution raises `TypeError` exactly when its join has a row; otherwise no entry is built; `deb_cve` is unchanged either way |
| CliCombineDeb.ReconcileTable | src/glvd/cli/combine_deb.py:75-104 | the update and insert passes give the reconciled table and keep its keys and foreign keys |
| CliCombineDeb.Combine | src/glvd/cli/combine_deb.py:106-153 | the pass raises `TypeError` exactly when some yielded distribution's join has a row, so nothing is committed; otherwise every distribution's entries are empty; `deb_cve` never changes |
| CliCombineDeb.JoinedRaises | src/glvd/cli/combine_deb.py:114-139 | a joined advisory is a join row keyed by its CVE and source, and building its entity raises `TypeError` before the key is stored |
| CliCombineDeb.ChainHasFallback | src/glvd/cli/combine_deb.py:55-71 | in version order the chain of a concrete row holds the only fallback of its vendor and product |
| CliCombineDeb.FallbackApplies | src/glvd/cli/combine_deb.py:55-139 | an advisory recorded only for the fallback of a concrete distribution's own vendor and product, about a source it ships, is joined for that distribution in version order, so the pass raises instead of writing its row |
| CliCombineDeb.FallbackAt | src/glvd/cli/combine_deb.py:111-139 | an advisory of a chain distribution about a source a yielded distribution ships makes the pass raise |
| CombineAll.MatchesExact | src/glvd/cli/combine_all.py:53-58 | over a read order that lists every `deb_cve` row once, the aggregate for a CVE holds exactly the match blobs of that CVE's rows |
| CombineAll.MatchesCount | src/glvd/cli/combine_all.py:53-58 | over such an order the aggregate has one blob per row of the CVE: its length is the number of rows, and each blob occurs as often as rows carry it |
| CombineAll.MatchesEmpty | src/glvd/cli/combine_all.py:53-58 | over such an order the aggregate is empty exactly when the CVE has no `deb_cve` row |
| CombineAll.GroupsExact | src/glvd/cli/combine_all.py:56-60 | a CVE is grouped exactly when it has an NVD record and at least one `deb_cve` row |
| CombineAll.NewDataShape | src/glvd/cli/combine_all.py:99-105 | the new document is the NVD document with exactly one OR block over the CVE's matches appended to its configurations and nothing else changed; it fails only when the document is not an object or its configurations are not a list |
| CombineAll.BuildEntries | src/glvd/cli/combine_all.py:94-110 | the loop fails with `AttributeError` exactly when some grouped document cannot take the block, and otherwise holds one entry per grouped CVE with its new document |
| CombineAll.CombineUpdate | src/glvd/cli/combine_all.py:64-80 | a stored record with a new entry takes its document, one without a new entry is deleted, and the new entries not stored are returned |
| CombineAll.CombineInsert | src/glvd/cli/combine_all.py:82-88 | every leftover entry is added and the stored records stay |
| CombineAll.ReconciledRows | src/glvd/cli/combine_all.py:64-88 | afterwards the stored CVE ids are exactly the new keys, each with its new document |
| CombineAll.ReconciledIdempotent | src/glvd/cli/combine_all.py:64-88 | a second pass with the same new entries changes nothing |
| CombineAll.Reconcile | src/glvd/cli/combine_all.py:112-113 | update then insert gives the reconciled table |
| CombineAll.Combine | src/glvd/cli/combine_all.py:90-124 | over a read order listing every `deb_cve` row once, the pass fails exactly when some grouped document cannot take the block, leaving `all_cve` as it was; otherwise `all_cve` becomes the reconciled table of the entries built from the grouped rows |
| DataIngestNvd.Field | src/glvd/cli/data/ingest_nvd.py:59-62 | indexing a decoded value succeeds exactly on an object holding the key; a missing key is a `KeyError`, a non-object a `TypeError` |
| DataIngestNvd.RecordOf | src/glvd/cli/data/ingest_nvd.py:58-64 | a record reads back only from an object with a `cve` object whose `lastModified` parses and whose `id` is a string |
| DataIngestNvd.Upsert | src/glvd/cli/data/ingest_nvd.py:61-73 | the upsert adds the record's id and touches no other; a new id is inserted; a stored row is overwritten exactly when its `last_mod` differs and otherwise stays |
| DataIngestNvd.UpsertIdempotent | src/glvd/cli/data/ingest_nvd.py:61-73 | upserting a record twice is upserting it once |
| DataIngestNvd.UpsertTable | src/glvd/cli/data/ingest_nvd.py:61-73 | the table stays keyed by CVE id |
| DataIngestNvd.UpsertAllTable | src/glvd/cli/data/ingest_nvd.py:53-73 | a successful batch keeps the table keyed by CVE id |
| DataIngestNvd.UpsertAllParsed | src/glvd/cli/data/ingest_nvd.py:58-60 | a successful batch read every one of its records |
| DataIngestNvd.UpsertAllKey | src/glvd/cli/data/ingest_nvd.py:58-73 | after a successful batch an id is stored exactly when it was stored before or is one of the batch's ids |
| DataIngestNvd.InsertCve | src/glvd/cli/data/ingest_nvd.py:53-73 | the loop upserts the records of a page in turn; a malformed record raises, with the rows before it upserted |
| DataIngestNvd.UpsertAllErr | src/glvd/cli/data/ingest_nvd.py:58-60 | once a prefix of the batch fails, the whole batch fails with the same error |
| DataIngestNvd.Page | src/glvd/cli/data/ingest_nvd.py:90-95 | a response without `totalResults` raises; a falsy `vulnerabilities` ends the paging; a page holds at least one record |
| DataIngestNvd.PagingStep | src/glvd/cli/data/ingest_nvd.py:83-105 | one step: the page at the offset decides, and a page means the offset is below the end of the data |
| DataIngestNvd.FetchImpl | src/glvd/cli/data/ingest_nvd.py:75-105 | the loop starts at index 0, upserts each page and advances by its length until the first empty page, as the paging function defines |
| DataIngestNvd.MaxStep | src/glvd/cli/data/ingest_nvd.py:112-113 | taking one more stamp into account keeps the larger of the two |
| DataIngestNvd.MaxLastMod | src/glvd/cli/data/ingest_nvd.py:112-113 | the result is the largest stored `last_mod`, or none for an empty table |
| DataIngestNvd.PlanFor | src/glvd/cli/data/ingest_nvd.py:115-128 | a full fetch happens exactly when nothing is stored or the newest modification is at least 60 days old; the window then starts 7 days before now, and otherwise 7 days before that modification |
| DataIngestNvd.WindowLength | src/glvd/cli/data/ingest_nvd.py:115-128 | with the stored modification no later than now, the window is at least 7 and less than 67 days long |
| DataIngestNvd.FetchCve | src/glvd/cli/data/ingest_nvd.py:107-143 | the full fetch when planned, then the windowed fetch up to now; a failure rolls `nvd_cve` back |
| WebV1Cves.GetCveId | src/glvd/web/v1_cves.py:93-103 | the stored document with 200 exactly when the CVE is stored, and `Not found` with 404 otherwise |
| WebV1Cves.LikeAll | src/glvd/web/v1_cves.py:118-127 | the pattern `%` matches every string |
| WebV1Cves.LikeLiteral | src/glvd/web/v1_cves.py:42-76 | a pattern without `%`, `_` or `\\` matches exactly itself |
| WebV1Cves.SelectedCount | src/glvd/web/v1_cves.py:30-90 | read without repeats, each selected row appears once and nothing else appears |
| WebV1Cves.HitsMeaning | src/glvd/web/v1_cves.py:48-82 | every row the statement selects is in the result exactly once, nothing else is, and CVE ids never decrease |
| WebV1Cves.HitsRows | src/glvd/web/v1_cves.py:30-90 | every row of the result is one the statement selects |
| WebV1Cves.Documents | src/glvd/web/v1_cves.py:51-82 | the aggregate holds the selected rows' documents in order, and `[]` when none is selected |
| WebV1Cves.Bind | src/glvd/web/v1_cves.py:115-124 | an absent CPE field binds as NULL, a concrete one as its value, and the ANY marker cannot be bound |
| WebV1Cves.OrAll | src/glvd/web/v1_cves.py:118-127 | an absent or empty field gives the match-all pattern, any other concrete value itself |
| WebV1Cves.Choose | src/glvd/web/v1_cves.py:114-128 | the version statement exactly when the CPE names a source and `debVersionEnd` is given, else the vulnerable statement with the source pattern defaulting to `%`; binding fails exactly on an ANY field, and a pattern ending in a lone escape is taken to fail the statement (see "## Left out") |
| WebV1Cves.GetCpeName | src/glvd/web/v1_cves.py:106-134 | an absent `cpeName` is a `TypeError`, a malformed one a `ValueError`, a non-Debian CPE gets 400, and otherwise the chosen statement's documents come back with 200 |
| WebV1Cves.MissingVersionMatchesAll | src/glvd/web/v1_cves.py:118-126 | without a version in the CPE every distribution of the vendor and product qualifies |
| WebV1Cves.SourceWithoutVersion | src/glvd/web/v1_cves.py:114-128 | with a source but no `debVersionEnd`, the vulnerable statement keeps exactly that source's vulnerable rows |
| WebNvd.NvdCveDeb | src/glvd/web/nvd.py:30-55 | without a `cveId` no statement is bound (`UnboundLocalError`); an unknown CVE gives no vulnerabilities; a CVE without `deb_cve` rows comes back as stored; one with rows comes back with the same block `combine-all` adds |
| WebNvd.RowsResults | src/glvd/web/nvd.py:13-49 | at most one result, the wrapped document of a known CVE |
| WebNvd.BlockLists | src/glvd/web/nvd.py:17-46 | the added block lists the match blob of every `deb_cve` row of the CVE and nothing else |
| ClientCveApt.ChoicesList | src/glvd/cli/client/cve_apt.py:27-30 | the threshold's choices are the five member names other than `NONE`, in enum order |
| ClientCveApt.ChoicesMeaning | src/glvd/cli/client/cve_apt.py:27-44 | a member's name is a choice exactly when the member is not `NONE`, the default `LOW` is a choice, and every choice names a member |
| ClientCveApt.OriginSourcesExact | src/glvd/cli/client/cve_apt.py:57-59 | an origin contributes a source exactly when its name is non-empty, and the source carries the origin, codename and the version's source package |
| ClientCveApt.SourcesExact | src/glvd/cli/client/cve_apt.py:55-59 | a source is collected exactly when some installed version has an origin with a non-empty name that gives it |
| ClientCveApt.GetSources | src/glvd/cli/client/cve_apt.py:50-61 | the loops over the cache and the origins collect exactly the sources so defined |
| ClientCveApt.SourceLessOrder | src/glvd/cli/client/cve_apt.py:67 | Python's order on four-string tuples is a strict total order |
| ClientCveApt.LeastExists | src/glvd/cli/client/cve_apt.py:67 | a finite non-empty set of sources has a least element |
| ClientCveApt.LeastUnique | src/glvd/cli/client/cve_apt.py:67 | the least element is unique |
| ClientCveApt.LeastBelow | src/glvd/cli/client/cve_apt.py:67 | the least element is below every other element |
| ClientCveApt.SortedSourcesSpec | src/glvd/cli/client/cve_apt.py:67 | the sorted list holds every source exactly once, in strictly increasing order |
| ClientCveApt.EntrySplit | src/glvd/cli/client/cve_apt.py:66 | fields without `_` can be read back from their entry |
| ClientCveApt.RequestDataMeaning | src/glvd/cli/client/cve_apt.py:63-69 | the body lists one entry per source, in the sources' order |
| ClientCveApt.RequestDataDistinct | src/glvd/cli/client/cve_apt.py:63-69 | when no field contains `_` the entries are pairwise distinct, each splitting back into its source |
| ClientCveApt.Client.RequestParams | src/glvd/cli/client/cve_apt.py:71-74 | the parameters hold just the threshold, by a name that reads back as the same member |
| ClientCveApt.Client.RequestBody | src/glvd/cli/client/cve_apt.py:63-69 | the body is built from the sources the cache gives |
| ReleaseCheck.CalverAnySeparator | scripts/release-consistency-check.py:31 | the pattern does not check its separators: any date in digits with two non-newline separators matches, also with a final newline |
| ReleaseCheck.GreatestSpec | scripts/release-consistency-check.py:52-53 | there is no greatest string exactly for the empty list; otherwise it is in the list and no element is greater |
| ReleaseCheck.LatestMeaning | scripts/release-consistency-check.py:44-53 | there is no latest tag exactly when no tag matches the pattern; otherwise it is a matching tag of the listing and no matching tag is greater |
| ReleaseCheck.GreaterOrder | scripts/release-consistency-check.py:52 | the descending order of the sort is a strict total order |
| ReleaseCheck.LatestCalverTag | scripts/release-consistency-check.py:44-53 | filtering, sorting in descending order and taking the first gives the latest tag |
| ReleaseCheck.AllSame | scripts/release-consistency-check.py:55-56 | true exactly when all tags are equal, so also for no tags |
| ReleaseCheck.PlatformOf | scripts/release-consistency-check.py:74 | an entry is skipped exactly when it has no `platform`. Otherwise its architecture is taken, or `None` when it is missing. A list or dictionary architecture cannot be hashed into the set, so it raises `TypeError`. A non-object entry with `platform` raises `AttributeError`, and membership in a scalar raises `TypeError` |
| ReleaseCheck.PlatformsMember | scripts/release-consistency-check.py:74 | an architecture is in the set exactly when some entry names it |
| ReleaseCheck.ImageExists | scripts/release-consistency-check.py:58-75 | a failed fetch is `False`; a non-object manifest raises; a manifest without `manifests` is `False` |
| ReleaseCheck.ImagePresent | scripts/release-consistency-check.py:73-75 | with `manifests` a list on which the comprehension raises nothing, the image is present exactly when some entry declares amd64 and some entry declares arm64 |
| ReleaseCheck.ImageRaises | scripts/release-consistency-check.py:73-75 | with `manifests` a list on which the comprehension raises, the check raises that same error, because nothing there is guarded |
| ReleaseCheck.UnhashableRaises | scripts/release-consistency-check.py:74 | entries for amd64 and arm64 beside one whose architecture is a list: the check raises `TypeError` instead of reporting the image present |
| ReleaseCheck.RSplitColon | scripts/release-consistency-check.py:111 | the text before and after the last colon, which rejoin to the reference; without a colon the unpacking raises `ValueError` |
| ReleaseCheck.SplitImage | scripts/release-consistency-check.py:110-111 | a reference built as name, colon and colon-free tag splits back into that name and tag |
| ReleaseCheck.LatestTags | scripts/release-consistency-check.py:85-91 | one latest tag per repository, in order |
| ReleaseCheck.LatestTagsMeaning | scripts/release-consistency-check.py:85-91 | the tags exist exactly when every listing succeeds and has a matching tag, and each is that repository's latest |
| ReleaseCheck.ChosenMeaning | scripts/release-consistency-check.py:78-96 | the checked version always matches the pattern; with an argument it is the argument when that matches, without one it is the common latest tag of all repositories |
| ReleaseCheck.StatusMeaning | scripts/release-consistency-check.py:77-122 | the exit status is 0 when the version is settled, every repository has it and every image is present; 2 when only images are missing; 1 for a malformed version, a repository without a tag, disagreeing tags, a repository missing the version or an exception |
| ReleaseCheck.ImagesExistMeaning | scripts/release-consistency-check.py:107-115 | the image loop finishes with every image present exactly when each reference splits and each manifest lists both architectures |
| ReleaseCheck.DockerImageTagExists | scripts/release-consistency-check.py:58-75 | the method computes what the manifest check defines for the registry's answer |
| ReleaseCheck.ChooseVersion | scripts/release-consistency-check.py:78-96 | the first part of `main` computes the chosen version, with `None` for its exits |
| ReleaseCheck.CheckImages | scripts/release-consistency-check.py:107-115 | the image loop computes what the loop function defines |
| ReleaseCheck.CheckRelease | scripts/release-consistency-check.py:77-122 | `main` exits with the status the script's function defines |
| ReleaseCheck.LatestTagsNone | scripts/release-consistency-check.py:86-90 | a repository without a tag ends the loop without result |
| ReleaseCheck.ImagesExistErr | scripts/release-consistency-check.py:109-112 | an exception in the image loop ends it with that exception |
| UnreleasedChanges.NumBound | scripts/unreleased-changes.py:52 | a numeral of n digits is below ten to the n |
| UnreleasedChanges.NumOrder | scripts/unreleased-changes.py:48-52 | on numerals of equal length string order is numeric order |
| UnreleasedChanges.ParseDate | scripts/unreleased-changes.py:52 | a date parses only with dots as separators, a month from 1 to 12 and a day of that month; otherwise `ValueError` |
| UnreleasedChanges.DateOrder | scripts/unreleased-changes.py:48-53 | for tags whose date parses, date order is string order, and the date determines the tag |
| UnreleasedChanges.TagOrder | scripts/unreleased-changes.py:48 | two dotted tags compare by year, then month, then day digits |
| UnreleasedChanges.LatestByDate | scripts/unreleased-changes.py:52-53 | the latest tag is one whose date parses |
| UnreleasedChanges.LatestByDateSpec | scripts/unreleased-changes.py:52-53 | there is none exactly for no tags; otherwise it is a tag of the list with no later date among them, and the last of the equal dates |
| UnreleasedChanges.DateLessOrder | scripts/unreleased-changes.py:52 | date comparison is transitive and total |
| UnreleasedChanges.LatestReleaseMeaning | scripts/unreleased-changes.py:43-53 | no release tag exactly when no tag passes the filter; `ValueError` exactly when some candidate's date does not parse; otherwise a candidate with the latest date |
| UnreleasedChanges.OtherSeparatorRaises | scripts/unreleased-changes.py:48-52 | a candidate such as `2024-01-15` passes the filter and makes the whole lookup raise |
| UnreleasedChanges.KeyedOrder | scripts/unreleased-changes.py:52 | the sort key with its tag is a strict total order |
| UnreleasedChanges.GetLatestReleaseTag | scripts/unreleased-changes.py:43-53 | filtering, sorting by date and taking the last gives the latest release tag |
| UnreleasedChanges.LastIsLatest | scripts/unreleased-changes.py:52-53 | the last pair after sorting carries the tag with the latest date |
| UnreleasedChanges.LineEnd | scripts/unreleased-changes.py:88 | the length of the text before the first line boundary |
| UnreleasedChanges.FirstLine | scripts/unreleased-changes.py:88 | the first line of a message, a prefix free of line breaks; an empty message raises `IndexError` |
| UnreleasedChanges.Summary | scripts/unreleased-changes.py:88 | the seven-character sha prefix, a space and the first message line; an empty message raises |
| UnreleasedChanges.Cut | scripts/unreleased-changes.py:85-87 | the position of the first commit whose sha is the parent, or the number of commits |
| UnreleasedChanges.UnreleasedMeaning | scripts/unreleased-changes.py:84-89 | one line per commit before the first whose sha is the tag's parent, in order; all commits without a parent |
| UnreleasedChanges.UnreleasedFails | scripts/unreleased-changes.py:85-88 | the loop raises exactly when a commit it reaches has an empty message |
| UnreleasedChanges.TaggedCommitListed | scripts/unreleased-changes.py:68-88 | the loop stops at the tagged commit's parent, so the tagged commit itself is reported as unreleased and nothing older is |
| UnreleasedChanges.GetUnreleasedCommits | scripts/unreleased-changes.py:79-89 | the loop gives the unreleased lines joined by newlines, or the error the loop raises |
| UnreleasedChanges.UnreleasedStep | scripts/unreleased-changes.py:85-88 | a commit that does not end the loop puts its line in front of the rest, or raises |
| UnreleasedChanges.PrefixedNone | scripts/unreleased-changes.py:86-87 | where the loop ends, the lines gathered so far are the whole outcome |
| UnreleasedChanges.ReportLines | scripts/unreleased-changes.py:89 | splitting the report at newlines gives the lines back |
| ReleaseNotes.CveLines | scripts/gardenlinux-release-notes-md.py:47-48 | one line per CVE |
| ReleaseNotes.CveLinesAt | scripts/gardenlinux-release-notes-md.py:47-48 | each CVE's line is at its position |
| ReleaseNotes.LinesCount | scripts/gardenlinux-release-notes-md.py:35-50 | the output has the header, one line per package and one per fixed CVE |
| ReleaseNotes.StartStep | scripts/gardenlinux-release-notes-md.py:39-48 | a package's upgrade line and CVE lines come before the next package's lines |
| ReleaseNotes.LineAt | scripts/gardenlinux-release-notes-md.py:35-50 | the first line is the header, each package's upgrade line is followed by the lines of its CVEs in order |
| ReleaseNotes.GenerateFormattedOutput | scripts/gardenlinux-release-notes-md.py:35-50 | the loop collects the lines and joins them with newlines |
| ImageTags.RunEnd | scripts/update-image-tags.py:14 | the end of the colon-free run from a position: no colon before it, a colon at it unless the text ends |
| ImageTags.MatchEnd | scripts/update-image-tags.py:14-54 | a match at the start consists of the pattern's prefix, a non-empty colon-free run and `:latest`, not followed by a word character |
| ImageTags.Subn | scripts/update-image-tags.py:13-15 | a count of zero leaves the text unchanged |
| ImageTags.SubnNone | scripts/update-image-tags.py:13-17 | nothing is replaced exactly when the pattern matches at no position |
| ImageTags.RunEndAt | scripts/update-image-tags.py:14 | the run from a position ends at the first colon after it |
| ImageTags.MatchAt | scripts/update-image-tags.py:14 | a match at the start, given by the positions of its parts |
| ImageTags.PinOne | scripts/update-image-tags.py:13-15 | a reference of prefix, colon-free run and `:latest` followed by the end or a non-word character becomes the prefix, the run, a colon and the tag, counted once, and the rest of the text is rewritten on its own |
| ImageTags.PinStep | scripts/update-image-tags.py:13-15 | one replacement at the start of the text, with the rest rewritten on its own |
| ImageTags.SubnMatch | scripts/update-image-tags.py:13-15 | a match at the start is replaced and scanning resumes after it |
| ImageTags.KeepsLongerTag | scripts/update-image-tags.py:14 | a `:latest` followed by a word character, as in `:latest2`, is not matched |
| ImageTags.Rewritten | scripts/update-image-tags.py:8-22 | only the named file changes, to its rewritten content |
| ImageTags.RewriteAll | scripts/update-image-tags.py:72-73 | rewriting a list of files creates and removes none |
| ImageTags.RewriteAllMeaning | scripts/update-image-tags.py:72-73 | with distinct paths each listed file is rewritten once and every other file is kept |
| ImageTags.Files.constructor | scripts/update-image-tags.py:8-10 | the file system holds the given files |
| ImageTags.Files.UpdateFile | scripts/update-image-tags.py:8-22 | the count is the number of replacements; the file holds its rewrite, and nothing changes when nothing was replaced |
| ImageTags.Files.UpdateScript | scripts/update-image-tags.py:32-61 | a script is rewritten when it exists and skipped otherwise |
| ImageTags.Files.UpdateYamlFiles | scripts/update-image-tags.py:72-73 | the listed files are rewritten in order with the `image:` pattern |
| ImageTags.IfExists | scripts/update-image-tags.py:33-49 | a missing file is skipped, and no file is created |
| ImageTags.YamlInExact | scripts/update-image-tags.py:26-29 | the paths from a directory are exactly its `.yaml` files joined to it |
| ImageTags.YamlPathsExact | scripts/update-image-tags.py:25-29 | the walk yields a path exactly when a walked directory lists a `.yaml` file under it |
| ImageTags.FindYamlFiles | scripts/update-image-tags.py:25-29 | the nested loops collect what the generator yields |
| ImageTags.PinnedMeaning | scripts/update-image-tags.py:64-82 | after the three passes no file is created or removed, a walked YAML file holds its `image:` rewrite, each script that exists and is not walked holds its own rewrite, and every other file is unchanged |
| ImageTags.PinRelease | scripts/update-image-tags.py:64-82 | without a tag argument the exit status is 1 and nothing changes; otherwise the status is 0 and the files are pinned |
| RootImageTags.RootPinnedMeaning | update-image-tags.py:31-46 | no file is created or removed, a walked YAML file holds its `image:` rewrite, the deploy script, when it exists and is not walked, holds its `image:` rewrite, and every other file is unchanged |
| RootImageTags.PinRelease | update-image-tags.py:31-46 | without a tag argument the exit status is 1 and nothing changes; otherwise the status is 0 and the walked YAML files and the deploy script are pinned |

## Left out

- Network and process I/O: the NVD and GitHub HTTP requests, retry sessions, `asyncio.sleep`, the `oras` subprocess and `json.loads` of fetched text. Fetched data, decoded JSON, tag listings, manifests and API pages are inputs (`Listing`, `Registry`, `Server`), and a failed fetch or decode is one value of that input.
- File I/O: reading the advisory file and the `Sources` file, and reading and writing the deployment files. File contents are inputs and a `Files` map; `os.walk` is an input walk (directory and file names, in order); `os.path.exists` is key membership.
- Printing and logging are left out; they do not change what the programs compute. `sys.exit` is an exit status.
- The HTTP client `src/glvd/cli/client/cve.py`, the Quart application setup, argument parsing and the CLI registry, and the test fixtures are not part of this model.
- `src/glvd/data/debsrc.py` (the `Sources` index parser) is not part of this model; a parsed file is an abstract map from source package to version.
- `CpeOtherDebian` and `Cpe.is_debian` are not part of this model. The `other` field of a Debian CPE is rendered as `deb_source=<source>`, which the formatter escapes to `deb_source\=<source>`. `is_debian` and the `deb_source` lookup are inputs of `WebV1Cves.GetCpeName`.
- The Debian version comparison (Debian Policy section 5.6.12) is an uninterpreted strict order `lt`; nothing is proved that depends on its definition.
- SQLAlchemy sessions, async streaming, `create_all` and commits. Tables are maps keyed by natural key. A query is a function over them. A stream order the SQL does not fix is a parameter, or is left open.
- DataCombineDeb.BuildEntries: when several join rows share a (CVE, source) key, the row that wins depends on the SQL row order; the contract says only that the entry is built from some row with that key.
- CombineAll.MatchesExact: `array_agg` order is the order the database reads `deb_cve`, a parameter required to list every row once; the lemmas state which blobs are aggregated and how often, not their order. The same holds for CombineAll.Combine and WebNvd.NvdCveDeb.
- Datetime handling: `datetime.fromisoformat`, time zones and `timedelta` are integer seconds, with the ISO parser as a parameter `ts`.
- CVSS scores are Dafny reals rather than binary floating point; the band boundaries are exact.
- Character classes: `\d`, `\w`, the word boundary `\b` and `str.isdigit` are ASCII only. For example, the model rewrites `:latestä`, which Python leaves alone; Unicode digits and letters that Python also accepts are not modelled.
- DataIngestNvd.FetchImpl: requires (`ServerEnds`) that the server returns an empty page at some offset; against a server that never does, the source loop runs forever, which a terminating method cannot express. DataIngestNvd.Paging and DataIngestNvd.FetchCve require the same.
- WebV1Cves.HitsMeaning: `ORDER BY cve_id` uses the database collation; the model orders by code points (`Text.Less`), and breaks ties on source and distribution, an order the SQL does not fix.
- WebV1Cves.KeyLess: the same code-point order and tie-break.
- CliCombineDeb.VersionOrdered: `ORDER BY cpe_version` uses the database collation; the model orders by code points. `CliCombineDeb.EmptyFirst` holds under any collation, because the empty string sorts first in every one. So the recorded fallback is the same; the code-point order decides only the order in which the concrete distributions are yielded.
- WebV1Cves.Choose: a LIKE pattern that ends in a lone `\` makes the statement fail outright with `DatabaseError`. PostgreSQL binds such a pattern and raises only when a comparison reaches the final escape. A comparison that fails earlier is simply false. The query planner decides which rows are compared and in which order the conditions are tested, so the model does not capture the replies, possibly `[]` with 200, that PostgreSQL gives when no comparison gets that far.
- WebV1Cves.GetCpeName: inherits that approximation from `Choose`; for such a pattern in the version or the source it promises `DatabaseError` where PostgreSQL may answer 200.
- WebNvd.NvdCveDeb: the model gives the result `tests/web/test_nvd.py` expects, the NVD document with one OR block of the CVE's match blobs. As written, the statement groups by `nvd_cve.data` and removes NULL from an aggregate of `deb_cve.data_cpe_match`. The ORM maps both columns to the generic `JSON` type, which is PostgreSQL `json`. `json` has no equality operator, so against a schema created from that mapping the statement fails for every `cveId`. The model assumes columns that can be compared, such as `jsonb`.
- ReleaseNotes.GenerateFormattedOutput: the release document is taken to be well typed: a `packageList` of packages with string fields and a list of CVE ids. The `KeyError` for a missing key and the `TypeError` for a value that cannot be iterated are not modelled. Neither is the `str()` rendering of a field that is not a string (a null name prints `None`), nor the iteration of a truthy non-list `fixedCves` (a string gives one line per character).
- Database.Store: the columns declare `onupdate=func.now()` for `last_mod`, so the database refreshes the stamp when an update is flushed. The model's stored rows keep the stamp `merge` left. Nothing modelled reads `last_mod` after such an update.
- tests/cli/test_combine_deb.py:48-75 expects `src/glvd/cli/combine_deb.py` to write rows with a severity and a `deb` blob; that file's `DebCve(...)` call lacks two required arguments, so it raises `TypeError` instead, and the model follows the code.
- Dictionary iteration order: where the code iterates over a dict whose order depends on insertion history (`file.values()`, codename buckets), the order is an explicit parameter that enumerates the keys.
- Object identity and aliasing between ORM entities are not modelled; an entity is the row it was loaded from.
- ImageTags.PinRelease: requires that the tag contain no backslash, because `re.subn` would read a backslash in `\1:<tag>` as a template escape; replacement-template semantics are not modelled.
- RootImageTags.PinRelease: requires that the tag contain no backslash, for the same reason.
- ImageTags.PinRelease: requires that every path the walk yields be a file of the file system, because opening a missing file raises and that exception is not modelled.
- RootImageTags.PinRelease: requires the same of the walk.
- UnreleasedChanges.GetUnreleasedCommits: resolving the tag's parent sha (the tag reference, the annotated-tag dereference and the commit's parents) is an input `parent`; the HTTP lookups behind it are left out.
- ReleaseCheck.CheckRelease: both tag fetches of a repository (latest-tag lookup and the later membership check) see the same listing.
- tests/data/test_dist_cpe.py:61 expects Garden Linux version `1443` to map to `1443.9`; `src/glvd/data/dist_cpe.py:65-71` maps the codename to itself, and the model follows the code.
