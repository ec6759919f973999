# Race results downloader — a verified model of the scrapers

`race_results_downloader` takes the URL of a race on one of four timing sites. It picks the
scraper for the URL's host, and the scraper walks the site's pages (or its JSON services) into a
flat list of result rows: one dictionary per finisher, each carrying the race name and the
event (distance) name beside the site's own columns. This project models that core in Dafny:

- the scraper factory, which picks a site by hostname (`factory.dfy`, module `ScraperFactory`);
- the four site scrapers:
  - Finishtime, with its event list or drop-down, pager and result grids (`finishtime.dfy`);
  - Bouttime, with one table and names that carry a license number (`bouttime.dfy`);
  - live.ultimate.dk, with its distance drop-down and data pages (`ultimatedk.dfy`);
  - MobiiElite, with GUID race ids, display layouts, a JSON results engine, the column
    projection, the sort and the session id (`mobiielite.dfy`);
- the library behaviour those scrapers rely on, written out as far as the scrapers use it:
  - `str.split`, `strip`, `capitalize`, `lower` and the header normalisation (`text.dfy`);
  - `str(int)`, `int(str)` and hexadecimal formatting (`numbers.dfy`);
  - the urlparse hostname, `parse_qs`, `urlencode` and `dict.update` (`urls.dfy`);
  - Python's stable `sorted` on tuple keys (`sorting.dfy`);
  - header maps, cell labelling and stamping, shared by the HTML scrapers (`tables.dfy`);
  - `Option`, `Result` and the error values (`wrappers.dfy`).

The model treats I/O and exceptions as follows:

- **Downloads are oracles.** A downloaded page is the parsed document reduced to the elements a
  scraper reads, and a failed download is `None`. The JSON services of MobiiElite are functions
  from the request to the decoded response.
- **Uncaught exceptions crash.** A Python exception that escapes `get_results` is
  `Err(Crash(reason))`; a failed download that the code checks for gives `Ok([])`.
- **Caught exceptions end discovery.** An exception caught inside an event or distance generator
  ends discovery there and keeps the entries already yielded, as `list()` over the generator does.

Code that updates state step by step is written as methods with loops, each proved equal to a
specification function:

- the page, event and distance loops;
- the cell labelling and stamping loops;
- the MobiiElite record, column and race-name loops;
- the MobiiElite scraper object, whose `get_results` stores the race id in a field.

The properties are proved about the specification functions:

- which hosts the factory selects (both directions);
- the round trips of the URLs the scrapers build and parse again;
- page counts read back from the pager label;
- the greedy regular expression of the Bouttime name split;
- the header normalisation;
- the MobiiElite projection, its column precedence and its time conversions;
- the sort, as a permutation that is ascending and stable;
- the race and event names every row carries;
- the four-digit hexadecimal session id.

The model keeps these behaviours of the code as they are:

- A URL without a hostname raises `AttributeError` in the factory (`.lower()` on `None`), and
  not the factory's own `ValueError` for an unknown host.
- The extractors raise on most missing page elements, for example a missing race name. These
  cases give no rows instead:
  - a failed download of the race page, in every scraper except Bouttime as written;
  - a missing Bouttime results table;
  - a Finishtime race page with neither the event list nor the event drop-down;
  - a Finishtime drop-down without a form or a form action (`_get_events` catches the error);
  - a Finishtime event page that was not downloaded, or that has no pager label, or whose label
    has no count and whose pager grid is missing or empty (0 pages);
  - a live.ultimate.dk page without the distance drop-down, and a distance page that was not
    downloaded.
- live.ultimate.dk falls back to distance id 1 only when the distance drop-down exists and has no
  `option` element at all.
- MobiiElite's `get_results` never gets `None` from its URL fix, so its "failed to fix" branch is
  dead: a URL without a race id is fixed to `/results/RaceID/None`.

## Model

| member | source | states |
|---|---|---|
| ScraperFactory.GetScraper | scrapers/scraper_factory.py:10-27 | a selected scraper keeps the URL; a netloc with an unmatched `[` or `]` makes `urlparse` raise `ValueError`; otherwise a URL without a hostname fails (`AttributeError`), and any other unknown host fails with an error naming the URL |
| ScraperFactory.WithoutWww | scrapers/scraper_factory.py:15-16 | one leading `www.` is removed and nothing else changes |
| ScraperFactory.SiteFor | scrapers/scraper_factory.py:18-25 | the site chosen has exactly the given host |
| ScraperFactory.SelectsExactly | scrapers/scraper_factory.py:13-25 | a URL selects a site if and only if it parses (its brackets match) and its lower-cased hostname is that site's host, alone or behind one `www.` |
| ScraperFactory.WithoutWwwIs | scrapers/scraper_factory.py:15-25 | removing `www.` yields a supported host exactly when the input is that host with or without `www.` |
| ScraperFactory.UnknownHostRejected | scrapers/scraper_factory.py:27 | every hostname of a URL that parses and is no site's host is refused with `Unknown scraper for URL: <url>` |
| ScraperFactory.MixedCaseHost | scrapers/scraper_factory.py:14 | upper-case letters in the hostname make no difference |
| ScraperFactory.DoubleWwwRejected | scrapers/scraper_factory.py:15-16 | only one `www.` is removed, so a doubled prefix is refused |
| ScraperFactory.SubdomainRejected | scrapers/scraper_factory.py:18-25 | matching is by equality: a subdomain of a supported host is refused |
| ScraperFactory.UnmatchedBracketRejected | scrapers/scraper_factory.py:13-14 | a supported host behind an unmatched `[` raises `Invalid IPv6 URL`, although the hostname read past the `[` is that host |
| Finishtime.FixMainPageUrlDefined | scrapers/finishtime_scraper.py:130-139 | the URL can be fixed if and only if both `CId` and `RId` are in its query, compared case-sensitively |
| Finishtime.FixMainPageUrlQuery | scrapers/finishtime_scraper.py:131-137 | the fixed URL keeps scheme, host and path, and its query holds exactly the first `CId` and the first `RId` of the original |
| Finishtime.AppendQueryParameters | scrapers/finishtime_scraper.py:142-149 | the query update as a loop over the added parameters, equal to its specification |
| Finishtime.AppendQueryLookup | scrapers/finishtime_scraper.py:142-149 | after the update each added name has its last added value as its only value, every other name keeps all its values, and scheme, host, path and fragment are kept |
| Finishtime.PageUrls | scrapers/finishtime_scraper.py:84-85 | pages 1 to n, in order, one URL each |
| Finishtime.PageUrlQuery | scrapers/finishtime_scraper.py:85 | a page URL reads back with the page number as `PageNo` and `0` as `dt`, and every other parameter unchanged |
| Finishtime.LastOfAt | scrapers/finishtime_scraper.py:115 | the greedy `.*` of the label pattern settles on the last `of <digit>` before the bound |
| Finishtime.LeadingCount | scrapers/finishtime_scraper.py:120-122 | the pattern `(\d+)` matches if and only if the text starts with a digit |
| Finishtime.LabelCount | scrapers/finishtime_scraper.py:115-117 | the label pattern matches if and only if the text has an `of ` followed by a digit, with no line break before it |
| Finishtime.LabelCountOfWritten | scrapers/finishtime_scraper.py:115-117 | a label written as `<text> of <n>` gives back `n` |
| Finishtime.NumberOfPagesFromLabel | scrapers/finishtime_scraper.py:112-117 | such a label gives `n` pages, whatever the pager grid holds |
| Finishtime.LeadingCountOfWritten | scrapers/finishtime_scraper.py:120-122 | a cell written as `<n>` followed by no further digit gives back `n` |
| Finishtime.NumberOfPagesFromGrid | scrapers/finishtime_scraper.py:112-122 | a label that does not match leaves the count to the grid: a last cell `<n>` followed by no digit gives `n` pages |
| Finishtime.BodyRows | scrapers/finishtime_scraper.py:101-109 | one row per body row, in order: row k labels the `td`/`th` cells of body row k |
| Finishtime.ResultsFromPage | scrapers/finishtime_scraper.py:93-109 | the rows of one page; a failed download, a missing grid or a grid without rows raises |
| Finishtime.PagesResultsErr | scrapers/finishtime_scraper.py:84-90 | once a page raises, the later pages change nothing |
| Finishtime.ResultsFromEvent | scrapers/finishtime_scraper.py:80-90 | the page loop equals its specification; it requests the URLs of pages 1, 2, … in order, at most N of them, N being the page count of the event page, and all N when no page raises |
| Finishtime.AnchorEvents | scrapers/finishtime_scraper.py:57-77 | the linked events in order, stopping at the first `li` without a link or an `href` |
| Finishtime.ChoiceEvents | scrapers/finishtime_scraper.py:64-77 | the drop-down events in order, stopping at the first option without a `value`; each reads the form URL with `EId` set |
| Finishtime.ChoiceEventUrl | scrapers/finishtime_scraper.py:71-73 | a drop-down event's URL carries the option's value as its only `EId` and keeps the other parameters |
| Finishtime.EventRowsErr | scrapers/finishtime_scraper.py:35-44 | once an event raises, the later events change nothing |
| Finishtime.EventStep | scrapers/finishtime_scraper.py:36-44 | the rows of one event, stamped; an unnamed event takes the race name, and an event without a URL reads the race URL |
| Finishtime.ResultsFromMain | scrapers/finishtime_scraper.py:32-44 | the event loop, equal to its specification |
| Finishtime.GetResults | scrapers/finishtime_scraper.py:16-29 | an unfixable URL or a failed download gives no rows; otherwise the results of the race page |
| Finishtime.EventRowsStamped | scrapers/finishtime_scraper.py:41-44 | every row carries the race name and the name of one of the race's events |
| Finishtime.EventRowsRead | scrapers/finishtime_scraper.py:35-44 | the event loop is the shared read-and-stamp loop over the events |
| Finishtime.EventRowsBlocks | scrapers/finishtime_scraper.py:35-44 | the rows are one block per event, in event order; block i is the rows event i read, stamped with the race name and the name of event i (the race name for an unnamed event) |
| Finishtime.ImplicitEvent | scrapers/finishtime_scraper.py:52-55 | an empty event list means one event, named after the race and read from the race URL |
| Finishtime.NoEventsNoRows | scrapers/finishtime_scraper.py:49-74 | without an event list and without a drop-down there are no rows |
| Finishtime.DropdownWithoutActionNoRows | scrapers/finishtime_scraper.py:64-77 | a drop-down without a form or form action yields no events, since the error is caught, so there are no rows |
| Finishtime.NoPagerNoRows | scrapers/finishtime_scraper.py:110-127 | an event page that was not downloaded, has no pager label, or has a label without a count and no pager cells gives no rows |
| Tables.Filter | scrapers/finishtime_scraper.py:103 | the kept cells are exactly those whose tag is `td` or `th` |
| Tables.FilterAppend | scrapers/finishtime_scraper.py:103 | filtering keeps document order: it distributes over concatenation |
| Tables.HeaderMapLookup | scrapers/finishtime_scraper.py:96-100 | a position is a column if and only if its header cell is not excluded, and the column is that cell's normalised text |
| Tables.HeaderMapExclude | scrapers/finishtime_scraper.py:99 | a header cell with class `d-xs-table-cell` removes exactly its position and renumbers nothing |
| Tables.LabelRow | scrapers/finishtime_scraper.py:104-107 | the cell loop, equal to its specification |
| Tables.LabelKeys | scrapers/finishtime_scraper.py:105-107 | a column is present if and only if some cell sits at a position the header maps to it |
| Tables.LabelValue | scrapers/finishtime_scraper.py:107 | a column holds the stripped text of the last cell mapped to it |
| Tables.LabelFrame | scrapers/finishtime_scraper.py:105-107 | cells at positions mapped to other columns leave a column as it was |
| Tables.LabelWidth | scrapers/finishtime_scraper.py:105-106 | cells past the last header position are dropped |
| Tables.StampRow | scrapers/finishtime_scraper.py:42-43 | the row gains `RaceName` and `EventName`, and keeps every other entry |
| Tables.StampedCarries | scrapers/ultimate_dk_scraper.py:53-56 | every stamped row carries the race name and the event name, and keeps its other entries |
| Tables.StampedReadsBlocks | scrapers/ultimate_dk_scraper.py:43-56 | a successful read of several sources is one block per source, in order, block i being source i's rows stamped with its name |
| Tables.Stamp | scrapers/ultimate_dk_scraper.py:53-56 | the stamping loop, equal to its specification |
| Bouttime.CloseFor | scrapers/bouttime_scraper.py:64 | the greedy second group ends at the last `)` before the bound that completes a match |
| Bouttime.SplitPoint | scrapers/bouttime_scraper.py:64 | the greedy first group backtracks from the right: the last split point with a closing `)` is taken |
| Bouttime.SplitName | scrapers/bouttime_scraper.py:64-66 | the pattern `(.*)\s\((.*)\)` matches if and only if some split point exists |
| Bouttime.SplitNameWritten | scrapers/bouttime_scraper.py:63-68 | `<name> (<license>)` splits back into the name and the license number |
| Bouttime.SplitNameNeedsSpace | scrapers/bouttime_scraper.py:64 | without whitespace right before a `(` the pattern does not match |
| Bouttime.PutCell | scrapers/bouttime_scraper.py:62-70 | a `Name` cell holding `(` is split into `Name` and `LicenseNr` and raises when the pattern fails; any other cell, a `Name` cell without `(` included, sets its column to its text |
| Bouttime.BoutRow | scrapers/bouttime_scraper.py:58-72 | the cell loop of one row, seeded with the race and distance names, equal to its specification |
| Bouttime.BoutLabelErr | scrapers/bouttime_scraper.py:60-70 | once a cell raises, the later cells change nothing |
| Bouttime.BoutLabelWithoutName | scrapers/bouttime_scraper.py:59-70 | without a `Name` column a row is the seed overwritten by the plain labelling of its cells |
| Bouttime.BoutLabelSeed | scrapers/bouttime_scraper.py:59 | every row keeps the race and distance entries, with their values unless a column of that name overwrites them |
| Bouttime.BoutLabelStep | scrapers/bouttime_scraper.py:60-70 | one more cell passes its text through the name-splitting store when its position is mapped, and changes nothing otherwise |
| Bouttime.PutSplitName | scrapers/bouttime_scraper.py:63-68 | a `Name` cell that matches the license pattern stores the name and the license number |
| Bouttime.BoutLabelSplitsName | scrapers/bouttime_scraper.py:63-68 | a split `Name` cell sets both the name and the license number |
| Bouttime.BoutRowsErr | scrapers/bouttime_scraper.py:56-72 | once a row raises, the later rows change nothing |
| Bouttime.ResultsFromMain | scrapers/bouttime_scraper.py:40-72 | the row loop; a missing table gives no rows, while a table without rows or a missing race or distance name raises |
| Bouttime.GetResultsAsWritten | scrapers/bouttime_scraper.py:17-37 | as written, a failed download raises before the check meant for it; otherwise the results of the page |
| Bouttime.GetResults | scrapers/bouttime_scraper.py:17-37 | with the check first, a failed download gives no rows; otherwise the results of the page |
| Bouttime.FailedDownload | scrapers/bouttime_scraper.py:18-33 | the two versions of `get_results` differ exactly on a failed download, where the code as written raises and the corrected code returns no rows |
| UltimateDk.FixMainPageUrlDefined | scrapers/ultimate_dk_scraper.py:103-111 | the URL can be fixed if and only if the lower-cased query has `eventid` |
| UltimateDk.FixMainPageUrlQuery | scrapers/ultimate_dk_scraper.py:104-109 | the fixed URL keeps scheme and host and carries exactly the event id, which reads back unchanged |
| UltimateDk.FixMainPageUrlCaseInsensitive | scrapers/ultimate_dk_scraper.py:106-109 | the parameter name matches in any case, and the event id is lower-cased with it |
| UltimateDk.FixedUrlHasEventId | scrapers/ultimate_dk_scraper.py:40 | the fixed URL always has the event id, so the lookup on line 40 cannot fail |
| UltimateDk.OptionDistances | scrapers/ultimate_dk_scraper.py:69-78 | each distance yielded has an id and a name, and there are no more of them than options |
| UltimateDk.OptionDistancesStop | scrapers/ultimate_dk_scraper.py:73-78 | an option value that is not an integer ends the list there |
| UltimateDk.OptionDistancesAll | scrapers/ultimate_dk_scraper.py:69-75 | when every value is an integer, the distances are the options with a non-empty value, each read in order |
| UltimateDk.Valued | scrapers/ultimate_dk_scraper.py:70-71 | an option is kept if and only if it has a non-empty `value` |
| UltimateDk.GetDistances | scrapers/ultimate_dk_scraper.py:59-78 | the distance generator, equal to its specification |
| UltimateDk.DataUrlQuery | scrapers/ultimate_dk_scraper.py:48-51 | the data URL carries the event id and the distance id, and the distance id reads back as the integer |
| UltimateDk.DataValues | scrapers/ultimate_dk_scraper.py:8 | the template's `eventid` and `distance` have the one value written, and its blank `category` reads back as absent |
| UltimateDk.DistanceHeaders | scrapers/ultimate_dk_scraper.py:89-92 | every header cell names a column: no header cell is skipped |
| UltimateDk.LabelDistanceRows | scrapers/ultimate_dk_scraper.py:93-100 | the row loop gives one row per body row, in order, each labelled by its `td` cells |
| UltimateDk.ResultsFromDistance | scrapers/ultimate_dk_scraper.py:81-100 | the rows of one distance page; a failed download gives none, and a missing table or a table without rows raises |
| UltimateDk.DistanceResultsErr | scrapers/ultimate_dk_scraper.py:43-56 | once a distance raises, the later distances change nothing |
| UltimateDk.DistanceStep | scrapers/ultimate_dk_scraper.py:44-56 | the rows of one distance, stamped; the implicit distance has id 1 and the race's name |
| UltimateDk.ResultsFromMain | scrapers/ultimate_dk_scraper.py:33-56 | the distance loop, equal to its specification |
| UltimateDk.GetResults | scrapers/ultimate_dk_scraper.py:17-30 | an unfixable URL or a failed download gives no rows; otherwise the results of the race page |
| UltimateDk.DistanceResultsStamped | scrapers/ultimate_dk_scraper.py:53-56 | every row carries the race name and the name of one of the race's distances |
| UltimateDk.DistanceResultsRead | scrapers/ultimate_dk_scraper.py:43-56 | the distance loop is the shared read-and-stamp loop over the distances |
| UltimateDk.DistanceResultsBlocks | scrapers/ultimate_dk_scraper.py:43-56 | the rows are one block per distance, in order; block i is the rows of distance i's data page (id 1 when it has none), stamped with the race name and the name of distance i (the race name when it has none) |
| UltimateDk.ImplicitDistance | scrapers/ultimate_dk_scraper.py:64-67 | a drop-down without options means one distance, id 1, named after the race |
| UltimateDk.NoDistancesNoRows | scrapers/ultimate_dk_scraper.py:61-62 | without the drop-down there are no rows |
| MobiiElite.FirstGuidAt | scrapers/mobiielite_scraper.py:11-14 | the leftmost GUID match at or after a position, none before it |
| MobiiElite.SearchGuid | scrapers/mobiielite_scraper.py:286-293 | a match found is a GUID; there is none if and only if no position matches |
| MobiiElite.SearchGuidFirst | scrapers/mobiielite_scraper.py:288-293 | the first matching position is the one whose GUID is returned |
| MobiiElite.SearchGuidAfter | scrapers/mobiielite_scraper.py:286-293 | a GUID right after the marker, with no earlier match, is the one found |
| MobiiElite.FixedUrlRaceId | scrapers/mobiielite_scraper.py:281-293 | the race id written into the fixed URL is the one found there again |
| MobiiElite.NoMarkerBefore | scrapers/mobiielite_scraper.py:283-287 | no `/RaceID/<guid>` match starts inside the fixed URL's `scheme://host/results` prefix |
| MobiiElite.LastYielding | scrapers/mobiielite_scraper.py:69-87 | the last column that stores a value under a given name |
| MobiiElite.ProjectErr | scrapers/mobiielite_scraper.py:69-87 | the column loop raises if and only if some contributing column's value cannot be converted |
| MobiiElite.ProjectValue | scrapers/mobiielite_scraper.py:69-87 | a name is in the row if and only if some column yields it, and its value is the last such column's |
| MobiiElite.ProjectRecord | scrapers/mobiielite_scraper.py:69-89 | the column loop, equal to its specification |
| MobiiElite.GiIsClub | scrapers/mobiielite_scraper.py:73-87 | a `gi` column stores the record's `gi` value, unconverted, under `Club`, whatever its `Field` and `Name` say, unless a later column stores under `Club` |
| MobiiElite.TimeColumn | scrapers/mobiielite_scraper.py:69-87 | in a record that projects, a `t`, `p` or `sti` column's value is a number of milliseconds, stored under the column's name as a duration (`t`, `p`) or a timestamp (`sti`) unless a later column stores under that name |
| MobiiElite.ProjectStopped | scrapers/mobiielite_scraper.py:69-87 | once a column raises, the later columns change nothing |
| MobiiElite.Alias | scrapers/mobiielite_scraper.py:66-67 | the aliases `csp` and `ctp` copy `cp` and `gp`, the rest is kept, and a missing `cp` or `gp` raises |
| MobiiElite.FindColumn | scrapers/mobiielite_scraper.py:96 | no column is found if and only if every column has a `JSONField` other than the key; one found belongs to the columns and has that field |
| MobiiElite.IncludeAll | scrapers/mobiielite_scraper.py:91-108 | unclaimed, non-skipped keys are copied as they are, everything else is kept, and a column without `JSONField` raises |
| MobiiElite.Kept | scrapers/mobiielite_scraper.py:63 | a record is kept if and only if it has a truthy `ia` |
| MobiiElite.KeptAppend | scrapers/mobiielite_scraper.py:63 | the filter preserves order: filtering a concatenation concatenates the filtered parts |
| MobiiElite.ParseAllStep | scrapers/mobiielite_scraper.py:63-110 | one more kept record appends its row, or its error ends the parse |
| MobiiElite.ParseAllRows | scrapers/mobiielite_scraper.py:62-110 | one row per kept record, in order, each the projection of its record |
| MobiiElite.ParseAllErr | scrapers/mobiielite_scraper.py:62-110 | parsing raises if and only if some kept record raises |
| MobiiElite.ParseAllStopped | scrapers/mobiielite_scraper.py:63-110 | once a record raises, the later records change nothing |
| MobiiElite.ParseRecord | scrapers/mobiielite_scraper.py:64-110 | one record, with the aliases written into it before the column loop, equal to its specification |
| MobiiElite.ParseRecords | scrapers/mobiielite_scraper.py:62-110 | the record loop of `_parse_results`, equal to its specification |
| MobiiElite.EventNameFromCn | scrapers/mobiielite_scraper.py:50 | the appended `cn` column names each row's event after the record's `cn`, over any earlier column |
| MobiiElite.NoEventName | scrapers/mobiielite_scraper.py:50-55 | a record without `cn` and without another `EventName` column gives a row without an event name |
| MobiiElite.SortRows | scrapers/mobiielite_scraper.py:55 | the sort raises if and only if some row lacks `EventName` or `CoursePosition`, or there are two rows or more whose keys cannot be ordered |
| MobiiElite.SortByKeyPermutes | scrapers/mobiielite_scraper.py:55 | sorting keeps the multiset of rows |
| MobiiElite.SortByKeyAscending | scrapers/mobiielite_scraper.py:55 | the sorted rows ascend by (`EventName`, `CoursePosition`) |
| MobiiElite.SortByKeyStable | scrapers/mobiielite_scraper.py:55 | rows of equal key keep their order |
| MobiiElite.SortRowsSpec | scrapers/mobiielite_scraper.py:55 | a successful sort returns a permutation of its rows, ascending and stable |
| MobiiElite.RaceStamped | scrapers/mobiielite_scraper.py:57-58 | each row gains `RaceName` set to the page title, over any column of that name, and keeps everything else |
| MobiiElite.StampRace | scrapers/mobiielite_scraper.py:57-59 | the stamping loop, equal to its specification |
| MobiiElite.RaceStampedAscending | scrapers/mobiielite_scraper.py:55-58 | stamping keeps the rows ascending |
| MobiiElite.DisplayId | scrapers/mobiielite_scraper.py:126-144 | a display id returned is a GUID; none when no `data-src` mentions `DisplayId` |
| MobiiElite.DisplayIdFirst | scrapers/mobiielite_scraper.py:129-132 | only the first `data-src` mentioning `DisplayId` is searched, even when it holds no GUID |
| MobiiElite.LayoutColumns | scrapers/mobiielite_scraper.py:48-50 | the first layout's columns with the `cn` column last; it fails if and only if the response is missing, empty or has no `Columns` |
| MobiiElite.ResultsFromMain | scrapers/mobiielite_scraper.py:44-59 | the race page, equal to its specification |
| MobiiElite.MainResultsRows | scrapers/mobiielite_scraper.py:44-59 | a successful race page has a title and an engine response, one row per active record, each naming the race, ascending by key |
| MobiiElite.ParsedSortedStamped | scrapers/mobiielite_scraper.py:53-58 | parse, sort and stamp together give one stamped, ascending row per kept record |
| MobiiElite.MobiiEliteScraper.constructor | scrapers/mobiielite_scraper.py:24-25 | a new scraper holds the URL and no race id |
| MobiiElite.MobiiEliteScraper.GetResults | scrapers/mobiielite_scraper.py:27-41 | the race id of the URL is stored; a failed download of the fixed URL gives no rows, otherwise the results of that page |
| MobiiElite.ZFill | scrapers/mobiielite_scraper.py:195 | `zfill`: the result has at least the width, ends with the input and is padded with `0` in front |
| MobiiElite.SessionId | scrapers/mobiielite_scraper.py:194-195 | the session id is four hexadecimal digits whose value is the draw modulo 16^4 |
| Text.Lower | scrapers/scraper_factory.py:14 | `lower`: same length, no upper-case letter left, whitespace kept |
| Text.LowerIdempotent | scrapers/scraper_factory.py:14 | lower-casing twice is lower-casing once |
| Text.Contains | scrapers/mobiielite_scraper.py:131 | `p in s` holds if and only if `p` occurs somewhere in `s` |
| Text.Split | scrapers/finishtime_scraper.py:153 | `split()` yields non-empty words without whitespace |
| Text.SplitAtSpace | scrapers/finishtime_scraper.py:153 | whitespace separates words: splitting around it splits both sides |
| Text.StripSlice | scrapers/finishtime_scraper.py:107 | `strip()` is a slice with only whitespace cut off either end |
| Text.StripEnds | scrapers/finishtime_scraper.py:107 | a non-empty stripped text neither starts nor ends with whitespace |
| Text.ProperCaseIsConcat | scrapers/finishtime_scraper.py:152-155 | joining with spaces and deleting the spaces is concatenating the capitalised words |
| Text.ProperCaseNoSpace | scrapers/finishtime_scraper.py:152-155 | a normalised column name contains no whitespace |
| Text.ProperCaseAllSpace | scrapers/finishtime_scraper.py:152-155 | a whitespace-only header normalises to the empty name |
| Text.SplitTwoWords | scrapers/finishtime_scraper.py:153 | two words joined by one space split back into those two words |
| Text.ProperCaseTwoWords | scrapers/finishtime_scraper.py:152-155 | a two-word header becomes its two capitalised words run together |
| Text.ProperCaseOneWord | scrapers/finishtime_scraper.py:152-155 | a header without whitespace is only re-capitalised |
| Text.ProperCaseJoinsWords | scrapers/finishtime_scraper.py:152-155 | `cat pos` names the column `CatPos` |
| Text.ProperCaseNotIdempotent | scrapers/finishtime_scraper.py:152-155 | `CatPos` becomes `Catpos`: the normalisation is not idempotent |
| Text.JoinSplitOn | scrapers/finishtime_scraper.py:133 | splitting on a separator loses nothing: joining the parts gives the string back |
| Text.SplitOnJoin | scrapers/finishtime_scraper.py:146 | splitting a join of separator-free parts gives the parts back |
| Numbers.NatToString | scrapers/finishtime_scraper.py:85 | `str(n)` is digits without a spurious leading zero, whose value is `n` |
| Numbers.ParseIntToString | scrapers/ultimate_dk_scraper.py:73 | writing an integer and reading it back with `int` gives the integer |
| Numbers.Hex | scrapers/mobiielite_scraper.py:195 | `format(n, "x")` is hexadecimal digits whose value is `n` |
| Numbers.HexLastFour | scrapers/mobiielite_scraper.py:195 | the last four hexadecimal digits hold the value modulo 16^4 |
| Urls.HostnameOfAuthority | scrapers/scraper_factory.py:13-14 | user information and port are not part of the hostname, which is lower-cased |
| Urls.HostnameAfterBracket | scrapers/scraper_factory.py:13-14 | in a netloc of a `[` and a plain host, the brackets do not match and the hostname is the host |
| Urls.FieldPair | scrapers/finishtime_scraper.py:133 | a query field is cut at its first `=`, and a blank value drops it |
| Urls.GroupLookup | scrapers/finishtime_scraper.py:133-135 | `parse_qs` collects, for every name, exactly the values paired with it, in order |
| Urls.ParseQsWellFormed | scrapers/finishtime_scraper.py:144 | whatever `parse_qs` returns can be encoded and parsed back |
| Urls.ParseQsEncode | scrapers/finishtime_scraper.py:144-146 | encoding a well-formed query and parsing it again gives every name its values back |
| Urls.LookupSetAll | scrapers/finishtime_scraper.py:145 | after `update` a name has the single value of its last addition, or keeps its values |
| Urls.FirstValueOfWellFormed | scrapers/finishtime_scraper.py:135-136 | a name has a first value if and only if it is present |
| Urls.TwoFieldQuery | scrapers/finishtime_scraper.py:131-137 | a query of two distinct well-formed fields reads back as exactly those two fields |
| Urls.ParseQsOne | scrapers/ultimate_dk_scraper.py:106-108 | a single `name=value` query reads back as that one value |
| Urls.LookupWritten | scrapers/ultimate_dk_scraper.py:8 | a query written from a template parses to the non-blank values of each name |
| Sorting.Insert | scrapers/mobiielite_scraper.py:55 | insertion keeps the multiset and adds the element |
| Sorting.SortSorted | scrapers/mobiielite_scraper.py:55 | `sorted` returns its elements in ascending key order |
| Sorting.SortStable | scrapers/mobiielite_scraper.py:55 | `sorted` is stable: the elements of each key keep their input order |
| Sorting.SortValues | scrapers/mobiielite_scraper.py:55 | sorting permutes the values as well as the keyed elements |

## Left out

- Downloads, JSON requests and the HTML parser are not modelled. They are oracle parameters over
  pages reduced to the elements each scraper reads. `scrapers/scraper.py` is not part of this
  model beyond that contract.
- The CSS selectors and element lookups of BeautifulSoup are not modelled: a page field is `None`
  where the lookup finds nothing.
- `urljoin` on arbitrary `href` and form-action values is not modelled. Event URLs are taken as
  already resolved, and the URLs the scrapers build themselves are written out.
- `Finishtime.FixMainPageUrl`, `UltimateDk.FixMainPageUrl`: the fixed URL is built from the scheme
  and host of the input, which is what `urljoin` gives for a URL that has a scheme. A URL without a
  scheme (`//live.ultimate.dk/...`) is not modelled: the text `"://host"` the code builds then has
  no scheme for `urljoin`, so the host is lost (Ultimate) or kept only as path text (Finishtime),
  while the model keeps the host.
- Percent-decoding and `+` decoding in `parse_qs`, and quoting in `urlencode`, are not modelled.
  The model does not distinguish escaped and unescaped characters.
- `Finishtime.LastOfAt`: the `\d` of the pager-label pattern is an ASCII digit `0`-`9`; Python's
  `re` on `str` also matches the other Unicode decimal digits, which are not modelled.
- `Finishtime.LeadingCount`: `(\d+)` and the `int()` after it are modelled on ASCII digits only;
  a pager cell starting with another Unicode decimal digit is read as no count.
- `Finishtime.LabelCount`: the `of (\d+)` of the label pattern is modelled on ASCII digits only,
  so a label whose count is written in other Unicode decimal digits does not match.
- `ScraperFactory.GetScraper`: a URL is given by the components `urlparse` reports (scheme,
  netloc, path, query, fragment); their splitting out of the text is not modelled. Of the errors
  `urlsplit` raises, only the unmatched-bracket `ValueError` is modelled; the check that a
  bracketed host is an IP address, made by newer Python versions, is not.
- `Finishtime.AppendQueryParameters`: a URL has no `;params` component, so a URL whose last path
  segment carries `;params` is outside the model; `geturl()` would keep them.
- Case mapping (`lower`, `capitalize`) covers the ASCII letters only. `int()` accepts ASCII digits
  only, with an optional sign and surrounding whitespace; underscores between digits are not
  accepted.
- Logging (loguru) is left out.
- `MobiiElite.Convert`: keeps durations and timestamps as integer milliseconds. JSON floats,
  `timedelta` and `datetime` objects, local time zones and the range errors of `fromtimestamp`
  are not modelled.
- `MobiiElite.SortRows`: states the `TypeError` case conservatively. It fails whenever two or more
  rows hold keys of different kinds, or keys of a kind `<` cannot compare, although the comparisons
  Python's sort makes might never pair those two rows.
- `MobiiElite.OrdOf`: JSON arrays, objects and `null` are treated as unorderable; JSON floats are
  not modelled.
- Column attributes of a display layout (`JSONField`, `Field`, `Name`) are taken to be strings.
- The `is_handled` flag that `_parse_results` writes into each column is not modelled. The
  include-all branch that reads it sees every column marked, because the column loop marks them
  all first. That branch is modelled with this in mind and is switched off by
  `INCLUDE_ALL_FIELDS`, as in the source.
- The writes of `_parse_results` into the JSON records and the layout dictionaries are modelled
  as updates of immutable values. Aliasing between a record and other references to it is not
  modelled.
- The random draw behind the MobiiElite session id is a parameter (`draw`). `random.random()` and
  the float multiplication that produces `draw` are left out.
- `MobiiElite.ZFill`: does not handle a leading sign; its input is always hexadecimal digits.
- Dead code is left out, since nothing calls it: `_time_from_ticks`, `_get_courses`, and the
  Finishtime helpers copied into `scrapers/mobiielite_scraper.py:198-278` and
  `scrapers/mobiielite_scraper.py:296-309`.
- The Bouttime view-state removal (`decompose`) is not modelled except for what it does to a failed
  download. The elements it removes are not read by the rest of the scraper.
- Nested header cells and the HTML5 table repair of html5lib are not modelled.
- `main.py` (command line, CSV output) is not part of this model.

## Findings

| source | as written | input that shows it | evidently intended | confidence | as-written member | corrected member |
|---|---|---|---|---|---|---|
| scrapers/bouttime_scraper.py:18-33 | the view-state loop calls `soup.find_all` before the `soup is None` check, so a failed download raises `AttributeError` | a download that fails (`scraper.get` returns `None`) | log the failure and return `[]`, as the check on lines 31-33 says | not executed | Bouttime.GetResultsAsWritten | Bouttime.GetResults |
