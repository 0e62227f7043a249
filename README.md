# Competitor news scraper: retry bookkeeping, freshness labels and blacklist filter

This project models, in Dafny, the sequential logic of a pipeline that
collects news about competitors.

The pipeline searches Google for each company name, scrapes the result
elements into records and retries failed searches. It then filters the
collected CSV rows against a blacklist before handing them to a language
model.

The browser, the file system and pandas are replaced by plain values:

- **Results page.** A page is its result elements and an optional header
  result. An element is its optional title, link and snippet text.
- **Browser session.** A search session is an oracle from (term, round) to
  its outcome. A click attempt is an oracle from the attempt's index.
- **Tables.** A table is its column names and its rows of cells. A missing
  cell (pandas' NaN) is `None`.
- **Files.** The directory listing, the blacklist file's lines and the CSV
  reader are parameters.

Modules:

- `Wrappers`: `Option` and `Result`.
- `Sequences`: generic sequence facts:
  - duplicates;
  - subsequences;
  - suffixes and substrings;
  - index-of;
  - removing and inserting at an index.
- `Freshness`: `parse_released_time`, and the extraction and pluralisation
  of the freshness label ("5 minutes ago") in `scrape_search_element`.
- `Scrape`: the record of a result element, the header-first ordering and
  pandas' `drop_duplicates` in `scrape_search_results`.
- `Retries`:
  - `click_element_with_retries`, as a method with a loop;
  - `search_with_retries`, as the class `Ledger`.
    - `Ledger`'s fields are the caller-owned lists `all_results` and
      `failed_terms`, plus the log of sessions and sleeps.
    - Its methods are proved against functions that give each list's
      contents after the initial pass and after every retry round.
- `Blacklist`: `filter_blacklisted_rows` and `read_csv_as_string`.
  - `filter_blacklisted_rows` covers:
    - Python's `strip`/`lower` and the blacklist set;
    - the row filter;
    - the `Source` host extracted by `str.extract(r"//([^/]+)")`;
    - the in-place column operations on a `DataFrame` class;
    - the output file name.
  - `read_csv_as_string` covers the choice of the file to read.

## Model

| member | source | states |
|---|---|---|
| Freshness.DigitRun | automatic_competitor_updates_functions.py:16 | `\d+` takes the longest run of ASCII digits at the start of the text: every character in the run is a digit, and the one after it is not |
| Freshness.MatchTail | automatic_competitor_updates_functions.py:16 | any unit alternative found after the digits, " <unit>[s] ago", is a prefix of the rest of the text |
| Freshness.MatchLabel | automatic_competitor_updates_functions.py:16 | a match at the start is a label with a non-empty digit run, and its text is a prefix of the input |
| Freshness.MatchLabelOfText | automatic_competitor_updates_functions.py:16 | a valid label at the start of a text is recognised as exactly that label, whatever follows it |
| Freshness.TailsDiffer | automatic_competitor_updates_functions.py:16 | the six unit alternatives never start one another, so the order they are tried in cannot change the match |
| Freshness.ParseReleasedTime | automatic_competitor_updates_functions.py:13-15 | a value that is not a string maps to the sentinel, and every real key has a rank from 1 to 3 |
| Freshness.ParseValidLabel | automatic_competitor_updates_functions.py:16-28 | a text starting with "<digits> <unit>[s] ago" maps to the unit's rank and the digits' integer value; singular and plural share the rank; trailing text is ignored |
| Freshness.ParseUnrankedIff | automatic_competitor_updates_functions.py:16-29 | the sentinel is returned exactly when no valid label starts the text |
| Freshness.LabelBeforeUnranked | automatic_competitor_updates_functions.py:14-29 | any key of a valid label is smaller, under tuple comparison, than the key of a non-label or a non-string, and never larger |
| Freshness.CoarserUnitSortsLater | automatic_competitor_updates_functions.py:20-28 | a label whose unit is finer sorts first, whatever both numbers are |
| Freshness.SameUnitSortsByValue | automatic_competitor_updates_functions.py:18-28 | labels with the same unit sort by their numbers |
| Freshness.NumeralValue | automatic_competitor_updates_functions.py:18 | `int` of the matched digits: their decimal value, leading zeros allowed; `ParseValidLabel` and `SameUnitSortsByValue` state how it enters the key and the order |
| Freshness.Before | automatic_competitor_updates_functions.py:13-29 | Python's `<` on the returned tuples, with `inf` above every integer; `BeforeIsStrictTotalOrder` and the ordering lemmas above state its meaning |
| Freshness.BeforeIsStrictTotalOrder | automatic_competitor_updates_functions.py:13-29 | the order on keys is irreflexive, transitive and total on distinct keys, so sorting by it is well defined |
| Freshness.FreshnessExamples | automatic_competitor_updates_functions.py:13-29 | "5 seconds ago" < "2 minutes ago" < "1 hour ago" < "garbage", and `None` ranks like "garbage" |
| Freshness.SecondsBeforeMinutes | automatic_competitor_updates_functions.py:13-29 | "5 seconds ago" sorts before "2 minutes ago" |
| Freshness.MinutesBeforeHours | automatic_competitor_updates_functions.py:13-29 | "2 minutes ago" sorts before "1 hour ago" |
| Freshness.HourBeforeGarbage | automatic_competitor_updates_functions.py:13-29 | "1 hour ago" sorts before "garbage", and `None` gets the same key as "garbage" |
| Freshness.FirstLabelFrom | automatic_competitor_updates_functions.py:53-55 | the left-to-right scan of `re.search` stops at a position where a label starts and no label starts before it; when it finds none, no position holds a label |
| Freshness.FirstLabelAt | automatic_competitor_updates_functions.py:53-55 | if a label starts at k and none starts between i and k, the scan from i returns k |
| Freshness.FirstWord | automatic_competitor_updates_functions.py:60 | a unit alternative found at a position occurs there as a whole word, bounded by `\b` on both sides |
| Freshness.WordAtUnit | automatic_competitor_updates_functions.py:60 | where a unit name starts after a non-word character, the whole-word pattern for hour, minute or second matches exactly when a non-word character follows the name |
| Freshness.PluraliseCopies | automatic_competitor_updates_functions.py:59-61 | `re.sub` copies unchanged a stretch of positions where no unit word matches |
| Freshness.PluraliseFrom | automatic_competitor_updates_functions.py:59-61 | the left-to-right substitution from a position on; `PluraliseCopies`, `PluraliseUnitWord` and `PluraliseAgoSuffix` state what it copies and what it replaces |
| Freshness.Pluralise | automatic_competitor_updates_functions.py:58-61 | the substitution over the whole text; `PluraliseLabel` and `PluralisePluralText` state its effect on label texts |
| Freshness.PluraliseAgoSuffix | automatic_competitor_updates_functions.py:59-61 | the trailing " ago" of a label contains no unit word and is copied unchanged |
| Freshness.PluraliseUnitWord | automatic_competitor_updates_functions.py:59-61 | a unit name between two non-word characters is made plural |
| Freshness.PluralisePluralText | automatic_competitor_updates_functions.py:59-61 | the text of a label whose unit is already plural is left unchanged |
| Freshness.PluraliseLabel | automatic_competitor_updates_functions.py:58-61 | pluralising the text of a valid label makes its unit plural and changes nothing else |
| Freshness.ReleasedNone | automatic_competitor_updates_functions.py:53-56 | `released` is missing exactly when the description is missing or no position of it starts a label |
| Freshness.ExtractReleased | automatic_competitor_updates_functions.py:53-61 | the `released` value: the first label of `description or ""`, pluralised; `ReleasedNone`, `ReleasedIsFirstLabel` and `ReleasedIsNormalised` state what it returns |
| Freshness.ReleasedIsFirstLabel | automatic_competitor_updates_functions.py:53-61 | `released` is the first label of the description, with its unit made plural |
| Freshness.ReleasedIsNormalised | automatic_competitor_updates_functions.py:58-61 | a `released` text is a label with a plural unit, and pluralising it again changes nothing |
| Freshness.ParsePluralised | automatic_competitor_updates_functions.py:58-61 | parsing the pluralised text of a valid label gives the label's own rank and value |
| Freshness.ParseIgnoresPluralising | automatic_competitor_updates_functions.py:58-61 | parsing `released` gives the same key as parsing the description from the raw label on |
| Scrape.ScrapedRecord | automatic_competitor_updates_functions.py:53-68 | the record names the company searched for and keeps the element's title, link and snippet; `released` is missing exactly when there is no label; otherwise it is a normalised plural label |
| Scrape.ScrapeSearchElement | automatic_competitor_updates_functions.py:32-69 | the record of one element, with the DOM lookups replaced by what they found; `ScrapedRecord` states its fields |
| Scrape.ScrapeAll | automatic_competitor_updates_functions.py:143 | the comprehension gives one record per element |
| Scrape.ScrapeAllAt | automatic_competitor_updates_functions.py:143 | record k is the record of element k |
| Scrape.ScrapeAllNames | automatic_competitor_updates_functions.py:143 | every record of the elements names the term searched for |
| Scrape.DistinctSpec | automatic_competitor_updates_functions.py:149 | `drop_duplicates` leaves no record twice, loses and adds none, and keeps the relative order |
| Scrape.Distinct | automatic_competitor_updates_functions.py:149 | `drop_duplicates` on the record list; `DistinctSpec`, `DistinctKeepsFirstOccurrenceOrder`, `DistinctKeepsHead` and `DistinctOfDistinct` state what it keeps and in which order |
| Scrape.DistinctKeepsFirstOccurrenceOrder | automatic_competitor_updates_functions.py:149 | the records kept come in the order of their first occurrences |
| Scrape.DistinctKeepsHead | automatic_competitor_updates_functions.py:146-149 | deduplication keeps the first record first, so the header result stays at index 0 |
| Scrape.DistinctOfDistinct | automatic_competitor_updates_functions.py:149 | a list without duplicates is left unchanged, so deduplicating twice equals deduplicating once |
| Scrape.SearchRecordsName | automatic_competitor_updates_functions.py:138-149 | every returned record names the term |
| Scrape.ScrapeSearchResults | automatic_competitor_updates_functions.py:138-149 | the loop and `insert(0, ...)` give the header result, if any, at index 0, then the distinct records; the result has no duplicates, its members are exactly the candidates, every element's record is among them, and each names the term |
| Retries.ClickElementWithRetries | automatic_competitor_updates_functions.py:115-125 | at most `retries` attempts, none when `retries <= 0`; stops at the first click; returns true iff some attempt clicks before any other exception; returns false iff every attempt times out, then after 3 s of sleep per attempt; any other exception propagates |
| Retries.PassFailedCount | automatic_competitor_updates_functions.py:163-173 | a pass appends a term to `failed_terms` once per occurrence whose attempt fails and never for one that succeeds |
| Retries.PassFailed | automatic_competitor_updates_functions.py:163-194 | the terms a pass appends to `failed_terms`; `PassFailedCount`, `PassFailedMembers` and `PassFailedInOrder` state which terms, how often and in which order |
| Retries.PassResults | automatic_competitor_updates_functions.py:163-191 | the records a pass appends to `all_results`; `PassResultsNameTerms` states whose records they are |
| Retries.PassFailedMembers | automatic_competitor_updates_functions.py:184-194 | the terms a pass leaves failed are exactly the worklist's terms that fail in that round |
| Retries.PassFailedInOrder | automatic_competitor_updates_functions.py:181-194 | a round's failed terms are a subsequence of its snapshot, in snapshot order |
| Retries.PassResultsNameTerms | automatic_competitor_updates_functions.py:170 | every record a pass appends names one of the terms searched in it |
| Retries.PassEventsShape | automatic_competitor_updates_functions.py:163-196 | each term of the worklist gets one session, in order; in a retry round a 5 s sleep follows every session, successful or not; the initial pass never sleeps |
| Retries.InitialPassShape | automatic_competitor_updates_functions.py:163-173 | the initial pass is exactly one session per term occurrence, in input order |
| Retries.RetryPassShape | automatic_competitor_updates_functions.py:184-196 | a retry round alternates a session and a 5 s sleep for each snapshot term, in order |
| Retries.ResultsThrough | automatic_competitor_updates_functions.py:170-191 | `all_results` only grows: the caller's records stay as a prefix |
| Retries.Worklist | automatic_competitor_updates_functions.py:163-194 | `failed_terms` after the initial pass and after each retry round; `WorklistCount`, `UnresolvedIff` and `WorklistWithinTerms` state its contents |
| Retries.ResultsNameTerms | automatic_competitor_updates_functions.py:163-196 | every record added names a search term or a term the caller had in `failed_terms` |
| Retries.RoundsFrom | automatic_competitor_updates_functions.py:176-178 | rounds keep running while some remain and the failed list is not empty, and stop at the `break` once it is |
| Retries.RoundsRun | automatic_competitor_updates_functions.py:176-178 | at most `retries` rounds run, none when `retries <= 0`; fewer only when the failed list is empty; every round that runs starts from a non-empty list |
| Retries.Ledger.constructor | automatic_competitor_updates_functions.py:152 | the ledger starts with the caller's `all_results` and `failed_terms` and no events |
| Retries.Ledger.TrySearch | automatic_competitor_updates_functions.py:164-173 | one `try` block: its records are appended; the term is appended to `failed_terms` iff the session raised; one session is logged |
| Retries.Ledger.Pass | automatic_competitor_updates_functions.py:184-196 | a loop over the worklist appends exactly that pass's records, failed terms and events to the three fields |
| Retries.Ledger.SearchWithRetries | automatic_competitor_updates_functions.py:152-196 | the initial pass, then the rounds that run, leave `all_results`, `failed_terms` and the event log equal to their specification after that many rounds |
| Retries.WorklistCount | automatic_competitor_updates_functions.py:176-194 | after round k a term is in `failed_terms` once per caller-list occurrence that failed every retry round, plus once per search-term occurrence that failed every attempt (duplicates kept) |
| Retries.UnresolvedIff | automatic_competitor_updates_functions.py:176-194 | a term is left failed after round k exactly when one of its occurrences failed on every one of its attempts so far |
| Retries.WorklistWithinTerms | automatic_competitor_updates_functions.py:163-194 | every failed term is a search term or one the caller put in the list |
| Retries.AttemptsOfPass | automatic_competitor_updates_functions.py:163-173 | a pass opens one session per occurrence of the term in its worklist |
| Retries.AttemptsWithinBudget | automatic_competitor_updates_functions.py:163-196 | through round k, a term gets at most one session per occurrence in the initial pass and per occurrence in the worklist of each retry round |
| Retries.AttemptsThrough | automatic_competitor_updates_functions.py:163-196 | through round k, a term occurrence among the search terms gets at most k + 1 sessions, and one in the caller's list at most k |
| Retries.AttemptBound | automatic_competitor_updates_functions.py:176-196 | over the whole call, each occurrence of a term gets at most `retries + 1` sessions |
| Retries.NoRoundWithoutFailures | automatic_competitor_updates_functions.py:176-178 | with `retries <= 0`, or with no failures left after the initial pass, no round runs and nothing sleeps |
| Retries.NoRetriesSingleAttempt | automatic_competitor_updates_functions.py:163-178 | with `retries == 0`, each term occurrence gets exactly one session, and the failed terms are those whose single attempt failed |
| Retries.AlwaysFailingTerm | automatic_competitor_updates_functions.py:152-196 | one always-failing term with one retry gives two sessions, one sleep and no records, and the term stays failed |
| Retries.LateSuccess | automatic_competitor_updates_functions.py:152-196 | a term that fails twice and then succeeds in round 2 ends resolved, and its records come after those of a term that succeeded at once |
| Retries.LateSuccessWorklists | automatic_competitor_updates_functions.py:176-194 | in that scenario, `failed_terms` is [b], [b] and then [] after rounds 0, 1 and 2 |
| Blacklist.SkipSpaces | filter_through_llm.py:31 | the forward scan of `strip` stays within the string |
| Blacklist.SkipSpacesShape | filter_through_llm.py:31 | everything before the scan's stop is whitespace, and the character at the stop is not |
| Blacklist.BackSpacesShape | filter_through_llm.py:31 | everything from the backward scan's stop on is whitespace, and the character before the stop is not |
| Blacklist.StripShape | filter_through_llm.py:31 | `strip()` removes exactly the maximal leading and trailing runs of Python whitespace; the result is a slice whose ends are not whitespace |
| Blacklist.Strip | filter_through_llm.py:31 | `str.strip()`; `StripShape`, `StripBlank`, `StripOfStripped` and `StripLower` state what it removes and keeps |
| Blacklist.Lower | filter_through_llm.py:31 | `str.lower()` on ASCII letters; `LowerIdempotent`, `StripLower` and `RowTestIgnoresCase` state how it interacts with stripping and the row test |
| Blacklist.StripBlank | filter_through_llm.py:31 | a stripped line is empty exactly when every character of it is whitespace |
| Blacklist.StripOfStripped | filter_through_llm.py:31 | a string that is empty or whose ends are not whitespace is its own `strip()`, so stripping twice equals stripping once |
| Blacklist.LowerIdempotent | filter_through_llm.py:39 | lowering twice equals lowering once |
| Blacklist.StripLower | filter_through_llm.py:31 | stripping and lowering commute |
| Blacklist.BlacklistWords | filter_through_llm.py:31 | the blacklist holds exactly the stripped, lowered, non-blank lines; every word is non-empty, lower-case and stripped |
| Blacklist.BlacklistOf | filter_through_llm.py:31 | the blacklist set; `BlacklistWords` and `BlacklistIgnoresCase` state its members |
| Blacklist.BlacklistIgnoresCase | filter_through_llm.py:31 | lowering the blacklist file first gives the same set |
| Blacklist.FilterRowsCount | filter_through_llm.py:43 | the mask keeps every occurrence of a row that mentions no blacklist word and none of one that does |
| Blacklist.RowContainsBlacklist | filter_through_llm.py:37-41 | the row test: some blacklist word is a substring of some lower-cased `str(cell)`; `RowTestIgnoresCase` and `DropsMentioningRow` state its consequences |
| Blacklist.FilterRows | filter_through_llm.py:43 | the boolean-mask filter; `FilterRowsCount`, `FilterRowsMembers`, `FilterRowsInOrder`, `FilterRowsIdempotent` and `EmptyBlacklistKeepsAll` state what it keeps |
| Blacklist.FilterRowsMembers | filter_through_llm.py:37-43 | a row is in the output iff it is an input row that mentions no blacklist word in any lower-cased `str(cell)` |
| Blacklist.FilterRowsInOrder | filter_through_llm.py:43 | the output rows are a subsequence of the input rows |
| Blacklist.FilterRowsIdempotent | filter_through_llm.py:43 | filtering a second time removes nothing |
| Blacklist.EmptyBlacklistKeepsAll | filter_through_llm.py:37-41 | with an empty blacklist every row is kept |
| Blacklist.RowTestIgnoresCase | filter_through_llm.py:39 | the letter case of the cells does not change whether a row is dropped |
| Blacklist.DropsMentioningRow | filter_through_llm.py:31-43 | a row with a cell that contains, in any case, a non-blank stripped blacklist line is dropped |
| Blacklist.FirstSourceStart | filter_through_llm.py:46 | the regex search finds the leftmost `//` followed by a non-`/` character, or reports that there is none |
| Blacklist.SlashFreeRun | filter_through_llm.py:46 | `[^/]+` takes the longest run of non-`/` characters, ending at the string's end or at a `/` |
| Blacklist.SourceOf | filter_through_llm.py:46 | the host is absent for a missing url or one without `//` plus a non-`/`; otherwise it is the non-empty maximal run of non-`/` characters right after the leftmost such `//` |
| Blacklist.ReplaceColumn | filter_through_llm.py:46 | assigning an existing column overwrites that cell in every row and keeps the columns |
| Blacklist.AppendColumn | filter_through_llm.py:46 | assigning a new column appends it as the last column of every row |
| Blacklist.WithColumn | filter_through_llm.py:46 | `df[name] = values` keeps the column list when `name` exists and appends `name` otherwise |
| Blacklist.WithColumnValues | filter_through_llm.py:46 | after the assignment, the column holds the values and every other cell is unchanged |
| Blacklist.WithoutColumn | filter_through_llm.py:48 | removing column k removes cell k from every row and its name from the columns |
| Blacklist.InsertColumn | filter_through_llm.py:48 | inserting at `loc` puts the name and each row's value at index `loc`, shifting the rest |
| Blacklist.DataFrame.constructor | filter_through_llm.py:43 | the frame holds the given table |
| Blacklist.DataFrame.SetColumn | filter_through_llm.py:46 | `df[name] = values` updates the frame in place to the assigned table |
| Blacklist.DataFrame.Pop | filter_through_llm.py:48 | `pop` returns the column's values and removes the column in place |
| Blacklist.DataFrame.Insert | filter_through_llm.py:48 | `insert` succeeds iff `loc` is at most the number of columns; it then inserts the column, and otherwise leaves the frame unchanged (pandas raises) |
| Blacklist.CsvFiles | filter_through_llm.py:18 | the comprehension keeps exactly the listed names that end with `.csv` |
| Blacklist.CsvFilesFirst | filter_through_llm.py:18-24 | `csv_files[0]` is the first listed name that ends with `.csv` |
| Blacklist.CsvFilesNone | filter_through_llm.py:18-22 | no `.csv` name in the listing gives the empty list |
| Blacklist.ReplaceKeepsSuffix | filter_through_llm.py:26 | for a pattern whose occurrences cannot overlap, `replace` turns a trailing occurrence into the replacement |
| Blacklist.Replace | filter_through_llm.py:26 | `str.replace`, every non-overlapping occurrence from left to right; `ReplaceKeepsSuffix` and `OutputNameIsBlacklisted` state its effect on a `.csv` name |
| Blacklist.OutputNameIsBlacklisted | filter_through_llm.py:25-27 | the output name of a `.csv` input ends with `_blacklisted.csv` |
| Blacklist.JoinEndsWith | filter_through_llm.py:24-27 | `os.path.join` keeps the file name's suffix |
| Blacklist.Join | filter_through_llm.py:24 | `os.path.join` of two parts; `JoinPlacesName` and `JoinEndsWith` state where the parts end up |
| Blacklist.JoinPlacesName | filter_through_llm.py:24-27 | joining a relative name gives the folder, at most one `/`, then the name, with the `/` present whenever the folder is non-empty |
| Blacklist.FilterTable | filter_through_llm.py:43 | the filtered frame keeps the columns and has the kept rows |
| Blacklist.WithoutSource | filter_through_llm.py:46-48 | the frame that `Source` is inserted into has every column but an old `Source`, and the same rows |
| Blacklist.SetThenPop | filter_through_llm.py:46-48 | assigning `Source` and popping it gives back the assigned values and the frame without any old `Source` |
| Blacklist.AddSource | filter_through_llm.py:46-48 | the `Source` assignment and its move to index 2, with the two ways they fail; `MissingUrlIff`, `InsertOutOfBoundsIff` and `SavedTable` state its outcomes |
| Blacklist.FilterResult | filter_through_llm.py:15-53 | the whole outcome of `filter_blacklisted_rows`; `NoCsvFilesIff`, `MissingUrlIff`, `InsertOutOfBoundsIff` and `SavedTable` state each case |
| Blacklist.FilterBlacklistedRows | filter_through_llm.py:15-53 | the method's in-place steps on the frame give exactly the specified outcome: no CSV file, a `KeyError` for a missing `url`, an out-of-range `insert`, or the saved path and table |
| Blacklist.NoCsvFilesIff | filter_through_llm.py:18-22 | the call returns early exactly when no listed name ends with `.csv` |
| Blacklist.MissingUrlIff | filter_through_llm.py:46 | the call fails on `filtered_df["url"]` exactly when the file read has no `url` column |
| Blacklist.InsertOutOfBoundsIff | filter_through_llm.py:48 | `insert(2, ...)` fails exactly when the frame has a `url` column but fewer than two columns besides `Source` |
| Blacklist.SavedTable | filter_through_llm.py:24-51 | the saved table goes to a `_blacklisted.csv` path and holds the kept rows in order; the url's host is at index 2 and the other columns, except an old `Source`, keep their order around it |
| Blacklist.ReadCsvAsString | filter_through_llm.py:56-63 | the call returns the rendering of the first listed file ending with `_blacklisted.csv`, and raises `FileNotFoundError` exactly when there is none |

## Left out

- Selenium and Chrome are not modelled:
  - `initialize_driver`, `accept_cookies`, `perform_google_search` and `filter_past_24_hours`;
  - the DOM lookups in `scrape_search_element` and `scrape_search_results`.
  - They are browser I/O. What they return is an input of the model: a page, an element view, or an oracle outcome.
- `search_with_retries` takes the outcome of each session from an oracle of the term and the round.
  - Two occurrences of the same term in one round therefore see the same outcome.
  - A session's `closed = false` stands for `driver.quit()` raising after the records were appended.
- `time.sleep` and `print` are left out. Sleeps are recorded as `Slept` events, with their length in seconds.
- The `WebDriverWait` timeouts are left out; they are part of what the oracles decide.
- Freshness.DigitRun: treats only ASCII digits as `\d`, whereas Python's `re` also accepts other Unicode decimal digits.
- Freshness.WordAtUnit: treats only ASCII letters, digits and `_` as `\w`, whereas Python's `re` is Unicode-aware.
- Blacklist.Lower: lowers only ASCII letters, whereas Python's `str.lower` covers all of Unicode.
  - `strip` uses Python's full whitespace set.
- The float `inf` of `parse_released_time` is the constructor `Unranked`, ordered above every real key.
- pandas internals are left out: dtypes, index labels, `to_dict`, and CSV parsing and writing.
  - A cell is a string or NaN, and `str()` of a numeric cell is not modelled.
  - Tables with no rows are taken to behave like the others.
- Blacklist.SourceOf: gives no host for a missing url. pandas' `.str` accessor instead raises when the whole `url` column is NaN, and so not of string type.
- Blacklist.ReadCsvAsString: `render` stands for `pd.read_csv(...).to_csv(index=False)`, as a parameter.
- Opening a blacklist file that does not exist is not modelled; the lines of the file are a parameter.
- The folder listing and its order are parameters.
- Retries.Ledger.SearchWithRetries: the caller's `all_results` and `failed_terms` are the `Ledger`'s two fields, updated in place. The model does not capture the caller passing the same list object as `terms` and `failed_terms`, or as both lists; the only caller passes fresh, separate lists.
- These are not part of the model:
  - the Bedrock client and `claude_sentiment_analysis` in `filter_through_llm.py`;
  - `automatic_competitor_updates.py`, `send_news_to_slack.py`, `move_news_to_legacy.py` and `full_competitor_analysis.py` (I/O and network glue).

## Behaviour worth noting

- **Negative retries.** `range(1, retries + 1)` is empty, so no retry round runs and nothing is rejected (`Retries.RoundsRun`, `Retries.NoRoundWithoutFailures`).
- **Failed terms are a list.** A term that occurs twice among the search terms and always fails is left in `failed_terms` twice (`Retries.WorklistCount`).
- **A term can be both scraped and failed.** When leaving the `with` block raises after `all_results.extend`, the term's records are kept *and* the term is appended to `failed_terms` (`Retries.Ledger.TrySearch` with `closed = false`).
- **Sleeps.** The function sleeps 5 s after every attempt of a retry round, successful or not, including the last one, and never in the initial pass (`Retries.PassEventsShape`).
