# Audiobooks metadata agent: a verified model of its decision logic

The Audiobooks agent is a media-server plug-in. It matches a local audiobook
album against an online audiobook catalogue, then fills the album's metadata
record from the matched book page. This project models the agent's decision
logic in Dafny, working on the strings the agent scrapes from the catalogue's
HTML. It covers the following steps.

- **Search:**
  - each search-result row is normalised, reading the release date text and
    the second word of the language text;
  - each candidate is scored at 100 minus the summed title, author and
    language deductions;
  - rows without an id, pre-orders and low scores are dropped, and the rest
    are sorted stably;
  - the search results are emitted with the "good score" short-circuit and
    the display-title truncation.
- **Update:**
  - the JSON-LD text gets its backslash repair before the missing date is
    harvested;
  - the copyright year replaces the date when the preference asks for it;
  - the series, volume and sort-key rules are applied;
  - the synopsis markup is cleaned by the fixed replacement table;
  - the genre string and genre set are built;
  - the narrator styles and the author and series moods are built;
  - everything is written into the metadata record.

Modules:

- **Basics:**
  - `Wrappers`: Option and Result.
  - `Text`: Python's `strip`, `split`, `lower`, `in`, `replace`, `int` and
    `str` on digit strings.
  - `Scan`: first, last and greedy regex positions.
- **Search:**
  - `Distance`: Levenshtein distance.
  - `Locale`: the agent's language tables.
  - `Rows`: `before_xpath`.
  - `Scoring`: `score_*`.
  - `Ranking`: `run_search`.
  - `Emission`: `search`.
- **Update:**
  - `Synopsis`: the replacement table.
  - `JsonRepair`: the backslash repair.
  - `Copyright`: `use_copyright_date`.
  - `Series`: `handle_series`, the cleanup part of `parse_series`, and
    `title_sort`.
  - `Metadata`: the record and the `add_*` helpers.
  - `Update`: the helper object, `date_missing`, `compile_metadata` and
    `update`.

Pure source code is modelled as functions. Code that changes objects step by
step is modelled as classes whose methods are proved against those
functions:

- `Update.UpdateHelper` holds the update helper's fields;
- `Metadata.MetadataRecord` holds the metadata record's sets and entries.

Facts about the code that the model makes explicit:

- **Score:** `score_result` adds the title, author and language deductions
  together.
- **Copyright mismatch:** a copyright line that does not fit the expected
  pattern makes `use_copyright_date` raise, and `update` stops there.
- **Audible-only copyright line:** a line reading "© 2015; 2018" starts with
  "© ", so it takes the Audible-only branch. The date is cut to four
  characters, and the ';' rule never runs.
- **Series-name cleanup:** only the last ": A … Series" tail is removed.
  `Series.CleanupNotIdempotent` shows a name that changes again when cleaned
  a second time.

## Model

| member | source | states |
|---|---|---|
| Text.Strip | Contents/Code/__init__.py:791 | the result is a slice of the input with only whitespace cut at either end, and has no whitespace at its ends |
| Text.StripIdempotent | Contents/Code/__init__.py:704-709 | stripping twice is stripping once |
| Text.SplitOn | Contents/Code/__init__.py:787 | `split(",")` gives at least one piece and no piece holds the separator |
| Text.JoinSplit | Contents/Code/__init__.py:787 | joining the pieces with the separator gives back the input |
| Text.SplitJoin | Contents/Code/__init__.py:787 | splitting a join of separator-free pieces gives back the pieces |
| Text.Words | Contents/Code/__init__.py:400-405 | `split()` yields non-empty words without whitespace |
| Text.WordsCover | Contents/Code/__init__.py:400-405 | the words put back together are the input with its whitespace removed |
| Text.ReplaceAll | Contents/Code/__init__.py:288-308 | `replace` on a string not containing the pattern leaves it unchanged |
| Text.DecimalRoundTrip | Contents/Code/__init__.py:681-685 | `int(str(n)) == n` |
| Text.Lower | Contents/Code/__init__.py:809 | `lower()` keeps the length and lowers each character |
| Scan.GreedyPrefix | Contents/Code/__init__.py:674 | a greedy `(.*)` picks the last start position on the first line at which the rest matches |
| Rows.ReleaseDateText | Contents/Code/__init__.py:394-399 | the first "dd-dd-dd" if any, otherwise the first "dd.dd.dddd", otherwise the failure where `.group` raises |
| Rows.SecondWord | Contents/Code/__init__.py:400-405 | the second whitespace word, present exactly when there are at least two |
| Rows.ParseRowSpec | Contents/Code/__init__.py:377-437 | a row fails exactly when its date or language text lacks the pattern; otherwise it carries the parsed date, the second language word and the other probes unchanged |
| Rows.ParseRowsSuccess | Contents/Code/__init__.py:378-438 | the page parses exactly when every row does, row by row in order |
| Rows.ParseRowsFailure | Contents/Code/__init__.py:378-438 | a failing page reports the error of its first failing row |
| Rows.BeforeXPath | Contents/Code/__init__.py:377-438 | the loop returns the page parse, stopping at the first row that raises |
| Rows.IsoDateText | Contents/Code/__init__.py:395 | "2021-09-23" is read from its third character ("21-09-23") |
| Distance.LevenshteinZero | Contents/Code/__init__.py:528-539 | distance 0 means the strings are equal |
| Distance.LevenshteinSelf | Contents/Code/__init__.py:528-539 | a string is at distance 0 from itself |
| Distance.LevenshteinUpper | Contents/Code/__init__.py:528-539 | the distance is at most the longer length |
| Distance.LevenshteinLower | Contents/Code/__init__.py:528-539 | the distance is at least the length difference |
| Distance.LevenshteinSymmetric | Contents/Code/__init__.py:528-553 | the distance does not depend on the argument order |
| Scoring.ScoreAlbum | Contents/Code/__init__.py:528-539 | the title deduction is 0 exactly when the titles are equal |
| Scoring.ScoreAuthor | Contents/Code/__init__.py:541-553 | no deduction exactly when the library has no author; otherwise 0 exactly when the authors are equal |
| Scoring.ScoreLanguage | Contents/Code/__init__.py:555-575 | the deduction is 0 when the row language is the library language's name and 2 otherwise |
| Scoring.ScoreResult | Contents/Code/__init__.py:468-495 | score = 100 − (title distance + author distance when a local author exists + language penalty) |
| Scoring.ScoreAtMostInitial | Contents/Code/__init__.py:491-495 | no row scores above 100 |
| Scoring.PerfectScore | Contents/Code/__init__.py:477-495 | a row scores 100 exactly when title, author (if any) and language match |
| Scoring.ScoreLowerBound | Contents/Code/__init__.py:477-495 | the score never drops below 100 less the longer titles, the longer authors and 2 |
| Scoring.ExactTitleScoresFull | Contents/Code/__init__.py:477-495 | an exact title with no local author in the library language scores 100 |
| Scoring.ScoreCanBeNegative | Contents/Code/__init__.py:494-495 | nothing floors the score: it can go below zero |
| Ranking.InsertByScore | Contents/Code/__init__.py:465 | inserting keeps the multiset of entries plus the new one |
| Ranking.SortByScore | Contents/Code/__init__.py:465 | the sorted list is a permutation of its input |
| Ranking.RunSearch | Contents/Code/__init__.py:440-466 | the loop over rows returns the kept hits, sorted |
| Ranking.InsertKeepsSorted | Contents/Code/__init__.py:465 | inserting into a score-sorted list keeps it sorted |
| Ranking.SortIsSorted | Contents/Code/__init__.py:465 | the result is sorted by score, highest first |
| Ranking.SortIsStable | Contents/Code/__init__.py:465 | for every score, entries with that score keep their input order |
| Ranking.KeptFromAcceptedRows | Contents/Code/__init__.py:440-526 | a hit is kept exactly when its row has an id, is not a pre-order and scores at least 45; never more hits than rows |
| Ranking.RankedProperties | Contents/Code/__init__.py:440-526 | the ranked list is sorted, stable, no longer than the input, and holds exactly the hits of accepted rows, each scoring at least 45 with an id |
| Emission.TruncateTitle | Contents/Code/__init__.py:214-215 | at most 38 characters; unchanged exactly when it fits; otherwise the first 32 characters and ".." |
| Emission.TruncateIdempotent | Contents/Code/__init__.py:214-215 | truncating twice is truncating once |
| Emission.EmitResults | Contents/Code/__init__.py:210-246 | the results are a prefix of the ranked hits in order; all in manual mode or with at most one hit; otherwise emission stops right after the first hit scoring at least 98 |
| Emission.EmissionIsUnique | Contents/Code/__init__.py:210-246 | the stopping rule determines the emitted list |
| Emission.GoodScoreStopsEmission | Contents/Code/__init__.py:240-246 | hits scoring 99 then 80 in automatic mode emit only the first |
| Emission.Search | Contents/Code/__init__.py:159-246 | search fails exactly when a row raises, and otherwise emits the ranked hits of the parsed rows |
| Synopsis.StepsWellFormed | Contents/Code/__init__.py:288-308 | every step of the table replaces a simple tag by tag-free text |
| Synopsis.LookupIsRender | Contents/Code/__init__.py:288-308 | the first table step a tag meets gives its rendering: a line break for the closing paragraph, list and list-item tags, a bullet for an opening list item, nothing for the other fourteen tags |
| Synopsis.RenderMatchesTable | Contents/Code/__init__.py:288-308 | running the whole table over a single tag gives its rendering |
| Synopsis.CleanByPieces | Contents/Code/__init__.py:288-308 | a synopsis made of tag-free text and simple tags is cleaned piece by piece |
| Synopsis.CleanPlain | Contents/Code/__init__.py:288-308 | a synopsis without '<' is unchanged |
| Synopsis.ParagraphBecomesLine | Contents/Code/__init__.py:306-307 | a paragraph becomes its text and a line break |
| Synopsis.ListItemBecomesBullet | Contents/Code/__init__.py:303-304 | a list item becomes a bullet, its text and a line break |
| JsonRepair.RepairIsClean | Contents/Code/__init__.py:652-655 | no backslash in the output is one the repair would double |
| JsonRepair.RepairIdempotent | Contents/Code/__init__.py:649-655 | repairing twice is repairing once |
| JsonRepair.CleanIsFixpoint | Contents/Code/__init__.py:652-655 | clean text is left alone |
| JsonRepair.EscapeSurvives | Contents/Code/__init__.py:653 | a valid escape after a backslash stays valid |
| JsonRepair.PlainUnchanged | Contents/Code/__init__.py:649-655 | text with no backslash and no line break is unchanged |
| JsonRepair.NoNewlineAdded | Contents/Code/__init__.py:649 | the repaired text holds no line break |
| JsonRepair.RepairOnlyAddsBackslashes | Contents/Code/__init__.py:655 | with all backslashes deleted, input and output agree |
| JsonRepair.RepairLength | Contents/Code/__init__.py:655 | the output is longer than the input by exactly the number of flagged backslashes |
| JsonRepair.StrayBackslashDoubled | Contents/Code/__init__.py:652-655 | a backslash between plain text that starts no escape is doubled, and nothing else changes |
| Copyright.PublicDomainYear | Contents/Code/__init__.py:673-674 | four digits right after a "(P)" on the first line, present exactly when such a "(P)" exists |
| Copyright.BeforeLastP | Contents/Code/__init__.py:678-679 | the text before the last "(P)" on the first line |
| Copyright.LeadingYear | Contents/Code/__init__.py:687 | four digits at position 1 win over four at position 0; nothing when neither exists |
| Copyright.DigitTokens | Contents/Code/__init__.py:683 | every token is an all-digit word of the list, every all-digit word is a token, and there are no more tokens than words |
| Copyright.DigitTokensAppend | Contents/Code/__init__.py:683 | the tokens of two word lists are those of the first followed by those of the second, so the filter keeps word order |
| Copyright.DigitTokensSingle | Contents/Code/__init__.py:683 | a single word is a token exactly when it is all digits |
| Copyright.MinValue | Contents/Code/__init__.py:682-683 | the least value among the tokens, attained by one of them |
| Copyright.SmallestYear | Contents/Code/__init__.py:680-685 | fails exactly when there is no all-digit word; otherwise the canonical decimal (no leading zero) of the least value among them |
| Copyright.OverrideYear | Contents/Code/__init__.py:672-687 | a non-Audible line gives a non-empty digit string or a pattern failure |
| Copyright.WithoutMark | Contents/Code/__init__.py:676-677 | a leading copyright glyph is cut off, and nothing else |
| Copyright.CopyrightDate | Contents/Code/__init__.py:660-687 | no span or empty text: the date stands; the Audible-only line: a text date is cut to four characters, any other date raises; any other line: the date becomes the year read from it, or the error |
| Copyright.OverrideIgnoresDate | Contents/Code/__init__.py:672-687 | for a non-Audible line, the outcome does not depend on the date found so far and is digits |
| Copyright.PublicDomainCase | Contents/Code/__init__.py:673-674 | a public-domain line gives the public-domain year (the four digits after the last "(P)" on the first line that has them), and a pattern failure when there is none |
| Copyright.LeadingYearCase | Contents/Code/__init__.py:686-687 | without "Public Domain", "©", "(P)" and ';', the year is the leading-year match |
| Copyright.SemicolonCase | Contents/Code/__init__.py:676-685 | with ';' and without "(P)", the year is the least all-digit word of the line after the glyph |
| Copyright.PhonogramCutCase | Contents/Code/__init__.py:676-687 | with "(P)", the line is cut before its last "(P)" and the ';' rule or the leading year reads the cut text; no "(P)" on the first line is a pattern failure |
| Copyright.GluedYearIgnored | Contents/Code/__init__.py:680-685 | in "Y1; Y2 " the year glued to ';' is no token, so Y2 is taken |
| Copyright.CanonicalDecimal | Contents/Code/__init__.py:681-685 | `str(int(s)) == s` for a digit string without a leading zero |
| Copyright.YearAtStart | Contents/Code/__init__.py:687 | four digits followed by a non-digit give those four digits |
| Copyright.FiveDigitsExample | Contents/Code/__init__.py:687 | "12345" gives "2345" |
| Copyright.AudibleLineExample | Contents/Code/__init__.py:668-670 | the date "2018-03-01" with the line "© 2015; 2018" becomes "2018" |
| Series.NormalizeVolume | Contents/Code/__init__.py:702-711 | the stripped volume, except that a bare "," becomes "" |
| Series.Preferred | Contents/Code/__init__.py:698-700 | the second value when it is non-empty, else the first |
| Series.FromLabel | Contents/Code/__init__.py:690-715 | the series label gives volumes other than ",", the preferred series and the preferred volume |
| Series.BookSplit | Contents/Code/__init__.py:726 | the name before the last ", Book N" on the first line and ", Book " with all its digits, or nothing when none exists |
| Series.HandleSeries | Contents/Code/__init__.py:689-729 | raises exactly when no series is found and no main block binds the subtitle; a found series stands; otherwise the series name and volume become the ", Book N" split of the stripped subtitle when it has one, and nothing changes when it has none |
| Series.CleanSeriesName | Contents/Code/__init__.py:825-827 | the name is unchanged exactly when no ": A … Series" tail exists on its first line; otherwise it is the prefix before the last such tail |
| Series.ParseSeries | Contents/Code/__init__.py:823-854 | the cleaned name; the title is untouched unless the cleaned name ends in " Series" |
| Series.CleanupNotIdempotent | Contents/Code/__init__.py:825-827 | "X: A B Series: A C Series" cleans to "X: A B Series", which cleans again to "X" |
| Series.NonEmpty | Contents/Code/__init__.py:745-747 | `filter(None, …)` keeps only non-empty entries of the list |
| Series.TitleSortCases | Contents/Code/__init__.py:744-748 | the sort key is the title without series and volume, series and volume without a title, else both joined by " - " |
| Metadata.GenreSet | Contents/Code/__init__.py:776-781 | the parent genre, and the child genre exactly when it is non-empty |
| Metadata.GenreString | Contents/Code/__init__.py:311-314 | the parent alone without a child genre, else the parent, ", " and the child; GenreStringListsGenres ties it to the genre set |
| Metadata.GenreStringListsGenres | Contents/Code/__init__.py:311-314 | splitting the logged genre string on commas and stripping gives the genre set |
| Metadata.SeriesMoods | Contents/Code/__init__.py:814-821 | the moods are exactly "Series: " followed by each non-empty series name, and nothing else |
| Metadata.StylesOfEntries | Contents/Code/__init__.py:787-791 | the narrator loop adds exactly the stripped entries |
| Metadata.MoodsOfEntries | Contents/Code/__init__.py:797-812 | the author loop adds exactly the stripped entries that name no contributor role |
| Metadata.StylesAreStrippedNames | Contents/Code/__init__.py:787-791 | every style is comma-free, stripped and occurs in the narrator text |
| Metadata.MoodsNameNoRole | Contents/Code/__init__.py:797-812 | no author mood contains "contributor", "translator", "foreword" or "translated" in lower case |
| Metadata.SingleNarrator | Contents/Code/__init__.py:787-791 | a comma-free narrator text is one style, stripped |
| Metadata.MetadataRecord.AddGenres | Contents/Code/__init__.py:772-781 | genres become the genre set unless the preference forbids it; nothing else changes |
| Metadata.MetadataRecord.AddNarratorsToStyles | Contents/Code/__init__.py:783-791 | styles become the stripped narrator entries; nothing else changes |
| Metadata.MetadataRecord.AddAuthorsToMoods | Contents/Code/__init__.py:793-812 | moods become the stripped author entries that name no role; nothing else changes |
| Metadata.MetadataRecord.AddSeriesToMoods | Contents/Code/__init__.py:814-821 | the series links are added to the moods already there |
| Update.HarvestSeesRepaired | Contents/Code/__init__.py:644-658 | the harvester only sees repaired text: harvesting already repaired scripts gives the same helper |
| Update.HarvestKeepsSeries | Contents/Code/__init__.py:644-658 | the harvest never changes the series fields, however many scripts there are |
| Update.DateFromString | Contents/Code/__init__.py:867-873 | a date text becomes the parsed date or None; never a text afterwards |
| Update.MissingDateBlockSpec | Contents/Code/__init__.py:277-285 | the date block fails only in the copyright override (when asked for) or in handle_series; otherwise the helper is the harvested one with only its date (parsed, never text) and series fields changed |
| Update.CompiledContents | Contents/Code/__init__.py:731-750 | every mood is a role-free author or a series link, every style a stripped narrator, and the date is copied unless it is None |
| Update.CompiledSortKey | Contents/Code/__init__.py:744-748 | the record's sort key follows the title_sort cases with the cleaned series name |
| Update.UpdateHelper.DateMissing | Contents/Code/__init__.py:644-658 | the helper becomes the harvest over the joined and repaired scripts, in document order |
| Update.UpdateHelper.SetScraped | Contents/Code/__init__.py:658 | the harvester's fields are written into the helper and the series fields are kept |
| Update.UpdateHelper.UseCopyrightDate | Contents/Code/__init__.py:660-687 | the outcome and new date are those of the copyright rule; on failure the date stands |
| Update.UpdateHelper.HandleSeries | Contents/Code/__init__.py:689-729 | the outcome and new series fields are those of the series rule |
| Update.UpdateHelper.ParseSeriesFields | Contents/Code/__init__.py:823-854 | the series name and title become those of parse_series |
| Update.UpdateHelper.CompileMetadata | Contents/Code/__init__.py:731-750 | the record becomes the compiled record and the helper gets the parse_series name and title |
| Update.UpdateHelper.Update | Contents/Code/__init__.py:248-336 | with a scraped date, update always succeeds; otherwise it fails exactly when the date block does, leaving the record untouched; on success it logs the genre string of the helper after the date block, and the record is compiled from that helper with the cleaned synopsis |

## Left out

- Fetching pages, XPath probing and `json.loads`: the scraped strings, the
  number of matching page elements and the JSON-LD script texts are
  parameters. `scrape_book_metadata` copies probes into the helper, parses the
  release date with `getDateFromString` and strips the narrator and the
  synopsis. The helper's constructor takes the state it leaves.
- The host's foreign helpers are parameters:
  - `Datetime.ParseDate` (`getDateFromString`);
  - `get_id_from_url` and `check_if_preorder`;
  - `re_parse_with_date_published` (the harvester, fed the repaired text).
    It may rewrite any scraped field of the helper. The model assumes it
    leaves the series fields alone, since it does not read them;
  - the title-stripping pattern of `parse_series`, built at run time from
    scraped data.
- `json.loads` errors and the pattern's own compile errors are not
  modelled.
- `Update.DateFromString`:
  - on a date that is already parsed, it is taken to keep that date;
  - the helper it calls is not part of this model.
- `String.StripDiacritics`, `String.Quote`, `SiteUrl` and
  `create_search_url` are not modelled. The last only fills URL templates of
  `SiteUrl` with `String.Quote`, and neither is part of this model.
- `Scoring.ScoreAlbum`: the distance is taken over characters. The source
  measures the UTF-8 bytes of the row title against the album title.
- Text handling covers ASCII only. Whitespace, `lower()` and `isdigit()` are
  modelled on ASCII characters, and the Unicode classes Python also accepts
  are not modelled.
- Logging (`logging.py` and every `log.*` call) is left out. So are the
  worker and queue scaffolding, `AudiobookArtist.search` (which only logs),
  posters, the image proxy and `rating * 2` (floating point).
- `helper.writeInfo()` at the end of `compile_metadata` only logs. The
  search-side `strip_title` and `validate_author_name` belong to the host's
  search helper, which is not part of this model. The scorer sees the library's
  album title as the library has it: `normalize_name` and `strip_title` only
  feed the search URL. Only `validate_author_name`, which is not part of this
  model, may change the local author before scoring.
- `Emission.Search`: an empty result page returns before ranking. The model
  returns with no results, which is the same outcome.
