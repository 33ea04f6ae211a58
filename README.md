# Trakt season integration: the decision logic, in Dafny

`trakt_seasons.py` has two commands. `pull` copies TV season titles and summaries from the
Trakt catalog into a Plex library. `reset` clears them again. This project models the
decisions the script's `main()` takes. It covers:

- which shows are selected and which are excluded by label;
- when a show is skipped because everything requested is already locked;
- how the external identifier is picked among imdb, tmdb and tvdb guids, and how its opaque
  id is cut out of the guid;
- how each catalog season becomes an edit of the local season: which fields are written,
  with which value and which lock flag;
- how the reset edit is built;
- the counters both commands report at the end.

Plex and Trakt are not called. The model takes their answers as inputs:
- the shows of each library and the hits of each show search (`Selection`);
- the catalog search result and season list of each show (`Pull.CatalogAnswer`).

Each `season.edit(**edit)` call is recorded as an `EditCall`: the show's key, the season
record and the edit map. `Library.ApplyEdit` is what the server does with an edit map, and
`Library.ApplyEditOutcome` states it field by field: `X.value` replaces the field, `X.locked`
1 locks it and 0 unlocks it. The lemmas about a season's state after an edit rest on that
statement. Within one show's season loop the server's seasons are state: each
`show.season(n)` reads them as the earlier edits have left them (`Pull.EditSeason`).

Modules:
- `Wrappers`: `Option`.
- `Text`: the substring test, ASCII lower-casing and `str(int)`.
- `Library`: shows, seasons, edit maps, applying an edit.
- `Selection`: the exclude filter and the selection loops.
- `Identifiers`: guid choice, id extraction, and resolution as written (see Findings).
- `Pull`: lock indicators, the skip rule, the per-season edit, the season loop and the show loop.
- `Reset`: the reset edit and its two nested loops.

Where the tool's written description and the code differ, the model follows the code:
- `reset` edits every season `show.seasons()` returns, season 0 included. Only `pull` drops
  season 0.
- The exclude test lower-cases the label tags but not the `--exclude` value. So an
  `--exclude` containing an upper-case letter never matches
  (`Selection.UpperCaseExcludeNeverMatches`).
- The show-level skip applies to any `--data` selection: every requested field must be locked
  on every non-zero season, and an empty season list counts as all locked.
- In `pull`, a season counts as processed when it is not locked on both title and summary,
  whatever `--data` says. Every season found locally is sent an edit, which may be empty.
- A successfully written summary is always locked, because the accepted `--unlock` choice is
  spelled differently from the keyword the code tests (see Findings).

## Model

| member | source | states |
|---|---|---|
| `Selection.Keep` | trakt_seasons.py:131 | a show is kept iff there is no `--exclude`, or no label tag lower-cased equals the exclude value as given |
| `Selection.UpperCaseExcludeNeverMatches` | trakt_seasons.py:144 | an exclude value with an upper-case letter excludes no show, because only the tags are lower-cased |
| `Selection.Select` | trakt_seasons.py:124-154 | the selected set is exactly the kept shows among those of the libraries found and the first hit of each non-empty search, deduplicated |
| `Library.EnumerationSize` | trakt_seasons.py:154 | a loop over the deduplicated set visits as many shows as the set holds |
| `Library.ApplyEdit` | trakt_seasons.py:320 | applying an edit keeps the season number; an empty edit changes nothing |
| `Library.ApplyEditOutcome` | trakt_seasons.py:320 | for every season, edit and field: an `X.value` entry becomes the field's value; a lock entry locks the field iff it is non-zero; a field or lock the edit does not name is kept |
| `Identifiers.FirstMatch` | trakt_seasons.py:226 | the index returned is the first guid containing the marker, or the list length when none does |
| `Identifiers.FirstContaining` | trakt_seasons.py:226-228 | `next(...)` yields None iff no guid contains the marker, and otherwise the earliest guid that does |
| `Identifiers.SelectGuid` | trakt_seasons.py:225-244 | priority imdb > tmdb > tvdb: the first imdb guid if any guid mentions imdb, else the first tmdb guid, else the first tvdb guid, else nothing |
| `Identifiers.FindSeparator` | trakt_seasons.py:245 | returns the position of the first `://` at or after the start, or the length when there is none |
| `Identifiers.ExtractId` | trakt_seasons.py:245 | no result iff the guid has no `://`; otherwise the characters after the first `://` up to the next `/` or the end, containing no `/` |
| `Identifiers.ExtractIdOfUri` | trakt_seasons.py:245 | for `scheme://id` followed by nothing or by `/…`, the extraction returns exactly `id` (e.g. `imdb://tt123` gives `tt123`) |
| `Identifiers.Resolve` | trakt_seasons.py:225-246 | resolved iff the guid list is non-empty, names a known scheme and the chosen guid has `://`; the scheme and id are then those of the chosen guid; the legacy single-guid path is unresolved |
| `Identifiers.ResolveImdbFirst` | trakt_seasons.py:226-245 | a list whose first imdb guid is `imdb://id` resolves to scheme imdb and that id |
| `Identifiers.ResolveAsWritten` | trakt_seasons.py:225-245 | the resolution as the loop runs it, with the scheme variables, `id` and `type` carried over from earlier shows; a show with no identifier leaves them unchanged |
| `Identifiers.ExtractedIdHasNoSeparator` | trakt_seasons.py:245 | re-running the extraction on an extracted id finds no match |
| `Identifiers.AsWrittenAgreesWhenResolved` | trakt_seasons.py:225-245 | when the show's own guids resolve, the loop as written picks the same scheme and id whatever earlier shows left behind |
| `Identifiers.ReachablePreserved` | trakt_seasons.py:225-245 | the locals start reachable, and every show the loop gets past without raising leaves them reachable, so `AsWrittenCrashesWithoutMatch` applies to every show of a run |
| `Identifiers.AsWrittenCrashesWithoutMatch` | trakt_seasons.py:236-245 | a non-empty guid list naming no known scheme makes the loop as written raise |
| `Identifiers.StaleImdbReused` | trakt_seasons.py:229-245 | a legacy-tvdb show processed after an imdb-resolved show is looked up with the earlier show's imdb id |
| `Identifiers.StaleImdbReusedExample` | trakt_seasons.py:229-245 | the concrete case: `imdb://tt0903747`, then legacy `com.plexapp.agents.thetvdb://81189?lang=en`, resolves the second show to `tt0903747` |
| `Library.LockIndicator` | trakt_seasons.py:160-161 | a lock indicator, in `reset` as in `pull` (lines 203-206), is 0 exactly when its keyword is among the `--unlock` values, and 1 otherwise |
| `Pull.UnlockChoicesAsWritten` | trakt_seasons.py:86-92 | the accepted `--unlock` choices include `successful_title`, `failed_title`, `failed_summary` but not `successful_summary` |
| `Pull.SuccessfulSummaryAlwaysLockedAsWritten` | trakt_seasons.py:203-206 | with any accepted `--unlock` values, the successful-summary indicator is 1 |
| `Pull.UnlockChoices` | trakt_seasons.py:86-92 | the corrected choices hold the successful and failed keyword of each field |
| `Pull.EveryIndicatorSelectable` | trakt_seasons.py:203-206 | with the corrected choices, each of the four indicators is switched to 0 by choosing its keyword |
| `Pull.AllLocked` | trakt_seasons.py:215-219 | `all(...)` holds iff every season in the list has the field locked (true on an empty list) |
| `Pull.NonSpecial` | trakt_seasons.py:212 | the filtered list holds exactly the seasons whose number is not 0 |
| `Pull.SkipShow` | trakt_seasons.py:212-224 | a show is skipped iff `--force` is off and every requested field is locked on every non-zero season; an unrequested field counts as locked, and an empty list skips |
| `Pull.SkipShowLosesNoEdit` | trakt_seasons.py:212-224 | a show the skip rule drops would only have been sent empty edits, and its seasons would have been left as they were |
| `Pull.NewTitle` | trakt_seasons.py:269-271 | a catalog title is usable iff present, non-empty and not `Season N` for the season's own number N |
| `Pull.NewSummary` | trakt_seasons.py:303-304 | a catalog overview is usable iff present and non-empty |
| `Pull.Written` | trakt_seasons.py:275-286 | the fields written are the requested fields not locked, where `--force` treats every field as unlocked |
| `Pull.SeasonEdit` | trakt_seasons.py:285-319 | the edit holds `X.value` and `X.locked` exactly for the written fields; a usable catalog value is written with the successful indicator, otherwise the old local value goes back with the failed indicator |
| `Pull.PullSeason` | trakt_seasons.py:275-319 | the season counts iff not locked on both title and summary; a new title/summary counts iff the field is written and a usable catalog value exists; a new value implies the season counts; the edit is `SeasonEdit` |
| `Pull.LockedSeasonUnchanged` | trakt_seasons.py:275-320 | without `--force`, a season whose requested fields are all locked is left exactly as it was |
| `Pull.PulledFieldOutcome` | trakt_seasons.py:286-320 | after the edit a written field holds the catalog value and is locked unless its successful keyword was given, or keeps its old value and is locked unless its failed keyword was given; this holds with `--force` too |
| `Pull.SeasonEditShape` | trakt_seasons.py:285-319 | every season edit pairs value and lock for requested fields only and, without `--force`, names no locked field |
| `Pull.LocalSeason` | trakt_seasons.py:274 | the season found has the requested number |
| `Pull.LocalSeasonFirst` | trakt_seasons.py:274 | nothing is found iff no season has the number; otherwise the season found is the first one with that number |
| `Pull.EditSeason` | trakt_seasons.py:274-320 | the show keeps as many seasons after an edit; an empty edit changes nothing |
| `Pull.EditSeasonLookup` | trakt_seasons.py:274-320 | after an edit of season n, `show.season(n)` returns the edited season (`ApplyEdit` of the one found before) and a look-up of any other number returns what it returned before |
| `Pull.EditSeasonNumbers` | trakt_seasons.py:320 | an edit changes no season's number |
| `Pull.SeasonsPulled` | trakt_seasons.py:266-322 | at most one edit per catalog record; each record reads the season as the earlier edits left it |
| `Pull.SeasonsPulledShape` | trakt_seasons.py:266-322 | over one show's catalog: new titles and summaries never exceed the seasons counted, which never exceed the edits; every edit targets a non-zero season number the show has and is well formed; without `--force` no edit touches a locked field; the show keeps its seasons and their numbers |
| `Pull.LockedTitleStep` | trakt_seasons.py:274-302 | a record whose season has the title locked sends an edit without `title.value` and counts no new title |
| `Pull.TitlePulledOnce` | trakt_seasons.py:274-320 | the first pull of a season with an unlocked title writes the catalog title, counts one new title, and leaves the season with that title, locked |
| `Pull.RepeatedSeasonWrittenOnce` | trakt_seasons.py:266-320 | a catalog listing a season twice writes and counts its title once; the second edit sees the first title and leaves it alone |
| `Pull.PullCatalogSeason` | trakt_seasons.py:267-322 | one pass of the season loop body computes exactly one `PullStep` |
| `Pull.PullShowSeasons` | trakt_seasons.py:266-322 | the season loop with its three counters and the library's seasons computes exactly `SeasonsPulled` |
| `Pull.Slug` | trakt_seasons.py:248-257 | an imdb id is the slug; otherwise the slug is the first search result's and is missing iff the search failed or found nothing |
| `Pull.DecideOutcome` | trakt_seasons.py:212-264 | a show is skipped as all-locked iff the skip rule says so; it is skipped as unresolved iff it is not all-locked and has no usable identifier; it proceeds iff it also gets a slug and a season list, and then uses them |
| `Pull.PullAll` | trakt_seasons.py:197-325 | shows counted are at most the shows walked |
| `Pull.PullAllShape` | trakt_seasons.py:197-325 | new titles and summaries never exceed the seasons counted, which never exceed the edits; no edit touches season 0; every edit pairs value and lock for requested fields; without `--force` no edit touches a locked field |
| `Pull.PullOneShow` | trakt_seasons.py:212-323 | one pass of the show loop body computes exactly one `PullShow` |
| `Pull.UnresolvedShowIgnored` | trakt_seasons.py:233-235 | a show without a usable identifier changes no counter and sends no edit |
| `Pull.Pull` | trakt_seasons.py:197-325 | the show loop with its four counters computes exactly `PullAll` |
| `Reset.ResetEdit` | trakt_seasons.py:168-174 | the edit holds `X.value` = `''` and `X.locked` together, exactly for the requested fields |
| `Reset.ResetOutcome` | trakt_seasons.py:168-175 | after a reset a requested field is empty and locked iff `--unlock` does not name it; other fields are kept |
| `Reset.ResetShow` | trakt_seasons.py:164-175 | one edit per season of the show, season 0 included, in library order |
| `Reset.ResetAll` | trakt_seasons.py:156-195 | the show counter equals the shows walked; the season counter equals the number of edits and the seasons listed; every edit is the reset edit; every season of every show is edited |
| `Reset.ResetCountsSelection` | trakt_seasons.py:154-163 | over the deduplicated selection the show counter equals the number of selected shows |
| `Reset.Reset` | trakt_seasons.py:156-195 | the nested show/season loop with its two counters computes exactly `ResetAll` |

## Left out

- Argument parsing and the usage error when neither `--libraries` nor `--shows` is given (lines 29-96). The parsed values are plain inputs: `--data` as a set of fields, `--unlock` as a set of keyword strings, `--force` as a boolean and `--exclude` as an optional string.
- Logging (lines 99-118 and every `log.*` call). The `'summaries'` test at line 185 only decides whether a debug line is logged.
- Plex calls: `library.section`, `section.all`, `search`, `seasons`, `season`, `edit` and `reload`. Their results are inputs, except that within one show's season loop `show.season(n)` reads the seasons as the earlier edits have left them. An edit is recorded, and `Library.ApplyEdit` states the server's effect. Edits to one show do not change another show's seasons, and the model does not re-read a show's seasons between shows.
- A failure in the middle of a library's show list (line 136) is not modelled. Only a library that cannot be found at all is modelled, as `None`.
- Trakt HTTP requests and JSON decoding (lines 251-264). Each show's search result and season list are inputs. The season list is not tied to the slug in the model, but the slug is computed and returned in `Pull.Decide`.
- A catalog record without `number`, `title` or `overview` makes lines 267-272 raise outside the `try`. The model takes catalog records as well formed.
- Bare `except` around a season (line 321). Only "season absent locally" is modelled as a skipped season. A failure inside `edit()` is not modelled.
- `time.sleep(1)` (line 323).
- Deduplication: `set(process_list)` deduplicates by object identity. The model deduplicates by value, and the show's library key keeps distinct shows apart. The arbitrary set iteration order is an input: `Pull.Pull` and `Reset.Reset` take the selected shows as a sequence (`Library.Enumerates`).
- `Text.Lower` lower-cases ASCII letters only. Python's `str.lower()` also maps non-ASCII letters.
- `Identifiers.Resolve` treats the legacy single-guid path (lines 229-232) as unresolved. The script does not use that guid reliably (see Findings), and the model does not look the show up by its legacy id.
- `Identifiers.Resolve` also treats a chosen guid without `://` as unresolved. There the script's `.group(1)` raises and ends the run.

## Findings

| source | as written | input that shows it | evidently intended | confidence | as-written member | corrected member |
|---|---|---|---|---|---|---|
| trakt_seasons.py:88 | the pull `--unlock` choice is spelled `successful summary`, but line 205 tests for `successful_summary` | `pull --unlock successful_summary` is rejected by the parser; `pull --unlock "successful summary"` is accepted and changes nothing | `successful_summary` can be chosen and leaves successfully written summaries unlocked | high, not executed | `Pull.SuccessfulSummaryAlwaysLockedAsWritten` | `Pull.EveryIndicatorSelectable` |
| trakt_seasons.py:225-245 | `imdb`, `tmdb`, `tvdb`, `id` and `type` are locals of `main` that keep their values across shows; the legacy-guid branch sets only one of them, and a guid list naming no scheme leaves `id` unset | show A with guids `["imdb://tt0903747"]`, then show B with no guids and guid `com.plexapp.agents.thetvdb://81189?lang=en`: B is looked up as `tt0903747`; a show whose only guid is `plex://show/1` raises and stops the run | each show is resolved from its own identifiers only, and a show that cannot be resolved is skipped | high, not executed | `Identifiers.StaleImdbReused` | `Identifiers.Resolve` |

In both cases the rest of the model uses the corrected behaviour:
- `Pull.PullOptions` carries the `--unlock` keywords the lock test reads.
- `Pull.Decide` resolves each show with `Identifiers.Resolve`, which depends on the show's own guids only.
