/**
 * The `pull` command: for every selected show, skip it when all requested
 * fields are locked, resolve its identifier, look up its catalog slug and
 * seasons, and for every catalog season that exists locally build the edit
 * that writes the catalog title and summary with the configured lock flags.
 */
module Pull {
  import opened Wrappers
  import opened Text
  import opened Library
  import opened Identifiers

  /** A catalog season record: `number`, `title` and `overview` (JSON null is None). */
  datatype CatalogSeason = CatalogSeason(number: int, title: Option<string>, overview: Option<string>)

  /**
   * What the catalog answers for one show: the slugs of the search-by-id
   * results (None when the request or its decoding failed), and the season
   * list fetched by slug (None when that request failed).
   */
  datatype CatalogAnswer = CatalogAnswer(search: Option<seq<string>>, seasons: Option<seq<CatalogSeason>>)

  /** The parsed `pull` options: `--data`, `--force`, `--unlock`. */
  datatype PullOptions = PullOptions(data: set<Field>, force: bool, unlock: set<string>)

  // ---------------------------------------------------------------------
  // Lock indicators

  /** The `--unlock` keywords tested for a field written from the catalog, and for one left as it was. */
  function SuccessKeyword(f: Field): string
  {
    match f
    case Title => "successful_title"
    case Summary => "successful_summary"
  }

  function FailureKeyword(f: Field): string
  {
    match f
    case Title => "failed_title"
    case Summary => "failed_summary"
  }

  /** The `--unlock` choices the argument parser accepts, spelled as in the script. */
  function UnlockChoicesAsWritten(): (choices: set<string>)
    ensures SuccessKeyword(Summary) !in choices
    ensures SuccessKeyword(Title) in choices && FailureKeyword(Title) in choices && FailureKeyword(Summary) in choices
  {
    {"failed_title", "failed_summary", "successful_title", "successful summary"}
  }

  /** With the script's choices, a successful summary is always written locked. */
  lemma SuccessfulSummaryAlwaysLockedAsWritten(unlock: set<string>)
    requires unlock <= UnlockChoicesAsWritten()
    ensures LockIndicator(unlock, SuccessKeyword(Summary)) == 1
  {
  }

  /** The `--unlock` choices with `successful_summary` spelled as the lock test reads it. */
  function UnlockChoices(): (choices: set<string>)
    ensures forall f :: SuccessKeyword(f) in choices && FailureKeyword(f) in choices
  {
    {"failed_title", "failed_summary", "successful_title", "successful_summary"}
  }

  /** With the corrected choices every lock indicator can be switched off from the command line. */
  lemma EveryIndicatorSelectable(f: Field)
    ensures {SuccessKeyword(f)} <= UnlockChoices() && LockIndicator({SuccessKeyword(f)}, SuccessKeyword(f)) == 0
    ensures {FailureKeyword(f)} <= UnlockChoices() && LockIndicator({FailureKeyword(f)}, FailureKeyword(f)) == 0
  {
  }

  // ---------------------------------------------------------------------
  // Show-level skip rule

  /** `all(field in season.fields for season in seasons)`, true on an empty list. */
  function AllLocked(seasons: seq<Season>, f: Field): (all: bool)
    ensures all <==> forall i :: 0 <= i < |seasons| ==> IsLocked(seasons[i], f)
  {
    if seasons == [] then true else IsLocked(seasons[0], f) && AllLocked(seasons[1..], f)
  }

  /** `list(filter(lambda x: x.seasonNumber != 0, show.seasons()))`. */
  function NonSpecial(seasons: seq<Season>): (r: seq<Season>)
    ensures forall s :: s in r <==> s in seasons && s.number != 0
  {
    if seasons == [] then []
    else if seasons[0].number != 0 then [seasons[0]] + NonSpecial(seasons[1..])
    else NonSpecial(seasons[1..])
  }

  /**
   * Without `--force` a show is skipped when every non-special season has
   * every requested field locked; a field not requested counts as locked,
   * and a show with no non-special season is skipped.
   */
  function SkipShow(seasons: seq<Season>, opts: PullOptions): (skip: bool)
    ensures skip <==> !opts.force && forall f, s :: f in opts.data && s in seasons && s.number != 0 ==> IsLocked(s, f)
  {
    if opts.force then false
    else
      var list := NonSpecial(seasons);
      var allTitlesLocked := if Title in opts.data then AllLocked(list, Title) else true;
      var allSummariesLocked := if Summary in opts.data then AllLocked(list, Summary) else true;
      assert forall f, s :: f in opts.data && s in list ==> (IsLocked(s, f) <== AllLocked(list, f));
      allTitlesLocked && allSummariesLocked
  }

  // ---------------------------------------------------------------------
  // One catalog season against one local season

  /** The default title the catalog gives a season without a name. */
  function Placeholder(number: int): string
  {
    "Season " + IntString(number)
  }

  /** The catalog title worth writing: present, non-empty and not the placeholder. */
  function NewTitle(c: CatalogSeason): (t: Option<string>)
    ensures t.Some? <==> c.title.Some? && c.title.value != "" && c.title.value != Placeholder(c.number)
    ensures t.Some? ==> t == c.title
  {
    match c.title
    case None => None
    case Some(title) => if title == Placeholder(c.number) || title == "" then None else Some(title)
  }

  /** The catalog overview worth writing: present and non-empty. */
  function NewSummary(c: CatalogSeason): (t: Option<string>)
    ensures t.Some? <==> c.overview.Some? && c.overview.value != ""
    ensures t.Some? ==> t == c.overview
  {
    if c.overview.Some? && c.overview.value != "" then c.overview else None
  }

  function CatalogValue(c: CatalogSeason, f: Field): Option<string>
  {
    match f
    case Title => NewTitle(c)
    case Summary => NewSummary(c)
  }

  /** Lock state as the pull sees it: `--force` treats every field as unlocked. */
  predicate TreatedLocked(s: Season, f: Field, force: bool)
  {
    !force && IsLocked(s, f)
  }

  /** The fields a pull writes into a season. */
  function Written(local: Season, opts: PullOptions): (w: set<Field>)
    ensures forall f :: f in w <==> f in opts.data && !TreatedLocked(local, f, opts.force)
  {
    (if Title in opts.data && !TreatedLocked(local, Title, opts.force) then {Title} else {}) +
    (if Summary in opts.data && !TreatedLocked(local, Summary, opts.force) then {Summary} else {})
  }

  /** What is written into a field: the usable catalog value, or else the old local value. */
  function ValueEntry(f: Field, c: CatalogSeason, local: Season): EditValue
  {
    match CatalogValue(c, f)
    case Some(v) => Text(v)
    case None => Text(FieldValue(local, f))
  }

  /** The lock flag written with it: the successful indicator, or else the failed one. */
  function LockEntry(f: Field, c: CatalogSeason, unlock: set<string>): EditValue
  {
    Flag(LockIndicator(unlock, if CatalogValue(c, f).Some? then SuccessKeyword(f) else FailureKeyword(f)))
  }

  /** The edit entries for one requested, unlocked field, added to `e`. */
  function FieldEdit(e: Edit, f: Field, c: CatalogSeason, local: Season, unlock: set<string>): (r: Edit)
    ensures r.Keys == e.Keys + {ValueKey(f), LockKey(f)}
    ensures forall k :: k in e && k != ValueKey(f) && k != LockKey(f) ==> r[k] == e[k]
    ensures r[ValueKey(f)] == ValueEntry(f, c, local) && r[LockKey(f)] == LockEntry(f, c, unlock)
  {
    EditKeysDistinct(f, f);
    e[ValueKey(f) := ValueEntry(f, c, local)][LockKey(f) := LockEntry(f, c, unlock)]
  }

  /**
   * The edit for one catalog season and the local season of the same number.
   * It writes value and lock together, exactly for the requested fields the
   * pull treats as unlocked. A usable catalog value is written with the
   * successful-lock flag; otherwise the old local value is written back with
   * the failed-lock flag.
   */
  function SeasonEdit(c: CatalogSeason, local: Season, opts: PullOptions): (e: Edit)
    ensures e.Keys == EditKeys(Written(local, opts))
    ensures forall f :: ValueKey(f) in e ==>
      e[ValueKey(f)] == ValueEntry(f, c, local) && e[LockKey(f)] == LockEntry(f, c, opts.unlock)
  {
    var w := Written(local, opts);
    var e1 := if Title in w then FieldEdit(map[], Title, c, local, opts.unlock) else map[];
    EditKeysDistinct(Title, Summary);
    EditKeysByField(w);
    if Summary in w then FieldEdit(e1, Summary, c, local, opts.unlock) else e1
  }

  /** The edit sent for one season, and which counters it moves. */
  datatype SeasonResult = SeasonResult(edit: Edit, counted: bool, newTitle: bool, newSummary: bool)

  /**
   * One catalog season reconciled with the local season of the same number:
   * the edit sent, and the counters moved. The season counts when it is not
   * locked on both title and summary (whatever `--data` says); a title or
   * summary counts as new exactly when a usable catalog value is written.
   */
  function PullSeason(c: CatalogSeason, local: Season, opts: PullOptions): (r: SeasonResult)
    ensures r.edit == SeasonEdit(c, local, opts)
    ensures r.counted <==> !(TreatedLocked(local, Title, opts.force) && TreatedLocked(local, Summary, opts.force))
    ensures r.newTitle <==> Title in Written(local, opts) && NewTitle(c).Some?
    ensures r.newSummary <==> Summary in Written(local, opts) && NewSummary(c).Some?
    ensures r.newTitle || r.newSummary ==> r.counted
  {
    var lockedTitle := TreatedLocked(local, Title, opts.force);
    var lockedSummary := TreatedLocked(local, Summary, opts.force);
    SeasonResult(
      SeasonEdit(c, local, opts),
      !(lockedTitle && lockedSummary),
      Title in opts.data && !lockedTitle && NewTitle(c).Some?,
      Summary in opts.data && !lockedSummary && NewSummary(c).Some?)
  }

  /** Without `--force`, a season whose requested fields are all locked is left as it is. */
  lemma LockedSeasonUnchanged(c: CatalogSeason, local: Season, opts: PullOptions)
    requires !opts.force
    requires forall f :: f in opts.data ==> IsLocked(local, f)
    ensures ApplyEdit(local, PullSeason(c, local, opts).edit) == local
  {
  }

  /** What a written season looks like afterwards, with or without `--force`. */
  lemma PulledFieldOutcome(c: CatalogSeason, local: Season, opts: PullOptions, f: Field)
    requires f in opts.data && !TreatedLocked(local, f, opts.force)
    ensures var after := ApplyEdit(local, PullSeason(c, local, opts).edit);
      && (CatalogValue(c, f).Some? ==>
            FieldValue(after, f) == CatalogValue(c, f).value &&
            (IsLocked(after, f) <==> SuccessKeyword(f) !in opts.unlock))
      && (CatalogValue(c, f).None? ==>
            FieldValue(after, f) == FieldValue(local, f) &&
            (IsLocked(after, f) <==> FailureKeyword(f) !in opts.unlock))
  {
  }

  // ---------------------------------------------------------------------
  // The catalog seasons of one show

  /** `show.season(n)`: the first local season with that number, if any. */
  function LocalSeason(seasons: seq<Season>, n: int): (r: Option<Season>)
    ensures r.Some? ==> r.value.number == n
  {
    if seasons == [] then None
    else if seasons[0].number == n then Some(seasons[0])
    else LocalSeason(seasons[1..], n)
  }

  /**
   * Nothing is found exactly when no local season has the number; otherwise
   * the season found is the first one that has it.
   */
  lemma {:induction false} LocalSeasonFirst(seasons: seq<Season>, n: int)
    ensures LocalSeason(seasons, n).None? <==> forall i :: 0 <= i < |seasons| ==> seasons[i].number != n
    ensures LocalSeason(seasons, n).Some? ==>
      exists i :: 0 <= i < |seasons| && seasons[i] == LocalSeason(seasons, n).value &&
        forall j :: 0 <= j < i ==> seasons[j].number != n
  {
    if seasons != [] && seasons[0].number != n {
      LocalSeasonFirst(seasons[1..], n);
      assert forall i :: 1 <= i < |seasons| ==> seasons[i] == seasons[1..][i - 1];
      if LocalSeason(seasons, n).Some? {
        var k :| 0 <= k < |seasons[1..]| && seasons[1..][k] == LocalSeason(seasons, n).value &&
          forall j :: 0 <= j < k ==> seasons[1..][j].number != n;
        assert seasons[k + 1] == LocalSeason(seasons, n).value;
        assert forall j :: 0 <= j < k + 1 ==> seasons[j].number != n by {
          forall j | 0 <= j < k + 1 ensures seasons[j].number != n {
            if j > 0 {
              assert seasons[j] == seasons[1..][j - 1];
            }
          }
        }
      }
    }
  }

  /**
   * The library's seasons of a show after `season.edit(**e)` on the season
   * `show.season(n)` returns: that season becomes `ApplyEdit` of it, every
   * other season is kept.
   */
  function EditSeason(seasons: seq<Season>, n: int, e: Edit): (r: seq<Season>)
    ensures |r| == |seasons|
    ensures e == map[] ==> r == seasons
  {
    if seasons == [] then []
    else if seasons[0].number == n then [ApplyEdit(seasons[0], e)] + seasons[1..]
    else [seasons[0]] + EditSeason(seasons[1..], n, e)
  }

  /** An edit changes no season's number. */
  lemma {:induction false} EditSeasonNumbers(seasons: seq<Season>, n: int, e: Edit)
    ensures forall i :: 0 <= i < |seasons| ==> EditSeason(seasons, n, e)[i].number == seasons[i].number
  {
    if seasons != [] && seasons[0].number != n {
      EditSeasonNumbers(seasons[1..], n, e);
      assert forall i :: 1 <= i < |seasons| ==> EditSeason(seasons, n, e)[i] == EditSeason(seasons[1..], n, e)[i - 1];
    }
  }

  /**
   * After the edit, `show.season(n)` returns the edited season, and a look-up
   * of any other number returns what it returned before.
   */
  lemma {:induction false} EditSeasonLookup(seasons: seq<Season>, n: int, e: Edit, m: int)
    ensures LocalSeason(EditSeason(seasons, n, e), n) ==
      if LocalSeason(seasons, n).Some? then Some(ApplyEdit(LocalSeason(seasons, n).value, e)) else None
    ensures m != n ==> LocalSeason(EditSeason(seasons, n, e), m) == LocalSeason(seasons, m)
  {
    if seasons != [] && seasons[0].number != n {
      EditSeasonLookup(seasons[1..], n, e, m);
    }
  }

  /** Seasons listed with the same numbers hold a season of number `n` alike. */
  lemma {:induction false} SameNumbersSameLookup(a: seq<Season>, b: seq<Season>, n: int)
    requires |a| == |b|
    requires forall i :: 0 <= i < |a| ==> a[i].number == b[i].number
    ensures LocalSeason(a, n).Some? <==> LocalSeason(b, n).Some?
  {
    if a != [] {
      SameNumbersSameLookup(a[1..], b[1..], n);
    }
  }

  /**
   * The edits a pull sends, the counter increments it makes, and the
   * library's seasons of the show as the edits so far have left them.
   */
  datatype Tally = Tally(writes: seq<EditCall>, seasons: nat, newTitles: nat, newSummaries: nat, current: seq<Season>)

  /** An edit writes value and lock together and only for requested fields. */
  predicate WellFormed(w: EditCall, data: set<Field>)
  {
    && (forall k :: k in w.edit ==> k in EditKeys(data))
    && (forall f :: ValueKey(f) in w.edit <==> LockKey(f) in w.edit)
  }

  /** The edit leaves every locked field of its season alone. */
  predicate RespectsLocks(w: EditCall)
  {
    forall f :: IsLocked(w.season, f) ==> ValueKey(f) !in w.edit && LockKey(f) !in w.edit
  }

  function Count(b: bool): nat
  {
    if b then 1 else 0
  }

  /** The edit of one season is well formed and, without `--force`, respects the season's locks. */
  lemma SeasonEditShape(c: CatalogSeason, local: Season, opts: PullOptions, key: int)
    ensures WellFormed(EditCall(key, local, PullSeason(c, local, opts).edit), opts.data)
    ensures !opts.force ==> RespectsLocks(EditCall(key, local, PullSeason(c, local, opts).edit))
  {
    EditKeysMembers(Written(local, opts), opts.data);
  }

  lemma StepEditShape(key: int, seasons: seq<Season>, c: CatalogSeason, opts: PullOptions)
    ensures LocalSeason(seasons, c.number).Some? ==>
      var local := LocalSeason(seasons, c.number).value;
      var w := EditCall(key, local, PullSeason(c, local, opts).edit);
      WellFormed(w, opts.data) && (!opts.force ==> RespectsLocks(w))
  {
    if LocalSeason(seasons, c.number).Some? {
      SeasonEditShape(c, LocalSeason(seasons, c.number).value, opts, key);
    }
  }

  /**
   * One iteration of the catalog season loop: `show.season(n)` reads the
   * season as the earlier edits have left it, and the edit is applied to it.
   */
  function PullStep(show: Show, t: Tally, c: CatalogSeason, opts: PullOptions): Tally
  {
    if c.number == 0 then t
    else match LocalSeason(t.current, c.number)
      case None => t
      case Some(local) =>
        var r := PullSeason(c, local, opts);
        Tally(t.writes + [EditCall(show.key, local, r.edit)],
              t.seasons + Count(r.counted),
              t.newTitles + Count(r.newTitle),
              t.newSummaries + Count(r.newSummary),
              EditSeason(t.current, c.number, r.edit))
  }

  /**
   * The catalog season loop of one show: season 0 and seasons missing locally
   * are skipped; every other catalog season sends one edit to the local
   * season of that number, as the earlier edits have left it. The library
   * keeps the show's seasons and their numbers; only their fields change.
   */
  function SeasonsPulled(show: Show, catalog: seq<CatalogSeason>, opts: PullOptions): (t: Tally)
    ensures |t.writes| <= |catalog|
    decreases |catalog|
  {
    if catalog == [] then Tally([], 0, 0, 0, show.seasons)
    else PullStep(show, SeasonsPulled(show, catalog[..|catalog| - 1], opts), catalog[|catalog| - 1], opts)
  }

  /**
   * Over one show's catalog: new titles and new summaries never exceed the
   * seasons counted, which never exceed the edits sent; every edit targets a
   * non-zero season the show has and is well formed; without `--force` no
   * edit touches a locked field. The show keeps its seasons and their numbers.
   */
  lemma {:induction false} SeasonsPulledShape(show: Show, catalog: seq<CatalogSeason>, opts: PullOptions)
    ensures var t := SeasonsPulled(show, catalog, opts);
      && t.newTitles <= t.seasons && t.newSummaries <= t.seasons && t.seasons <= |t.writes|
      && |t.current| == |show.seasons|
      && (forall i :: 0 <= i < |t.current| ==> t.current[i].number == show.seasons[i].number)
      && (forall w :: w in t.writes ==>
            && w.show == show.key && w.season.number != 0 && WellFormed(w, opts.data)
            && LocalSeason(show.seasons, w.season.number).Some?)
      && (!opts.force ==> forall w :: w in t.writes ==> RespectsLocks(w))
    decreases |catalog|
  {
    if catalog != [] {
      var c := catalog[|catalog| - 1];
      var t := SeasonsPulled(show, catalog[..|catalog| - 1], opts);
      SeasonsPulledShape(show, catalog[..|catalog| - 1], opts);
      StepEditShape(show.key, t.current, c, opts);
      SameNumbersSameLookup(t.current, show.seasons, c.number);
      var local := LocalSeason(t.current, c.number);
      if local.Some? {
        EditSeasonNumbers(t.current, c.number, PullSeason(c, local.value, opts).edit);
      }
    }
  }

  /**
   * A show the skip rule drops would have received only empty edits, and
   * its seasons would have been left as they were.
   */
  lemma {:induction false} SkipShowLosesNoEdit(show: Show, catalog: seq<CatalogSeason>, opts: PullOptions)
    requires SkipShow(show.seasons, opts)
    ensures forall w :: w in SeasonsPulled(show, catalog, opts).writes ==> w.edit == map[]
    ensures SeasonsPulled(show, catalog, opts).current == show.seasons
    decreases |catalog|
  {
    if catalog != [] {
      var c := catalog[|catalog| - 1];
      SkipShowLosesNoEdit(show, catalog[..|catalog| - 1], opts);
      LocalSeasonFirst(show.seasons, c.number);
      var local := LocalSeason(show.seasons, c.number);
      if c.number != 0 && local.Some? {
        assert local.value in show.seasons;
        EditKeysByField(Written(local.value, opts));
        assert PullSeason(c, local.value, opts).edit == map[];
      }
    }
  }

  /**
   * The first pull of a season whose title is unlocked writes the catalog
   * title, counts it, and leaves the season with that title, locked.
   */
  lemma TitlePulledOnce(show: Show, c: CatalogSeason, opts: PullOptions)
    requires c.number != 0
    requires LocalSeason(show.seasons, c.number).Some?
    requires !IsLocked(LocalSeason(show.seasons, c.number).value, Title)
    requires !opts.force && Title in opts.data && SuccessKeyword(Title) !in opts.unlock
    requires NewTitle(c).Some?
    ensures var t := SeasonsPulled(show, [c], opts);
      && |t.writes| == 1 && t.newTitles == 1
      && LocalSeason(t.current, c.number) == Some(ApplyEdit(t.writes[0].season, t.writes[0].edit))
      && FieldValue(LocalSeason(t.current, c.number).value, Title) == c.title.value
      && IsLocked(LocalSeason(t.current, c.number).value, Title)
  {
    var local := LocalSeason(show.seasons, c.number).value;
    var r := PullSeason(c, local, opts);
    assert [c][..0] == [];
    assert SeasonsPulled(show, [c], opts) == PullStep(show, Tally([], 0, 0, 0, show.seasons), c, opts);
    EditSeasonLookup(show.seasons, c.number, r.edit, c.number);
    PulledFieldOutcome(c, local, opts, Title);
  }

  /** A season whose title is locked gets no title from the loop, and no new title is counted. */
  lemma LockedTitleStep(show: Show, t: Tally, c: CatalogSeason, opts: PullOptions)
    requires c.number != 0
    requires LocalSeason(t.current, c.number).Some?
    requires TreatedLocked(LocalSeason(t.current, c.number).value, Title, opts.force)
    ensures var u := PullStep(show, t, c, opts);
      && u.writes == t.writes + [EditCall(show.key, LocalSeason(t.current, c.number).value, u.writes[|t.writes|].edit)]
      && ValueKey(Title) !in u.writes[|t.writes|].edit
      && u.newTitles == t.newTitles
  {
    var local := LocalSeason(t.current, c.number).value;
    EditKeysByField(Written(local, opts));
  }

  /**
   * A catalog listing a season twice: the second `show.season(n)` sees the
   * title the first edit wrote, locked, so the title is written and counted
   * once only.
   */
  lemma RepeatedSeasonWrittenOnce(show: Show, c1: CatalogSeason, c2: CatalogSeason, opts: PullOptions)
    requires c1.number == c2.number != 0
    requires LocalSeason(show.seasons, c1.number).Some?
    requires !IsLocked(LocalSeason(show.seasons, c1.number).value, Title)
    requires !opts.force && Title in opts.data && SuccessKeyword(Title) !in opts.unlock
    requires NewTitle(c1).Some?
    ensures var t := SeasonsPulled(show, [c1, c2], opts);
      && |t.writes| == 2
      && t.writes[1].season.title == c1.title.value
      && ValueKey(Title) !in t.writes[1].edit
      && t.newTitles == 1
  {
    TitlePulledOnce(show, c1, opts);
    var t1 := SeasonsPulled(show, [c1], opts);
    assert [c1, c2][..1] == [c1];
    assert SeasonsPulled(show, [c1, c2], opts) == PullStep(show, t1, c2, opts);
    LockedTitleStep(show, t1, c2, opts);
  }

  /**
   * The body of the catalog season loop: look the season up in the library,
   * build its edit, move the counters and send the edit.
   */
  method PullCatalogSeason(show: Show, t: Tally, c: CatalogSeason, opts: PullOptions) returns (u: Tally)
    ensures u == PullStep(show, t, c, opts)
  {
    u := t;
    if c.number != 0 {
      var local := LocalSeason(t.current, c.number);
      if local.Some? {
        var r := PullSeason(c, local.value, opts);
        var seasonCounter, newTitleCounter, newSummaryCounter := t.seasons, t.newTitles, t.newSummaries;
        var writes, current := t.writes + [EditCall(show.key, local.value, r.edit)], EditSeason(t.current, c.number, r.edit);
        assert PullStep(show, t, c, opts) == Tally(writes, seasonCounter + Count(r.counted),
          newTitleCounter + Count(r.newTitle), newSummaryCounter + Count(r.newSummary), current);
        if r.counted {
          seasonCounter := seasonCounter + 1;
        }
        if r.newTitle {
          newTitleCounter := newTitleCounter + 1;
        }
        if r.newSummary {
          newSummaryCounter := newSummaryCounter + 1;
        }
        u := Tally(writes, seasonCounter, newTitleCounter, newSummaryCounter, current);
      }
    }
  }

  /**
   * The loop over one show's catalog seasons, with the script's counters and
   * the library's seasons of the show, which `show.season(n)` reads and
   * `edit` changes.
   */
  method PullShowSeasons(show: Show, catalog: seq<CatalogSeason>, opts: PullOptions) returns (t: Tally)
    ensures t == SeasonsPulled(show, catalog, opts)
  {
    t := Tally([], 0, 0, 0, show.seasons);
    for i := 0 to |catalog|
      invariant t == SeasonsPulled(show, catalog[..i], opts)
    {
      assert catalog[..i + 1][..i] == catalog[..i];
      t := PullCatalogSeason(show, t, catalog[i], opts);
    }
    assert catalog[..|catalog|] == catalog;
  }

  // ---------------------------------------------------------------------
  // One show: skip rule, identifier, slug, season list

  datatype SkipReason = AllRequestedLocked | Unresolved | NoSlug | SeasonsUnavailable

  datatype Decision = Skip(reason: SkipReason) | Proceed(slug: string, catalog: seq<CatalogSeason>)

  /** An imdb id is the slug itself; otherwise the first search result's slug. */
  function Slug(resolution: Resolution, search: Option<seq<string>>): (slug: Option<string>)
    ensures resolution.scheme == Imdb ==> slug == Some(resolution.id)
    ensures resolution.scheme != Imdb ==>
      (slug.Some? <==> search.Some? && |search.value| > 0) &&
      (slug.Some? ==> slug.value == search.value[0])
  {
    if resolution.scheme == Imdb then Some(resolution.id)
    else if search.Some? && |search.value| > 0 then Some(search.value[0])
    else None
  }

  /**
   * The decisions taken for a show before its seasons are reconciled, in the
   * script's order: the skip rule, identifier resolution, slug lookup and the
   * season list request.
   */
  function Decide(show: Show, answer: CatalogAnswer, opts: PullOptions): Decision
  {
    if SkipShow(show.seasons, opts) then Skip(AllRequestedLocked)
    else match Resolve(show.guids)
      case None => Skip(Unresolved)
      case Some(resolution) =>
        match Slug(resolution, answer.search)
        case None => Skip(NoSlug)
        case Some(slug) =>
          match answer.seasons
          case None => Skip(SeasonsUnavailable)
          case Some(catalog) => Proceed(slug, catalog)
  }

  /**
   * A show is skipped as all-locked exactly when the skip rule says so, as
   * unresolved exactly when it is not and has no usable identifier, and it
   * proceeds exactly when it also gets a slug and a season list, which it
   * then uses.
   */
  lemma DecideOutcome(show: Show, answer: CatalogAnswer, opts: PullOptions)
    ensures var d := Decide(show, answer, opts);
      && (d == Skip(AllRequestedLocked) <==> SkipShow(show.seasons, opts))
      && (d == Skip(Unresolved) <==> !SkipShow(show.seasons, opts) && Resolve(show.guids).None?)
      && (d.Proceed? <==>
            && !SkipShow(show.seasons, opts)
            && Resolve(show.guids).Some?
            && Slug(Resolve(show.guids).value, answer.search).Some?
            && answer.seasons.Some?)
      && (d.Proceed? ==>
            d.slug == Slug(Resolve(show.guids).value, answer.search).value && d.catalog == answer.seasons.value)
  {
  }

  // ---------------------------------------------------------------------
  // The whole pull

  /** The edits sent and the four counters reported at the end of a pull. */
  datatype PullReport = PullReport(writes: seq<EditCall>, shows: nat, seasons: nat, newTitles: nat, newSummaries: nat)

  /**
   * A pull over the selected shows in iteration order, `answers[i]` being the
   * catalog's answers for `order[i]`; only shows that reach the season list
   * count.
   */
  function PullAll(order: seq<Show>, answers: seq<CatalogAnswer>, opts: PullOptions): (r: PullReport)
    requires |answers| == |order|
    ensures r.shows <= |order|
    decreases |order|
  {
    if order == [] then PullReport([], 0, 0, 0, 0)
    else
      var n := |order| - 1;
      PullShow(PullAll(order[..n], answers[..n], opts), order[n], answers[n], opts)
  }

  /**
   * Over a whole pull: new titles and summaries never exceed the seasons
   * counted, which never exceed the edits sent; no edit touches season 0;
   * every edit pairs value and lock for requested fields only; without
   * `--force` no edit touches a locked field.
   */
  lemma {:induction false} PullAllShape(order: seq<Show>, answers: seq<CatalogAnswer>, opts: PullOptions)
    requires |answers| == |order|
    ensures var r := PullAll(order, answers, opts);
      && r.newTitles <= r.seasons && r.newSummaries <= r.seasons && r.seasons <= |r.writes|
      && (forall w :: w in r.writes ==> w.season.number != 0 && WellFormed(w, opts.data))
      && (!opts.force ==> forall w :: w in r.writes ==> RespectsLocks(w))
    decreases |order|
  {
    if order != [] {
      var n := |order| - 1;
      PullAllShape(order[..n], answers[..n], opts);
      var d := Decide(order[n], answers[n], opts);
      if d.Proceed? {
        SeasonsPulledShape(order[n], d.catalog, opts);
      }
    }
  }

  /** One iteration of the show loop. */
  function PullShow(r: PullReport, show: Show, answer: CatalogAnswer, opts: PullOptions): PullReport
  {
    match Decide(show, answer, opts)
    case Skip(_) => r
    case Proceed(_, catalog) =>
      var t := SeasonsPulled(show, catalog, opts);
      PullReport(r.writes + t.writes, r.shows + 1, r.seasons + t.seasons,
                 r.newTitles + t.newTitles, r.newSummaries + t.newSummaries)
  }

  /** A show without a usable identifier adds nothing to any counter and sends no edit. */
  lemma UnresolvedShowIgnored(order: seq<Show>, answers: seq<CatalogAnswer>, show: Show, answer: CatalogAnswer, opts: PullOptions)
    requires |answers| == |order|
    requires Resolve(show.guids).None?
    ensures PullAll(order + [show], answers + [answer], opts) == PullAll(order, answers, opts)
  {
  }

  /**
   * The body of the show loop: decide, and for a show that proceeds count it,
   * run its season loop and add that loop's edits and counters.
   */
  method PullOneShow(r: PullReport, show: Show, answer: CatalogAnswer, opts: PullOptions) returns (u: PullReport)
    ensures u == PullShow(r, show, answer, opts)
  {
    u := r;
    var decision := Decide(show, answer, opts);
    if decision.Proceed? {
      var t := PullShowSeasons(show, decision.catalog, opts);
      u := PullReport(r.writes + t.writes, r.shows + 1, r.seasons + t.seasons,
                      r.newTitles + t.newTitles, r.newSummaries + t.newSummaries);
    }
  }

  /** The show loop of the pull command, with its four counters. */
  method Pull(order: seq<Show>, answers: seq<CatalogAnswer>, opts: PullOptions) returns (report: PullReport)
    requires |answers| == |order|
    ensures report == PullAll(order, answers, opts)
  {
    report := PullReport([], 0, 0, 0, 0);
    for i := 0 to |order|
      invariant report == PullAll(order[..i], answers[..i], opts)
    {
      assert order[..i + 1][..i] == order[..i];
      assert answers[..i + 1][..i] == answers[..i];
      report := PullOneShow(report, order[i], answers[i], opts);
    }
    assert order[..|order|] == order;
    assert answers[..|answers|] == answers;
  }
}
