/**
 * The `reset` command: every season of every selected show gets its
 * requested fields cleared, each with a lock flag set from `--unlock`
 * (whose values are the field names `title` and `summary`).
 */
module Reset {
  import opened Library

  /** The edit of one field: empty value, lock flag from `--unlock`. */
  function ClearField(e: Edit, f: Field, unlock: set<string>): Edit
  {
    e[ValueKey(f) := Text("")][LockKey(f) := Flag(LockIndicator(unlock, FieldName(f)))]
  }

  /**
   * The reset edit: for each requested field an empty value and a lock flag,
   * always together, and nothing for fields not requested.
   */
  function ResetEdit(data: set<Field>, unlock: set<string>): (e: Edit)
    ensures e.Keys == EditKeys(data)
    ensures forall f :: f in data ==> e[ValueKey(f)] == Text("") && e[LockKey(f)] == Flag(LockIndicator(unlock, FieldName(f)))
  {
    var e0: Edit := map[];
    var e1 := if Title in data then ClearField(e0, Title, unlock) else e0;
    var e2 := if Summary in data then ClearField(e1, Summary, unlock) else e1;
    EditKeysDistinct(Title, Summary);
    assert data == (if Title in data then {Title} else {}) + (if Summary in data then {Summary} else {}) by {
      forall f ensures f in data <==> (f == Title && Title in data) || (f == Summary && Summary in data) {
      }
    }
    e2
  }

  /** After a reset a requested field is empty and locked unless `--unlock` names it; the rest is kept. */
  lemma ResetOutcome(s: Season, data: set<Field>, unlock: set<string>, f: Field)
    ensures var after := ApplyEdit(s, ResetEdit(data, unlock));
      && after.number == s.number
      && (f in data ==> FieldValue(after, f) == "" && (IsLocked(after, f) <==> FieldName(f) !in unlock))
      && (f !in data ==> FieldValue(after, f) == FieldValue(s, f) && (IsLocked(after, f) <==> IsLocked(s, f)))
  {
  }

  /** The number of seasons `show.seasons()` returns over all shows. */
  function SeasonCount(order: seq<Show>): nat
  {
    if order == [] then 0 else SeasonCount(order[..|order| - 1]) + |order[|order| - 1].seasons|
  }

  /** One edit per season of the show, season 0 included, in the order the library lists them. */
  function ResetShow(show: Show, edit: Edit): (calls: seq<EditCall>)
    ensures |calls| == |show.seasons|
    ensures forall j :: 0 <= j < |calls| ==> calls[j] == EditCall(show.key, show.seasons[j], edit)
  {
    seq(|show.seasons|, j requires 0 <= j < |show.seasons| => EditCall(show.key, show.seasons[j], edit))
  }

  /** The edits sent and the two counters reported at the end of a reset. */
  datatype ResetReport = ResetReport(writes: seq<EditCall>, shows: nat, seasons: nat)

  /**
   * A reset over the selected shows in iteration order: one show count per
   * show, one season count and one edit per season (no season is filtered
   * out), every edit the reset edit, and every season of every show edited.
   */
  function ResetAll(order: seq<Show>, data: set<Field>, unlock: set<string>): (r: ResetReport)
    ensures r.shows == |order|
    ensures r.seasons == |r.writes| == SeasonCount(order)
    ensures forall w :: w in r.writes ==> w.edit == ResetEdit(data, unlock)
    ensures forall i, j :: 0 <= i < |order| && 0 <= j < |order[i].seasons| ==>
      EditCall(order[i].key, order[i].seasons[j], ResetEdit(data, unlock)) in r.writes
    decreases |order|
  {
    if order == [] then ResetReport([], 0, 0)
    else
      var n := |order| - 1;
      var r := ResetAll(order[..n], data, unlock);
      var calls := ResetShow(order[n], ResetEdit(data, unlock));
      var writes := r.writes + calls;
      assert forall i :: 0 <= i < n ==> order[..n][i] == order[i];
      assert forall j :: 0 <= j < |order[n].seasons| ==> calls[j] in writes;
      ResetReport(writes, r.shows + 1, r.seasons + |calls|)
  }

  /** Over a deduplicated selection the show counter is the number of selected shows. */
  lemma ResetCountsSelection(order: seq<Show>, selected: set<Show>, data: set<Field>, unlock: set<string>)
    requires Enumerates(order, selected)
    ensures ResetAll(order, data, unlock).shows == |selected|
  {
    EnumerationSize(order, selected);
  }

  /** The show loop and season loop of the reset command. */
  method Reset(order: seq<Show>, data: set<Field>, unlock: set<string>) returns (report: ResetReport)
    ensures report == ResetAll(order, data, unlock)
  {
    var writes: seq<EditCall> := [];
    var showCounter: nat, seasonCounter: nat := 0, 0;
    for i := 0 to |order|
      invariant ResetReport(writes, showCounter, seasonCounter) == ResetAll(order[..i], data, unlock)
    {
      assert order[..i + 1][..i] == order[..i];
      ghost var done := writes;
      showCounter := showCounter + 1;
      var seasons := order[i].seasons;
      for j := 0 to |seasons|
        invariant writes == done + ResetShow(order[i], ResetEdit(data, unlock))[..j]
        invariant seasonCounter == |done| + j
      {
        var edit := ResetEdit(data, unlock);
        writes := writes + [EditCall(order[i].key, seasons[j], edit)];
        seasonCounter := seasonCounter + 1;
        assert ResetShow(order[i], edit)[..j + 1] == ResetShow(order[i], edit)[..j] + [EditCall(order[i].key, seasons[j], edit)];
      }
      assert ResetShow(order[i], ResetEdit(data, unlock))[..|seasons|] == ResetShow(order[i], ResetEdit(data, unlock));
    }
    assert order[..|order|] == order;
    report := ResetReport(writes, showCounter, seasonCounter);
  }
}
