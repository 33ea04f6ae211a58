/**
 * The media-server records the script reads and the edits it sends back.
 * A show carries its label tags, its external identifiers and its seasons;
 * a season carries its number, title, summary and the names of its locked
 * fields. An edit is the keyword map passed to `season.edit(**edit)`.
 */
module Library {

  /** The two season fields the script handles (`--data title summary`). */
  datatype Field = Title | Summary

  function FieldName(f: Field): string
  {
    match f
    case Title => "title"
    case Summary => "summary"
  }

  /** Edit keys: `title.value`, `title.locked`, `summary.value`, `summary.locked`. */
  function ValueKey(f: Field): string
  {
    match f
    case Title => "title.value"
    case Summary => "summary.value"
  }

  function LockKey(f: Field): string
  {
    match f
    case Title => "title.locked"
    case Summary => "summary.locked"
  }

  datatype Season = Season(number: int, title: string, summary: string, lockedFields: set<string>)

  function FieldValue(s: Season, f: Field): string
  {
    match f
    case Title => s.title
    case Summary => s.summary
  }

  /** `f` is among the season's locked fields (`field.name for field in season.fields`). */
  predicate IsLocked(s: Season, f: Field)
  {
    FieldName(f) in s.lockedFields
  }

  /**
   * A show as the library returns it: its library key (its identity), display
   * title, label tags, the `guids` list, the single legacy `guid` string and
   * its seasons in the order `show.seasons()` lists them.
   */
  datatype Show = Show(key: int, title: string, labels: seq<string>, guids: seq<string>, guid: string, seasons: seq<Season>)

  /** An edit value: a text for `X.value`, an integer flag for `X.locked`. */
  datatype EditValue = Text(text: string) | Flag(flag: int)

  type Edit = map<string, EditValue>

  /** One call of `season.edit(**edit)` on a season of the show with key `show`. */
  datatype EditCall = EditCall(show: int, season: Season, edit: Edit)

  /** `int(keyword not in args.unlock)`: the lock flag, 1 to lock the field, 0 to leave it unlocked. */
  function LockIndicator(unlock: set<string>, keyword: string): (flag: int)
    ensures flag == 0 || flag == 1
    ensures flag == 0 <==> keyword in unlock
  {
    if keyword in unlock then 0 else 1
  }

  /** The keys of an edit that writes exactly the fields in `fields`, value and lock together. */
  function EditKeys(fields: set<Field>): set<string>
  {
    (set f | f in fields :: ValueKey(f)) + (set f | f in fields :: LockKey(f))
  }

  /** The keys of an edit, field by field. */
  lemma EditKeysByField(fields: set<Field>)
    ensures EditKeys(fields) ==
      (if Title in fields then {ValueKey(Title), LockKey(Title)} else {}) +
      (if Summary in fields then {ValueKey(Summary), LockKey(Summary)} else {})
  {
    forall k | k in EditKeys(fields)
      ensures k in (if Title in fields then {ValueKey(Title), LockKey(Title)} else {}) +
        (if Summary in fields then {ValueKey(Summary), LockKey(Summary)} else {})
    {
      var f :| f in fields && (k == ValueKey(f) || k == LockKey(f));
    }
  }

  /** A field's keys are among the edit keys exactly when the field is; more fields, more keys. */
  lemma EditKeysMembers(fields: set<Field>, more: set<Field>)
    requires fields <= more
    ensures forall f :: ValueKey(f) in EditKeys(fields) <==> f in fields
    ensures forall f :: LockKey(f) in EditKeys(fields) <==> f in fields
    ensures EditKeys(fields) <= EditKeys(more)
  {
    EditKeysByField(fields);
  }

  lemma EditKeysDistinct(f: Field, g: Field)
    ensures ValueKey(f) == ValueKey(g) ==> f == g
    ensures LockKey(f) == LockKey(g) ==> f == g
    ensures ValueKey(f) != LockKey(g)
  {
  }

  /** Writing the lock flag of field `f` into a set of locked field names. */
  function ApplyLock(locked: set<string>, e: Edit, f: Field): set<string>
  {
    if LockKey(f) in e && e[LockKey(f)].Flag? then
      if e[LockKey(f)].flag != 0 then locked + {FieldName(f)} else locked - {FieldName(f)}
    else locked
  }

  /**
   * The season after the library applies an edit: an `X.value` entry replaces
   * the field, an `X.locked` entry of 1 locks it and one of 0 unlocks it;
   * everything the edit does not name is kept.
   */
  function ApplyEdit(s: Season, e: Edit): (r: Season)
    ensures r.number == s.number
    ensures e == map[] ==> r == s
  {
    Season(
      s.number,
      if ValueKey(Title) in e && e[ValueKey(Title)].Text? then e[ValueKey(Title)].text else s.title,
      if ValueKey(Summary) in e && e[ValueKey(Summary)].Text? then e[ValueKey(Summary)].text else s.summary,
      ApplyLock(ApplyLock(s.lockedFields, e, Title), e, Summary))
  }

  /**
   * Field by field: an `X.value` entry replaces the field and an `X.locked`
   * entry locks it when non-zero and unlocks it when zero; a field or lock
   * the edit does not name is kept.
   */
  lemma ApplyEditOutcome(s: Season, e: Edit, f: Field)
    ensures var r := ApplyEdit(s, e);
      && (ValueKey(f) in e && e[ValueKey(f)].Text? ==> FieldValue(r, f) == e[ValueKey(f)].text)
      && (ValueKey(f) !in e ==> FieldValue(r, f) == FieldValue(s, f))
      && (LockKey(f) in e && e[LockKey(f)].Flag? ==> (IsLocked(r, f) <==> e[LockKey(f)].flag != 0))
      && (LockKey(f) !in e ==> (IsLocked(r, f) <==> IsLocked(s, f)))
  {
  }

  /** `order` lists every show of `shows` exactly once: how a loop walks a Python set. */
  ghost predicate Enumerates(order: seq<Show>, shows: set<Show>)
  {
    && (forall i, j :: 0 <= i < j < |order| ==> order[i] != order[j])
    && (forall s :: s in shows <==> s in order)
  }

  /** Walking a set visits as many shows as the set holds. */
  lemma {:induction false} EnumerationSize(order: seq<Show>, shows: set<Show>)
    requires Enumerates(order, shows)
    ensures |order| == |shows|
  {
    if order != [] {
      var last := order[|order| - 1];
      var rest := order[..|order| - 1];
      assert last !in rest;
      assert forall s :: s in rest ==> s in order;
      assert forall s :: s in order && s != last ==> s in rest by {
        forall s | s in order && s != last ensures s in rest {
          var i :| 0 <= i < |order| && order[i] == s;
          assert i < |order| - 1;
          assert rest[i] == s;
        }
      }
      EnumerationSize(rest, shows - {last});
    }
  }
}
