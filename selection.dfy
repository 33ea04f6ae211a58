/**
 * Building the list of shows to process: every show of each named library,
 * then the first search hit for each named show, minus the shows carrying the
 * `--exclude` label, deduplicated.
 */
module Selection {
  import opened Wrappers
  import opened Text
  import opened Library

  /**
   * `args.exclude not in (label.tag.lower() for label in labels)`: the tags
   * are lower-cased, the exclude string is compared as given, and with no
   * `--exclude` (None) every show is kept.
   */
  function Keep(exclude: Option<string>, labels: seq<string>): (keep: bool)
    ensures keep <==> exclude.None? || forall i :: 0 <= i < |labels| ==> Lower(labels[i]) != exclude.value
  {
    if labels == [] then true
    else (exclude.None? || Lower(labels[0]) != exclude.value) && Keep(exclude, labels[1..])
  }

  /** An `--exclude` value with an upper-case letter never excludes a show. */
  lemma UpperCaseExcludeNeverMatches(exclude: string, k: int, labels: seq<string>)
    requires 0 <= k < |exclude| && IsUpper(exclude[k])
    ensures Keep(Some(exclude), labels)
  {
  }

  /**
   * A show the script picks up before filtering: it belongs to a library that
   * was found (`None` stands for a library name the server does not know), or
   * it is the first hit of one of the show searches (an empty result makes
   * `plex.search(show)[0]` fail, and that name is skipped).
   */
  ghost predicate Listed(s: Show, libraries: seq<Option<seq<Show>>>, searches: seq<seq<Show>>)
  {
    || (exists i :: 0 <= i < |libraries| && libraries[i].Some? && s in libraries[i].value)
    || (exists i :: 0 <= i < |searches| && |searches[i]| > 0 && searches[i][0] == s)
  }

  /**
   * The selection loops: append every kept library show, then every kept
   * search hit, to `processList`, and deduplicate with `set(...)`.
   */
  method Select(exclude: Option<string>, libraries: seq<Option<seq<Show>>>, searches: seq<seq<Show>>)
    returns (selected: set<Show>)
    ensures forall s :: s in selected <==> Listed(s, libraries, searches) && Keep(exclude, s.labels)
  {
    var processList: seq<Show> := [];
    for i := 0 to |libraries|
      invariant forall s :: s in processList <==>
        Keep(exclude, s.labels) && exists k :: 0 <= k < i && libraries[k].Some? && s in libraries[k].value
    {
      if libraries[i].Some? {
        var shows := libraries[i].value;
        for j := 0 to |shows|
          invariant forall s :: s in processList <==>
            Keep(exclude, s.labels) &&
            ((exists k :: 0 <= k < i && libraries[k].Some? && s in libraries[k].value) || s in shows[..j])
        {
          if Keep(exclude, shows[j].labels) {
            processList := processList + [shows[j]];
          }
        }
        assert shows[..|shows|] == shows;
      }
    }
    ghost var fromLibraries := processList;
    for i := 0 to |searches|
      invariant forall s :: s in processList <==>
        s in fromLibraries || (Keep(exclude, s.labels) && exists k :: 0 <= k < i && |searches[k]| > 0 && searches[k][0] == s)
    {
      if |searches[i]| > 0 {
        var entry := searches[i][0];
        if Keep(exclude, entry.labels) {
          processList := processList + [entry];
        }
      }
    }
    selected := set s | s in processList;
  }
}
