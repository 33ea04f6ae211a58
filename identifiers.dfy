/**
 * Identifier resolution: pick the show's external identifier with priority
 * imdb > tmdb > tvdb and cut its opaque id out of the `scheme://id` guid.
 */
module Identifiers {
  import opened Wrappers
  import opened Text

  datatype Scheme = Imdb | Tmdb | Tvdb

  /** The marker looked for in a guid: `"imdb" in guid.id`. */
  function Marker(scheme: Scheme): string
  {
    match scheme
    case Imdb => "imdb"
    case Tmdb => "tmdb"
    case Tvdb => "tvdb"
  }

  /** Index of the first guid containing `marker`, or `|guids|` when there is none. */
  function FirstMatch(guids: seq<string>, marker: string): (k: nat)
    ensures k <= |guids|
    ensures forall j :: 0 <= j < k ==> !Contains(guids[j], marker)
    ensures k < |guids| ==> Contains(guids[k], marker)
  {
    if guids == [] then 0
    else if Contains(guids[0], marker) then 0
    else 1 + FirstMatch(guids[1..], marker)
  }

  /** `next((g for g in guids if marker in g), None)`. */
  function FirstContaining(guids: seq<string>, marker: string): (r: Option<string>)
    ensures r.None? <==> forall j :: 0 <= j < |guids| ==> !Contains(guids[j], marker)
    ensures r.Some? ==> exists k ::
      && 0 <= k < |guids| && guids[k] == r.value && Contains(guids[k], marker)
      && forall j :: 0 <= j < k ==> !Contains(guids[j], marker)
  {
    var k := FirstMatch(guids, marker);
    if k < |guids| then Some(guids[k]) else None
  }

  predicate Mentions(guids: seq<string>, scheme: Scheme)
  {
    exists j :: 0 <= j < |guids| && Contains(guids[j], Marker(scheme))
  }

  /**
   * The scheme and guid the script goes on with: the first imdb guid if any
   * guid mentions imdb, else the first tmdb guid, else the first tvdb guid.
   */
  function SelectGuid(guids: seq<string>): (r: Option<(Scheme, string)>)
    ensures Mentions(guids, Imdb) ==> r == Some((Imdb, FirstContaining(guids, "imdb").value))
    ensures !Mentions(guids, Imdb) && Mentions(guids, Tmdb) ==> r == Some((Tmdb, FirstContaining(guids, "tmdb").value))
    ensures !Mentions(guids, Imdb) && !Mentions(guids, Tmdb) && Mentions(guids, Tvdb) ==>
      r == Some((Tvdb, FirstContaining(guids, "tvdb").value))
    ensures r.None? <==> !Mentions(guids, Imdb) && !Mentions(guids, Tmdb) && !Mentions(guids, Tvdb)
  {
    var imdb := FirstContaining(guids, "imdb");
    var tmdb := FirstContaining(guids, "tmdb");
    var tvdb := FirstContaining(guids, "tvdb");
    if imdb.Some? then Some((Imdb, imdb.value))
    else if tmdb.Some? then Some((Tmdb, tmdb.value))
    else if tvdb.Some? then Some((Tvdb, tvdb.value))
    else None
  }

  /** Index of the first `://` at or after `from`, or `|s|` when there is none. */
  function FindSeparator(s: string, from: nat): (k: nat)
    requires from <= |s|
    ensures from <= k <= |s|
    ensures forall j :: from <= j < k ==> !OccursAt(s, "://", j)
    ensures k < |s| ==> OccursAt(s, "://", k)
    decreases |s| - from
  {
    if from == |s| then from
    else if OccursAt(s, "://", from) then from
    else FindSeparator(s, from + 1)
  }

  /** Index of the first `/` at or after `from`, or `|s|`. */
  function SegmentEnd(s: string, from: nat): (k: nat)
    requires from <= |s|
    ensures from <= k <= |s|
    ensures forall j :: from <= j < k ==> s[j] != '/'
    ensures k < |s| ==> s[k] == '/'
    decreases |s| - from
  {
    if from == |s| || s[from] == '/' then from else SegmentEnd(s, from + 1)
  }

  /**
   * `re.search(r':\/\/([^\/]*)', guid).group(1)`: the characters after the
   * first `://` up to the next `/` or the end; no match gives None (where the
   * script's `.group` would fail).
   */
  function ExtractId(guid: string): (r: Option<string>)
    ensures r.None? <==> !Contains(guid, "://")
    ensures r.Some? ==> forall i :: 0 <= i < |r.value| ==> r.value[i] != '/'
    ensures r.Some? ==>
      var k := FindSeparator(guid, 0);
      var end := k + 3 + |r.value|;
      && end <= |guid|
      && guid[k + 3..end] == r.value
      && (end == |guid| || guid[end] == '/')
  {
    var k := FindSeparator(guid, 0);
    if k == |guid| then
      assert forall j :: 0 <= j <= |guid| - 3 ==> !OccursAt(guid, "://", j);
      None
    else
      var end := SegmentEnd(guid, k + 3);
      Some(guid[k + 3..end])
  }

  /** The extraction returns exactly the id of a `scheme://id[/rest]` guid. */
  lemma ExtractIdOfUri(prefix: string, id: string, rest: string)
    requires forall i :: 0 <= i < |prefix| ==> prefix[i] != '/'
    requires forall i :: 0 <= i < |id| ==> id[i] != '/'
    requires rest == [] || rest[0] == '/'
    ensures ExtractId(prefix + "://" + id + rest) == Some(id)
  {
    var s := prefix + "://" + id + rest;
    assert OccursAt(s, "://", |prefix|) by {
      assert s[|prefix|..|prefix| + 3] == "://";
    }
    forall j | 0 <= j < |prefix|
      ensures !OccursAt(s, "://", j)
    {
      assert s[j + 1] == if j + 1 < |prefix| then prefix[j + 1] else ':';
      assert j + 3 <= |s| ==> s[j..j + 3][1] == s[j + 1];
    }
    var k := FindSeparator(s, 0);
    assert k == |prefix|;
    forall j | k + 3 <= j < k + 3 + |id|
      ensures s[j] != '/'
    {
      assert s[j] == id[j - k - 3];
    }
    assert k + 3 + |id| < |s| ==> s[k + 3 + |id|] == rest[0];
    var end := SegmentEnd(s, k + 3);
    assert end == k + 3 + |id|;
    assert s[k + 3..end] == id;
  }

  /** What a resolved show is looked up by in the catalog. */
  datatype Resolution = Resolution(scheme: Scheme, id: string)

  /**
   * Identifier resolution over the show's `guids` list. An empty list (the
   * legacy single-guid path), a list in which no guid mentions a known scheme,
   * and a chosen guid without `://` are all unresolved.
   */
  function Resolve(guids: seq<string>): (r: Option<Resolution>)
    ensures r.Some? <==> |guids| > 0 && SelectGuid(guids).Some? && ExtractId(SelectGuid(guids).value.1).Some?
    ensures r.Some? ==>
      r.value.scheme == SelectGuid(guids).value.0 && Some(r.value.id) == ExtractId(SelectGuid(guids).value.1)
  {
    if |guids| == 0 then None
    else match SelectGuid(guids)
      case None => None
      case Some((scheme, guid)) =>
        match ExtractId(guid)
        case None => None
        case Some(id) => Some(Resolution(scheme, id))
  }

  /** Resolution of a well-formed imdb guid: the id after `imdb://`. */
  lemma ResolveImdbFirst(guids: seq<string>, k: int, id: string)
    requires 0 <= k < |guids| && guids[k] == "imdb://" + id
    requires forall i :: 0 <= i < |id| ==> id[i] != '/'
    requires forall j :: 0 <= j < k ==> !Contains(guids[j], "imdb")
    ensures Resolve(guids) == Some(Resolution(Imdb, id))
  {
    assert OccursAt(guids[k], "imdb", 0) by {
      assert guids[k][0..4] == "imdb";
    }
    assert Mentions(guids, Imdb);
    assert FirstMatch(guids, "imdb") == k;
    assert "imdb://" + id == "imdb" + "://" + id + [];
    ExtractIdOfUri("imdb", id, []);
  }

  // ---------------------------------------------------------------------
  // The resolution as written: `imdb`, `tmdb`, `tvdb`, `id` and `type` are
  // locals of `main` that keep their values from one show to the next.

  /** A local of `main`: not yet assigned, or holding a string or None. */
  datatype Binding = Unbound | Bound(value: Option<string>)

  datatype LoopVars = LoopVars(imdb: Binding, tmdb: Binding, tvdb: Binding, id: Option<string>, scheme: Option<Scheme>)

  const INITIAL_VARS := LoopVars(Unbound, Unbound, Unbound, None, None)

  datatype AsWritten = Crash | NoIdentifier | Resolved(resolution: Resolution)

  /** Python truthiness of a bound local: not None and not empty. */
  predicate Truthy(b: Binding)
    requires b.Bound?
  {
    b.value.Some? && b.value.value != ""
  }

  /** `id = re.search(...).group(1)`; a failed match makes `.group` raise. */
  function ExtractAsWritten(v: LoopVars, scheme: Scheme, raw: string): (result: (LoopVars, AsWritten))
    ensures result.1 == Crash <==> ExtractId(raw).None?
    ensures result.1.Crash? ==> result.0 == v
    ensures result.1.Resolved? ==>
      && Some(result.1.resolution.id) == ExtractId(raw) && result.1.resolution.scheme == scheme
      && result.0 == v.(id := Some(result.1.resolution.id), scheme := Some(scheme))
  {
    match ExtractId(raw)
    case None => (v, Crash)
    case Some(x) => (v.(id := Some(x), scheme := Some(scheme)), Resolved(Resolution(scheme, x)))
  }

  /**
   * Resolution as the script runs it for one show, given the locals left by
   * the shows before it. Reading an unassigned local raises; when no scheme
   * variable is truthy, `id` still holds the previous show's extracted id
   * (or nothing), which has no `://`, so the regex finds no match and raises.
   */
  function ResolveAsWritten(guids: seq<string>, guid: string, vars: LoopVars): (result: (LoopVars, AsWritten))
    ensures result.1.NoIdentifier? ==> result.0 == vars
  {
    if |guids| == 0 && !Contains(guid, "thetvdb") && !Contains(guid, "themoviedb") then (vars, NoIdentifier)
    else
      var v :=
        if |guids| > 0 then
          vars.(imdb := Bound(FirstContaining(guids, "imdb")),
                tmdb := Bound(FirstContaining(guids, "tmdb")),
                tvdb := Bound(FirstContaining(guids, "tvdb")))
        else if Contains(guid, "thetvdb") then vars.(tvdb := Bound(Some(guid)))
        else vars.(tmdb := Bound(Some(guid)));
      if v.imdb.Unbound? then (v, Crash)
      else if Truthy(v.imdb) then ExtractAsWritten(v, Imdb, v.imdb.value.value)
      else if v.tmdb.Unbound? then (v, Crash)
      else if Truthy(v.tmdb) then ExtractAsWritten(v, Tmdb, v.tmdb.value.value)
      else if v.tvdb.Unbound? then (v, Crash)
      else if Truthy(v.tvdb) then ExtractAsWritten(v, Tvdb, v.tvdb.value.value)
      else if v.id.None? || v.scheme.None? then (v, Crash)
      else ExtractAsWritten(v, v.scheme.value, v.id.value)
  }

  /** An extracted id never contains `://`, so extracting from it again fails. */
  lemma ExtractedIdHasNoSeparator(guid: string)
    requires ExtractId(guid).Some?
    ensures ExtractId(ExtractId(guid).value).None?
  {
    var x := ExtractId(guid).value;
    AbsentCharNotContained(x, "://", 1);
  }

  /** Locals as they stand between shows: `id` only ever holds an extracted id. */
  predicate Reachable(vars: LoopVars)
  {
    (vars.id.Some? <==> vars.scheme.Some?) &&
    (vars.id.Some? ==> forall i :: 0 <= i < |vars.id.value| ==> vars.id.value[i] != '/')
  }

  /**
   * The locals start out reachable (nothing assigned) and every show the loop
   * gets past without raising leaves them reachable, so `Reachable` holds
   * before every show of a run.
   */
  lemma ReachablePreserved(guids: seq<string>, guid: string, vars: LoopVars)
    requires Reachable(vars)
    requires ResolveAsWritten(guids, guid, vars).1 != Crash
    ensures Reachable(ResolveAsWritten(guids, guid, vars).0)
    ensures Reachable(INITIAL_VARS)
  {
    var result := ResolveAsWritten(guids, guid, vars);
    if result.1.Resolved? {
      assert result.0.id == Some(result.1.resolution.id) && result.0.scheme.Some?;
    } else {
      assert result.0.id == vars.id && result.0.scheme == vars.scheme;
    }
  }

  /** When the show's own guids resolve, the carried locals do not matter. */
  lemma AsWrittenAgreesWhenResolved(guids: seq<string>, guid: string, vars: LoopVars)
    requires Resolve(guids).Some?
    ensures ResolveAsWritten(guids, guid, vars).1 == Resolved(Resolve(guids).value)
    ensures Reachable(ResolveAsWritten(guids, guid, vars).0)
  {
    var (scheme, g) := SelectGuid(guids).value;
    assert FirstContaining(guids, Marker(scheme)) == Some(g);
  }

  /** A non-empty guid list that names no known scheme crashes the run. */
  lemma AsWrittenCrashesWithoutMatch(guids: seq<string>, guid: string, vars: LoopVars)
    requires |guids| > 0 && SelectGuid(guids).None?
    requires Reachable(vars)
    ensures ResolveAsWritten(guids, guid, vars).1 == Crash
  {
    if vars.id.Some? {
      AbsentCharNotContained(vars.id.value, "://", 1);
    }
  }

  /**
   * A show that only has a legacy tvdb guid, processed after a show that
   * resolved through imdb, is resolved to that earlier show's imdb id.
   */
  lemma StaleImdbReused(first: seq<string>, firstGuid: string, vars: LoopVars, legacy: string)
    requires Resolve(first).Some? && Resolve(first).value.scheme == Imdb
    requires Contains(legacy, "thetvdb")
    ensures var carried := ResolveAsWritten(first, firstGuid, vars).0;
      ResolveAsWritten([], legacy, carried).1 == Resolved(Resolve(first).value)
    ensures Resolve([]).None?
  {
  }

  /** The concrete case: `imdb://tt0903747`, then `com.plexapp.agents.thetvdb://81189?lang=en`. */
  lemma StaleImdbReusedExample(first: seq<string>, legacy: string)
    requires first == ["imdb://tt0903747"]
    requires legacy == "com.plexapp.agents." + "thetvdb" + "://81189?lang=en"
    ensures var carried := ResolveAsWritten(first, "plex://show/1", INITIAL_VARS).0;
      ResolveAsWritten([], legacy, carried).1 == Resolved(Resolution(Imdb, "tt0903747"))
  {
    ResolveImdbFirst(first, 0, "tt0903747");
    assert legacy[19..26] == "thetvdb";
    assert OccursAt(legacy, "thetvdb", 19);
    StaleImdbReused(first, "plex://show/1", INITIAL_VARS, legacy);
  }

}
