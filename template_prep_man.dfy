/**
 * Manual metadata preparation in the review_template predecessor
 * (review_template/prep_man.py). Its records are bibtexparser entries: plain dicts whose
 * "status" is the record state, whose "origin" joins the origins with ";" and whose
 * "man_prep_hints" joins the preparation hints with ";". It counts entry types
 * (prep_man_stats), cross-tabulates hints by origin file, exports the records that need
 * manual preparation together with their search results (extract_needs_prep_man), lists
 * the work (get_data) and stores a prepared record (set_data).
 */
module TemplatePrepMan {
  import opened Common

  /** A bibtexparser entry: every field, ID and ENTRYTYPE included, as text. */
  type Entry = map<string, string>

  /** PAD never exceeds 35 characters here. */
  const PadCap := 35
  const ManPrep := "MAN_PREP"

  // ---------------------------------------------------------------------------
  // Origins

  /** The origins of an entry: its "origin" field split on ";", with "NA" when it has none. */
  function Origins(e: Entry): (r: seq<string>)
    ensures |r| > 0
  {
    Split(Get(e, "origin", "NA"), ';')
  }

  /** orig[: orig.rfind("/")]: the origin's file. */
  function OriginFile(orig: string): string
  {
    Slice(orig, 0, RFind(orig, "/"))
  }

  /** str.rfind("/") finds the last "/" and is -1 exactly when there is none. */
  lemma {:induction false} RFindSlash(s: string)
    ensures RFind(s, "/") >= 0 <==> '/' in s
    ensures RFind(s, "/") >= 0 ==> s[RFind(s, "/")] == '/' && '/' !in s[RFind(s, "/") + 1..]
    decreases |s|
  {
    if |s| == 0 {
    } else if EndsWith(s, "/") {
      assert s[|s| - 1] == s[|s| - 1..][0];
    } else {
      RFindSlash(s[..|s| - 1]);
      assert s == s[..|s| - 1] + [s[|s| - 1]];
      assert s[|s| - 1..] != "/";
      var r := RFind(s, "/");
      if r >= 0 {
        assert s[r + 1..] == s[..|s| - 1][r + 1..] + [s[|s| - 1]];
      }
    }
  }

  /**
   * With a "/", the file is the text before the last "/"; without one the rfind gives -1
   * and the slice drops the last character, so the "NA" of an entry without origin
   * becomes "N".
   */
  lemma OriginFileShape(orig: string)
    ensures '/' in orig ==>
      var f := OriginFile(orig);
      |f| < |orig| && orig[..|f| + 1] == f + "/" && '/' !in orig[|f| + 1..]
    ensures '/' !in orig && |orig| > 0 ==> OriginFile(orig) == orig[..|orig| - 1]
    ensures OriginFile("NA") == "N"
  {
    RFindSlash(orig);
    RFindSlash("NA");
    assert RFind("NA", "/") == -1;
  }

  // ---------------------------------------------------------------------------
  // prep_man_stats

  /** The overall ENTRYTYPE counts, those of the records needing manual preparation, and the (file, hint) crosstab. */
  datatype Stats = Stats(overall: map<string, nat>, needsPrep: map<string, nat>, crosstab: seq<(string, string)>)

  /** One crosstab row per origin for a hint. */
  function HintRows(hint: string, origins: seq<string>): (r: seq<(string, string)>)
    ensures |r| == |origins|
    ensures forall j :: 0 <= j < |origins| ==> r[j] == (OriginFile(origins[j]), hint)
  {
    seq(|origins|, j requires 0 <= j < |origins| => (OriginFile(origins[j]), hint))
  }

  /** The rows for every hint that is not a change-score, hint by hint. */
  function Cross(hints: seq<string>, origins: seq<string>): seq<(string, string)>
  {
    if |hints| == 0 then []
    else
      var h := hints[|hints| - 1];
      Cross(hints[..|hints| - 1], origins) + (if Contains(h, "change-score") then [] else HintRows(h, origins))
  }

  /** A row is in the cross product exactly when it pairs a non-change-score hint with an origin's file. */
  lemma {:induction false} CrossMembership(hints: seq<string>, origins: seq<string>, row: (string, string))
    ensures row in Cross(hints, origins) <==>
      exists i, j :: 0 <= i < |hints| && 0 <= j < |origins| && !Contains(hints[i], "change-score")
                     && row == (OriginFile(origins[j]), hints[i])
  {
    if |hints| > 0 {
      var init := hints[..|hints| - 1];
      var h := hints[|hints| - 1];
      CrossMembership(init, origins, row);
      if row in Cross(hints, origins) && row !in Cross(init, origins) {
        var j :| 0 <= j < |origins| && HintRows(h, origins)[j] == row;
        assert hints[|hints| - 1] == h;
      }
      if row !in Cross(hints, origins) {
        forall i, j | 0 <= i < |hints| && 0 <= j < |origins| && !Contains(hints[i], "change-score")
          ensures row != (OriginFile(origins[j]), hints[i])
        {
          if i < |hints| - 1 {
            assert hints[i] == init[i];
          } else {
            assert HintRows(h, origins)[j] == (OriginFile(origins[j]), hints[i]);
          }
        }
      }
    }
  }

  /** The rows one entry needing manual preparation adds. */
  function EntryRows(e: Entry): seq<(string, string)>
  {
    if "man_prep_hints" in e then Cross(Split(e["man_prep_hints"], ';'), Origins(e)) else []
  }

  /** One entry of the statistics loop; a missing "status" or ENTRYTYPE is a KeyError. */
  function Tally(st: Stats, e: Entry): Result<Stats>
  {
    if "status" !in e then Err(KeyError("status"))
    else if e["status"] == MdImported then Ok(st)
    else if "ENTRYTYPE" !in e then Err(KeyError("ENTRYTYPE"))
    else
      var counted := st.(overall := Bump(st.overall, e["ENTRYTYPE"]));
      if e["status"] != MdNeedsManualPreparation then Ok(counted)
      else Ok(counted.(needsPrep := Bump(st.needsPrep, e["ENTRYTYPE"]), crosstab := st.crosstab + EntryRows(e)))
  }

  /** prep_man_stats over the entries, in store order. */
  function StatsOf(entries: seq<Entry>): Result<Stats>
  {
    if |entries| == 0 then Ok(Stats(map[], map[], []))
    else
      match StatsOf(entries[..|entries| - 1])
      case Err(e) => Err(e)
      case Ok(st) => Tally(st, entries[|entries| - 1])
  }

  /** Which records a count covers. */
  datatype Scope = NotImported | NeedsPrep

  predicate InScope(e: Entry, scope: Scope)
  {
    "status" in e && match scope
      case NotImported => e["status"] != MdImported
      case NeedsPrep => e["status"] == MdNeedsManualPreparation
  }

  /** The entries in the scope with the given ENTRYTYPE. */
  function CountType(entries: seq<Entry>, scope: Scope, t: string): nat
  {
    if |entries| == 0 then 0
    else
      var e := entries[|entries| - 1];
      CountType(entries[..|entries| - 1], scope, t) + (if InScope(e, scope) && Get(e, "ENTRYTYPE", "") == t then 1 else 0)
  }

  /** The counters of a run of the statistics, as the scope selects them. */
  function Counter(st: Stats, scope: Scope): map<string, nat>
  {
    match scope
    case NotImported => st.overall
    case NeedsPrep => st.needsPrep
  }

  /**
   * The overall counts cover every entry not in md_imported, the per-type counts only the
   * entries in md_needs_manual_preparation, each per ENTRYTYPE.
   */
  lemma {:induction false} TypeCounts(entries: seq<Entry>, scope: Scope, t: string)
    requires StatsOf(entries).Ok?
    ensures var c := Counter(StatsOf(entries).value, scope);
      (t in c <==> CountType(entries, scope, t) > 0) && (t in c ==> c[t] == CountType(entries, scope, t))
  {
    if |entries| > 0 {
      TypeCounts(entries[..|entries| - 1], scope, t);
    }
  }

  /**
   * A crosstab row comes from an entry needing manual preparation: it pairs the file of
   * one of its origins with one of its hints that is not a change-score; and every such
   * pair is a row.
   */
  lemma {:induction false} CrosstabRows(entries: seq<Entry>, row: (string, string))
    requires StatsOf(entries).Ok?
    ensures row in StatsOf(entries).value.crosstab <==>
      exists k :: 0 <= k < |entries| && InScope(entries[k], NeedsPrep) && row in EntryRows(entries[k])
  {
    StatsCrosstab(entries);
    CrosstabMembership(entries, row);
  }

  /** The rows each entry contributes: its own when it needs manual preparation, none otherwise. */
  function Contributions(entries: seq<Entry>): (r: seq<seq<(string, string)>>)
    ensures |r| == |entries|
  {
    seq(|entries|, k requires 0 <= k < |entries| => if InScope(entries[k], NeedsPrep) then EntryRows(entries[k]) else [])
  }

  function Flatten<T>(xss: seq<seq<T>>): seq<T>
  {
    if |xss| == 0 then [] else Flatten(xss[..|xss| - 1]) + xss[|xss| - 1]
  }

  lemma {:induction false} FlattenMembership<T>(xss: seq<seq<T>>, x: T)
    ensures x in Flatten(xss) <==> exists k :: 0 <= k < |xss| && x in xss[k]
  {
    if |xss| > 0 {
      var init := xss[..|xss| - 1];
      FlattenMembership(init, x);
      if x in Flatten(xss) && x !in Flatten(init) {
        assert x in xss[|xss| - 1];
      }
      if x !in Flatten(xss) {
        forall k | 0 <= k < |xss|
          ensures x !in xss[k]
        {
          if k < |init| {
            assert xss[k] == init[k];
          }
        }
      }
    }
  }

  lemma {:induction false} StatsCrosstab(entries: seq<Entry>)
    requires StatsOf(entries).Ok?
    ensures StatsOf(entries).value.crosstab == Flatten(Contributions(entries))
  {
    if |entries| > 0 {
      var init := entries[..|entries| - 1];
      CrosstabStep(entries);
      StatsCrosstab(init);
      assert Contributions(entries)[..|entries| - 1] == Contributions(init);
    }
  }

  lemma CrosstabMembership(entries: seq<Entry>, row: (string, string))
    ensures row in Flatten(Contributions(entries)) <==>
      exists k :: 0 <= k < |entries| && InScope(entries[k], NeedsPrep) && row in EntryRows(entries[k])
  {
    var c := Contributions(entries);
    FlattenMembership(c, row);
    if row in Flatten(c) {
      var k :| 0 <= k < |c| && row in c[k];
      assert InScope(entries[k], NeedsPrep);
    }
    if exists k :: 0 <= k < |entries| && InScope(entries[k], NeedsPrep) && row in EntryRows(entries[k]) {
      var k :| 0 <= k < |entries| && InScope(entries[k], NeedsPrep) && row in EntryRows(entries[k]);
      assert c[k] == EntryRows(entries[k]);
    }
  }

  /** One more entry adds its own rows to the crosstab when it needs manual preparation, and none otherwise. */
  lemma CrosstabStep(entries: seq<Entry>)
    requires |entries| > 0 && StatsOf(entries).Ok?
    ensures StatsOf(entries[..|entries| - 1]).Ok?
    ensures var e := entries[|entries| - 1];
      StatsOf(entries).value.crosstab
        == StatsOf(entries[..|entries| - 1]).value.crosstab + (if InScope(e, NeedsPrep) then EntryRows(e) else [])
  {
    var init, e := entries[..|entries| - 1], entries[|entries| - 1];
    assert StatsOf(init).Ok? && StatsOf(entries) == Tally(StatsOf(init).value, e);
    TallyCrosstab(StatsOf(init).value, e);
  }

  /** The rows one entry of the statistics loop adds. */
  lemma TallyCrosstab(st: Stats, e: Entry)
    requires Tally(st, e).Ok?
    ensures Tally(st, e).value.crosstab == st.crosstab + (if InScope(e, NeedsPrep) then EntryRows(e) else [])
  {
    StatesDiffer();
    if !InScope(e, NeedsPrep) {
      assert st.crosstab + [] == st.crosstab;
    }
  }

  /** md_imported and md_needs_manual_preparation are different states. */
  lemma StatesDiffer()
    ensures MdImported != MdNeedsManualPreparation
  {
    assert MdImported[3] != MdNeedsManualPreparation[3];
  }

  /** The rows of every hint, as the loops over the hints and the origins append them. */
  method AppendCross(crosstab: seq<(string, string)>, hints: seq<string>, origins: seq<string>)
    returns (c: seq<(string, string)>)
    ensures c == crosstab + Cross(hints, origins)
  {
    c := crosstab;
    for i := 0 to |hints|
      invariant c == crosstab + Cross(hints[..i], origins)
    {
      assert hints[..i + 1][..i] == hints[..i];
      if Contains(hints[i], "change-score") {
        continue;
      }
      ghost var before := c;
      for j := 0 to |origins|
        invariant c == before + HintRows(hints[i], origins[..j])
      {
        assert HintRows(hints[i], origins[..j + 1]) == HintRows(hints[i], origins[..j]) + [(OriginFile(origins[j]), hints[i])];
        c := c + [(OriginFile(origins[j]), hints[i])];
      }
      assert origins[..|origins|] == origins;
    }
    assert hints[..|hints|] == hints;
  }

  /** prep_man_stats as written (without the pivot table and the printing). */
  method PrepManStats(entries: seq<Entry>) returns (r: Result<Stats>)
    ensures r == StatsOf(entries)
  {
    var overall: map<string, nat> := map[];
    var needsPrep: map<string, nat> := map[];
    var crosstab: seq<(string, string)> := [];
    for i := 0 to |entries|
      invariant StatsOf(entries[..i]) == Ok(Stats(overall, needsPrep, crosstab))
    {
      assert entries[..i + 1][..i] == entries[..i];
      var e := entries[i];
      if "status" !in e {
        StatsStops(entries, i + 1);
        return Err(KeyError("status"));
      }
      if e["status"] != MdImported {
        if "ENTRYTYPE" !in e {
          StatsStops(entries, i + 1);
          return Err(KeyError("ENTRYTYPE"));
        }
        overall := Bump(overall, e["ENTRYTYPE"]);
      }
      if e["status"] != MdNeedsManualPreparation {
        continue;
      }
      needsPrep := Bump(needsPrep, e["ENTRYTYPE"]);
      if "man_prep_hints" in e {
        crosstab := AppendCross(crosstab, Split(e["man_prep_hints"], ';'), Origins(e));
      } else {
        assert crosstab + EntryRows(e) == crosstab;
      }
    }
    assert entries[..|entries|] == entries;
    r := Ok(Stats(overall, needsPrep, crosstab));
  }

  lemma {:induction false} StatsStops(entries: seq<Entry>, k: nat)
    requires k <= |entries| && StatsOf(entries[..k]).Err?
    ensures StatsOf(entries) == StatsOf(entries[..k])
    decreases |entries| - k
  {
    if k < |entries| {
      assert entries[..k + 1][..k] == entries[..k];
      StatsStops(entries, k + 1);
    } else {
      assert entries[..k] == entries;
    }
  }

  // ---------------------------------------------------------------------------
  // extract_needs_prep_man

  /** The entries in md_needs_manual_preparation; an entry without "status" is a KeyError. */
  function Selected(entries: seq<Entry>): (r: Result<seq<Entry>>)
    ensures r.Err? <==> exists i :: 0 <= i < |entries| && "status" !in entries[i]
    ensures r.Ok? ==> forall e :: e in r.value <==> e in entries && InScope(e, NeedsPrep)
  {
    if |entries| == 0 then Ok([])
    else
      var last := entries[|entries| - 1];
      assert entries == entries[..|entries| - 1] + [last];
      match Selected(entries[..|entries| - 1])
      case Err(e) => Err(e)
      case Ok(s) =>
        if "status" !in last then Err(KeyError("status"))
        else Ok(if last["status"] == MdNeedsManualPreparation then s + [last] else s)
  }

  /** origin_list: every origin of every selected entry, split on "/". */
  function OriginParts(selected: seq<Entry>): seq<seq<string>>
  {
    if |selected| == 0 then []
    else
      var origins := Origins(selected[|selected| - 1]);
      OriginParts(selected[..|selected| - 1]) + seq(|origins|, j requires 0 <= j < |origins| => Split(origins[j], '/'))
  }

  /** The ids grouped per file; an origin that does not split into exactly file and id is a ValueError. */
  function GroupIds(parts: seq<seq<string>>): (r: Result<Groups<string>>)
    ensures r.Err? <==> exists i :: 0 <= i < |parts| && |parts[i]| != 2
  {
    if |parts| == 0 then Ok(Groups([], map[]))
    else
      var p := parts[|parts| - 1];
      assert forall i :: 0 <= i < |parts| - 1 ==> parts[..|parts| - 1][i] == parts[i];
      match GroupIds(parts[..|parts| - 1])
      case Err(e) => Err(e)
      case Ok(g) => if |p| != 2 then Err(ValueError) else Ok(GroupAppend(g, p[0], p[1]))
  }

  /** The ids of the origins that name a file, in encounter order. */
  function IdsIn(parts: seq<seq<string>>, file: string): seq<string>
  {
    if |parts| == 0 then []
    else
      var p := parts[|parts| - 1];
      IdsIn(parts[..|parts| - 1], file) + (if |p| == 2 && p[0] == file then [p[1]] else [])
  }

  /** Each file is grouped once, in the order first met, with exactly its ids in encounter order. */
  lemma {:induction false} GroupIdsLists(parts: seq<seq<string>>, file: string)
    requires GroupIds(parts).Ok?
    ensures GroupsWellFormed(GroupIds(parts).value)
    ensures GroupOf(GroupIds(parts).value, file) == IdsIn(parts, file)
  {
    if |parts| > 0 {
      var p := parts[|parts| - 1];
      GroupIdsLists(parts[..|parts| - 1], file);
      GroupAppendWellFormed(GroupIds(parts[..|parts| - 1]).value, p[0], p[1]);
    }
  }

  /**
   * [r for r in sr_db.entries if id == r["ID"]][0]: the first search result with the id;
   * a result without ID is a KeyError and a missing id an IndexError.
   */
  function FindResult(results: seq<Entry>, id: string): (r: Result<Entry>)
    ensures r.Ok? ==> r.value in results && Get(r.value, "ID", "") == id
    ensures r.Err? <==> (exists i :: 0 <= i < |results| && "ID" !in results[i])
                        || forall i :: 0 <= i < |results| ==> Get(results[i], "ID", "") != id
  {
    if exists i :: 0 <= i < |results| && "ID" !in results[i] then Err(KeyError("ID"))
    else FirstWithId(results, id)
  }

  function FirstWithId(results: seq<Entry>, id: string): (r: Result<Entry>)
    requires forall i :: 0 <= i < |results| ==> "ID" in results[i]
    ensures r.Ok? ==> r.value in results && r.value["ID"] == id
    ensures r.Ok? ==> forall i :: 0 <= i < |results| && results[i]["ID"] == id ==>
                        (results[i] == r.value || exists k :: 0 <= k < i && results[k] == r.value)
    ensures r.Err? <==> forall i :: 0 <= i < |results| ==> results[i]["ID"] != id
  {
    if |results| == 0 then Err(IndexError)
    else if results[0]["ID"] == id then Ok(results[0])
    else
      var r := FirstWithId(results[1..], id);
      assert forall i :: 1 <= i < |results| ==> results[i] == results[1..][i - 1];
      r
  }

  /** The search results of one file, looked up id by id; FileNotFoundError for a file not in the search directory. */
  function FileResults(search: map<string, seq<Entry>>, file: string, ids: seq<string>): (r: Result<seq<Entry>>)
    ensures r.Ok? ==> file in search && |r.value| == |ids| && forall k :: 0 <= k < |ids| ==> r.value[k] in search[file] && Get(r.value[k], "ID", "") == ids[k]
    ensures file !in search ==> r == Err(FileNotFoundError(file))
  {
    if file !in search then Err(FileNotFoundError(file))
    else if |ids| == 0 then Ok([])
    else
      match FileResults(search, file, ids[..|ids| - 1])
      case Err(e) => Err(e)
      case Ok(found) =>
        match FindResult(search[file], ids[|ids| - 1])
        case Err(e) => Err(e)
        case Ok(x) => Ok(found + [x])
  }

  /** The files of the groups, each with the search results of its ids, in group order. */
  function Exports(search: map<string, seq<Entry>>, g: Groups<string>, n: nat): Result<seq<(string, seq<Entry>)>>
    requires n <= |g.order|
  {
    if n == 0 then Ok([])
    else
      match Exports(search, g, n - 1)
      case Err(e) => Err(e)
      case Ok(done) =>
        var file := g.order[n - 1];
        match FileResults(search, file, GroupOf(g, file))
        case Err(e) => Err(e)
        case Ok(found) => Ok(done + [(file, found)])
  }

  /**
   * extract_needs_prep_man: the entries to export and, per origin file, the search
   * results their origins point to.
   */
  function Extract(entries: seq<Entry>, search: map<string, seq<Entry>>): Result<(seq<Entry>, seq<(string, seq<Entry>)>)>
  {
    match Selected(entries)
    case Err(e) => Err(e)
    case Ok(selected) =>
      match GroupIds(OriginParts(selected))
      case Err(e) => Err(e)
      case Ok(g) =>
        match Exports(search, g, |g.order|)
        case Err(e) => Err(e)
        case Ok(files) => Ok((selected, files))
  }

  /** An exported search file holds, for each id grouped under it, a result with that id. */
  lemma {:induction false} ExportsFind(search: map<string, seq<Entry>>, g: Groups<string>, n: nat)
    requires n <= |g.order| && Exports(search, g, n).Ok?
    ensures var files := Exports(search, g, n).value;
      |files| == n
      && forall i :: 0 <= i < n ==>
           (files[i].0 == g.order[i] && g.order[i] in search
            && |files[i].1| == |GroupOf(g, g.order[i])|
            && forall k :: 0 <= k < |files[i].1| ==> Get(files[i].1[k], "ID", "") == GroupOf(g, g.order[i])[k])
  {
    if n > 0 {
      ExportsFind(search, g, n - 1);
      var file := g.order[n - 1];
      var found := FileResults(search, file, GroupOf(g, file));
      assert found.Ok?;
      var before := Exports(search, g, n - 1).value;
      var files := Exports(search, g, n).value;
      assert files == before + [(file, found.value)];
      forall i | 0 <= i < n - 1
        ensures files[i] == before[i]
      {
      }
    }
  }

  /** The grouping loop over origin_list. */
  method GroupOrigins(parts: seq<seq<string>>) returns (r: Result<Groups<string>>)
    ensures r == GroupIds(parts)
  {
    var g: Groups<string> := Groups([], map[]);
    for i := 0 to |parts|
      invariant GroupIds(parts[..i]) == Ok(g)
    {
      assert parts[..i + 1][..i] == parts[..i];
      if |parts[i]| != 2 {
        GroupIdsStops(parts, i + 1);
        return Err(ValueError);
      }
      g := GroupAppend(g, parts[i][0], parts[i][1]);
    }
    assert parts[..|parts|] == parts;
    r := Ok(g);
  }

  lemma {:induction false} GroupIdsStops(parts: seq<seq<string>>, k: nat)
    requires k <= |parts| && GroupIds(parts[..k]).Err?
    ensures GroupIds(parts) == GroupIds(parts[..k])
    decreases |parts| - k
  {
    if k < |parts| {
      assert parts[..k + 1][..k] == parts[..k];
      GroupIdsStops(parts, k + 1);
    } else {
      assert parts[..k] == parts;
    }
  }

  /** The loop over the groups, each file's ids looked up in its search results. */
  method ExportFiles(search: map<string, seq<Entry>>, g: Groups<string>) returns (r: Result<seq<(string, seq<Entry>)>>)
    ensures r == Exports(search, g, |g.order|)
  {
    var files: seq<(string, seq<Entry>)> := [];
    for i := 0 to |g.order|
      invariant Exports(search, g, i) == Ok(files)
    {
      var file := g.order[i];
      var found := FileResults(search, file, GroupOf(g, file));
      if found.Err? {
        ExportsStop(search, g, i + 1);
        return Err(found.error);
      }
      files := files + [(file, found.value)];
    }
    r := Ok(files);
  }

  lemma {:induction false} ExportsStop(search: map<string, seq<Entry>>, g: Groups<string>, k: nat)
    requires k <= |g.order| && Exports(search, g, k).Err?
    ensures Exports(search, g, |g.order|) == Exports(search, g, k)
    decreases |g.order| - k
  {
    if k < |g.order| {
      ExportsStop(search, g, k + 1);
    }
  }

  /** extract_needs_prep_man as written (the file writes are the returned exports). */
  method ExtractNeedsPrepMan(entries: seq<Entry>, search: map<string, seq<Entry>>)
    returns (r: Result<(seq<Entry>, seq<(string, seq<Entry>)>)>)
    ensures r == Extract(entries, search)
  {
    var selected := Selected(entries);
    if selected.Err? {
      return Err(selected.error);
    }
    var parts := OriginParts(selected.value);
    var g := GroupOrigins(parts);
    if g.Err? {
      return Err(g.error);
    }
    var files := ExportFiles(search, g.value);
    if files.Err? {
      return Err(files.error);
    }
    r := Ok((selected.value, files.value));
  }

  // ---------------------------------------------------------------------------
  // get_data and set_data

  /** The number of tasks, the records to prepare, every ID and the PAD. */
  datatype PrepData = PrepData(nrTasks: nat, items: seq<Entry>, allIds: seq<string>, pad: nat)

  /** The (ID, status) pairs in the state. */
  function Tasks(stateList: seq<(string, string)>): (r: nat)
    ensures r <= |stateList|
  {
    if |stateList| == 0 then 0
    else Tasks(stateList[..|stateList| - 1]) + (if stateList[|stateList| - 1].1 == MdNeedsManualPreparation then 1 else 0)
  }

  /** The entries whose status is md_needs_manual_preparation (read_next_record with that condition). */
  function Items(entries: seq<Entry>): (r: seq<Entry>)
    ensures forall e :: e in r <==> e in entries && InScope(e, NeedsPrep)
  {
    if |entries| == 0 then []
    else
      var last := entries[|entries| - 1];
      assert entries == entries[..|entries| - 1] + [last];
      Items(entries[..|entries| - 1]) + (if InScope(last, NeedsPrep) then [last] else [])
  }

  function Firsts(stateList: seq<(string, string)>): (r: seq<string>)
    ensures |r| == |stateList| && forall i :: 0 <= i < |r| ==> r[i] == stateList[i].0
  {
    seq(|stateList|, i requires 0 <= i < |stateList| => stateList[i].0)
  }

  /**
   * get_data: the tasks counted on the record state list, every ID in it, and the PAD
   * min(longest ID + 2, 35); the max of an empty list is a ValueError.
   */
  function GetData(stateList: seq<(string, string)>, entries: seq<Entry>): (r: Result<PrepData>)
    ensures r.Err? <==> |stateList| == 0
    ensures r.Ok? ==> r.value.allIds == Firsts(stateList) && r.value.pad <= PadCap
    ensures r.Ok? ==> forall i :: 0 <= i < |stateList| ==> |stateList[i].0| + 2 <= r.value.pad || r.value.pad == PadCap
    ensures r.Ok? ==>
      (exists i :: 0 <= i < |stateList| &&
        (|stateList[i].0| + 2 == r.value.pad || (r.value.pad == PadCap && |stateList[i].0| + 2 >= PadCap)))
    ensures r.Ok? ==> r.value.pad == PadWidth(Firsts(stateList), PadCap).value
    ensures r.Ok? ==> r.value.nrTasks == Tasks(stateList)
    ensures r.Ok? ==> forall e :: e in r.value.items <==> e in entries && InScope(e, NeedsPrep)
  {
    match PadWidth(Firsts(stateList), PadCap)
    case Err(e) => Err(e)
    case Ok(pad) => Ok(PrepData(Tasks(stateList), Items(entries), Firsts(stateList), pad))
  }

  /** A count of the pairs in the state, by an independent definition. */
  lemma {:induction false} TasksCount(stateList: seq<(string, string)>)
    ensures Tasks(stateList) == |set i | 0 <= i < |stateList| && stateList[i].1 == MdNeedsManualPreparation|
  {
    if |stateList| > 0 {
      var n := |stateList| - 1;
      TasksCount(stateList[..n]);
      var before := set i | 0 <= i < n && stateList[..n][i].1 == MdNeedsManualPreparation;
      var now := set i | 0 <= i < |stateList| && stateList[i].1 == MdNeedsManualPreparation;
      assert before == set i | 0 <= i < n && stateList[i].1 == MdNeedsManualPreparation;
      if stateList[n].1 == MdNeedsManualPreparation {
        assert now == before + {n};
      } else {
        assert now == before;
      }
    }
  }

  /** The record after set_data's two updates. */
  function Prepared(record: Entry): (r: Entry)
    ensures r.Keys == record.Keys + {"status", "metadata_source"}
    ensures r["status"] == MdPrepared && r["metadata_source"] == ManPrep
    ensures forall k :: k in record && k != "status" && k != "metadata_source" ==> r[k] == record[k]
  {
    record["status" := MdPrepared]["metadata_source" := ManPrep]
  }

  /** Preparing twice is preparing once. */
  lemma PreparedIdempotent(record: Entry)
    ensures Prepared(Prepared(record)) == Prepared(record)
  {
    var p := Prepared(record);
    assert forall k :: k in Prepared(p) <==> k in p;
  }

  /** The store with every entry of the record's ID replaced by the record. */
  function ReplaceById(entries: seq<Entry>, record: Entry): (r: seq<Entry>)
    ensures |r| == |entries|
    ensures forall i :: 0 <= i < |entries| ==>
      r[i] == if Get(entries[i], "ID", "") == Get(record, "ID", "") then record else entries[i]
  {
    seq(|entries|, i requires 0 <= i < |entries| =>
      if Get(entries[i], "ID", "") == Get(record, "ID", "") then record else entries[i])
  }

  /** The records of the main references file. */
  class RecordStore {
    var entries: seq<Entry>

    constructor(entries: seq<Entry>)
      ensures this.entries == entries
    {
      this.entries := entries;
    }

    /** update_record_by_ID. */
    method UpdateRecordById(record: Entry)
      modifies this
      ensures entries == ReplaceById(old(entries), record)
    {
      entries := ReplaceById(entries, record);
    }

    /** set_data: the record is marked prepared by MAN_PREP and stored under its ID. */
    method SetData(record: Entry) returns (updated: Entry)
      modifies this
      ensures updated == Prepared(record)
      ensures entries == ReplaceById(old(entries), Prepared(record))
    {
      updated := record["status" := MdPrepared];
      updated := updated["metadata_source" := ManPrep];
      UpdateRecordById(updated);
    }
  }

  /** After set_data every stored entry with the record's ID is in md_prepared. */
  lemma SetDataMarksPrepared(entries: seq<Entry>, record: Entry, i: nat)
    requires i < |entries| && Get(entries[i], "ID", "") == Get(record, "ID", "")
    ensures ReplaceById(entries, Prepared(record))[i]["status"] == MdPrepared
    ensures ReplaceById(entries, Prepared(record))[i]["metadata_source"] == ManPrep
  {
    assert Get(Prepared(record), "ID", "") == Get(record, "ID", "");
  }
}
