/**
 * The record part of the push operation (colrev/ops/push.py): the stored corrections are
 * grouped by the origin prefix of the original record's origins (__get_change_sets), and
 * each group is handed to its search source, which applies it or gets it shared by mail
 * (__push_record_corrections, __share_correction).
 */
module Push {
  import opened Common

  /**
   * A search source of the settings: its origin prefix, its endpoint, and whether the
   * endpoint package offers apply_correction.
   */
  datatype Source = Source(prefix: string, endpoint: string, corrects: bool)

  /** A stored correction: its file, the original record and the changes made to it. */
  datatype Correction = Correction(file: string, original: Record, changes: string)

  const UnknownSource := "colrev.unknown_source"
  const Dblp := "colrev.dblp"

  // ---------------------------------------------------------------------------
  // __get_change_sets

  /** search_source_mappings: origin prefix to endpoint; of two sources with one prefix the later wins. */
  function Mappings(sources: seq<Source>): (m: map<string, string>)
    ensures forall p :: p in m <==> exists i :: 0 <= i < |sources| && sources[i].prefix == p
    ensures forall i :: 0 <= i < |sources| && (forall j :: i < j < |sources| ==> sources[j].prefix != sources[i].prefix)
              ==> m[sources[i].prefix] == sources[i].endpoint
  {
    if |sources| == 0 then map[]
    else
      var last := sources[|sources| - 1];
      var init := sources[..|sources| - 1];
      assert sources == init + [last];
      MappingsExtend(init, last, Mappings(init));
      Mappings(init)[last.prefix := last.endpoint]
  }

  /** Adding a source to the mapping of the sources before it gives the mapping of all of them. */
  lemma MappingsExtend(init: seq<Source>, last: Source, m0: map<string, string>)
    requires forall p :: p in m0 <==> exists i :: 0 <= i < |init| && init[i].prefix == p
    requires forall i :: 0 <= i < |init| && (forall j :: i < j < |init| ==> init[j].prefix != init[i].prefix)
               ==> m0[init[i].prefix] == init[i].endpoint
    ensures var s, m := init + [last], m0[last.prefix := last.endpoint];
      && (forall p :: p in m <==> exists i :: 0 <= i < |s| && s[i].prefix == p)
      && (forall i :: 0 <= i < |s| && (forall j :: i < j < |s| ==> s[j].prefix != s[i].prefix)
            ==> m[s[i].prefix] == s[i].endpoint)
  {
    var s, m := init + [last], m0[last.prefix := last.endpoint];
    forall p
      ensures p in m <==> exists i :: 0 <= i < |s| && s[i].prefix == p
    {
      if p == last.prefix {
        assert s[|init|].prefix == p;
      } else if p in m0 {
        var i :| 0 <= i < |init| && init[i].prefix == p;
        assert s[i].prefix == p;
      } else {
        forall i | 0 <= i < |s|
          ensures s[i].prefix != p
        {
          if i < |init| {
            assert s[i] == init[i];
          }
        }
      }
    }
    forall i | 0 <= i < |s| && (forall j :: i < j < |s| ==> s[j].prefix != s[i].prefix)
      ensures m[s[i].prefix] == s[i].endpoint
    {
      if i < |init| {
        assert s[|init|].prefix != s[i].prefix;
        assert s[i] == init[i];
        forall j | i < j < |init|
          ensures init[j].prefix != init[i].prefix
        {
          assert s[j] == init[j];
        }
      }
    }
  }

  /** source_origin[: source_origin.find("/")]; without a "/" the find gives -1 and the last character is cut. */
  function Prefix(origin: string): string
  {
    Slice(origin, 0, Find(origin, "/"))
  }

  /** str.find returns the first occurrence. */
  lemma {:induction false} FindFirst(s: string, p: string)
    requires Find(s, p) >= 0
    ensures forall k :: 0 <= k < Find(s, p) ==> !StartsWith(s[k..], p)
    decreases |s|
  {
    if !StartsWith(s, p) {
      FindFirst(s[1..], p);
      forall k | 0 <= k < Find(s, p)
        ensures !StartsWith(s[k..], p)
      {
        if k > 0 {
          assert s[k..] == s[1..][k - 1..];
        }
      }
    }
  }

  /**
   * With a "/", the prefix is the text before the first "/"; without one, the origin
   * minus its last character.
   */
  lemma PrefixShape(origin: string)
    ensures Contains(origin, "/") ==>
      var p := Prefix(origin);
      |p| < |origin| && origin[..|p| + 1] == p + "/" && '/' !in p
    ensures !Contains(origin, "/") && |origin| > 0 ==> Prefix(origin) == origin[..|origin| - 1]
  {
    var k := Find(origin, "/");
    if k >= 0 {
      FindFirst(origin, "/");
      var p := Prefix(origin);
      assert p == origin[..k];
      forall i | 0 <= i < k
        ensures p[i] != '/'
      {
        assert !StartsWith(origin[i..], "/");
      }
      assert origin[k..k + 1] == "/";
    }
  }

  /** change_sets: the prefixes in the order they were first met, and the corrections listed under each. */
  type ChangeSets = Groups<Correction>

  /** A correction is listed once under the prefix of each of its origins, skipping unknown sources. */
  function AddOrigins(cs: ChangeSets, m: map<string, string>, c: Correction, origins: seq<string>): (r: Result<ChangeSets>)
    ensures r.Err? <==> exists j :: 0 <= j < |origins| && Prefix(origins[j]) !in m
    ensures r.Ok? && cs.lists.Keys <= m.Keys ==> r.value.lists.Keys <= m.Keys
  {
    if |origins| == 0 then Ok(cs)
    else
      var init := origins[..|origins| - 1];
      var p := Prefix(origins[|origins| - 1]);
      assert forall j :: 0 <= j < |init| ==> init[j] == origins[j];
      match AddOrigins(cs, m, c, init)
      case Err(e) => Err(e)
      case Ok(s) =>
        if p !in m then Err(KeyError(p))
        else if m[p] == UnknownSource then Ok(s)
        else Ok(GroupAppend(s, p, c))
  }

  /** __get_change_sets: the corrections grouped by origin prefix; a prefix no source has is a KeyError. */
  function Collect(m: map<string, string>, corrections: seq<Correction>): (r: Result<ChangeSets>)
    ensures r.Err? <==> exists i, j :: 0 <= i < |corrections| && 0 <= j < |corrections[i].original.origin|
                                       && Prefix(corrections[i].original.origin[j]) !in m
    ensures r.Ok? ==> r.value.lists.Keys <= m.Keys
  {
    if |corrections| == 0 then Ok(Groups([], map[]))
    else
      var init := corrections[..|corrections| - 1];
      var last := corrections[|corrections| - 1];
      assert forall i :: 0 <= i < |init| ==> init[i] == corrections[i];
      match Collect(m, init)
      case Err(e) => Err(e)
      case Ok(s) => AddOrigins(s, m, last, last.original.origin)
  }

  /** The copies of a correction one prefix receives: one per origin with that prefix and a known source. */
  function Hits(m: map<string, string>, c: Correction, origins: seq<string>, p: string): seq<Correction>
  {
    if |origins| == 0 then []
    else
      var q := Prefix(origins[|origins| - 1]);
      Hits(m, c, origins[..|origins| - 1], p) + (if q == p && q in m && m[q] != UnknownSource then [c] else [])
  }

  /** Every copy a prefix receives, correction by correction. */
  function Matches(m: map<string, string>, corrections: seq<Correction>, p: string): seq<Correction>
  {
    if |corrections| == 0 then []
    else
      var last := corrections[|corrections| - 1];
      Matches(m, corrections[..|corrections| - 1], p) + Hits(m, last, last.original.origin, p)
  }

  lemma {:induction false} AddOriginsWellFormed(cs: ChangeSets, m: map<string, string>, c: Correction, origins: seq<string>)
    requires GroupsWellFormed(cs) && AddOrigins(cs, m, c, origins).Ok?
    ensures GroupsWellFormed(AddOrigins(cs, m, c, origins).value)
  {
    if |origins| > 0 {
      var init := origins[..|origins| - 1];
      AddOriginsWellFormed(cs, m, c, init);
      var q := Prefix(origins[|origins| - 1]);
      if m[q] != UnknownSource {
        GroupAppendWellFormed(AddOrigins(cs, m, c, init).value, q, c);
      }
    }
  }

  lemma {:induction false} AddOriginsLists(cs: ChangeSets, m: map<string, string>, c: Correction, origins: seq<string>, p: string)
    requires AddOrigins(cs, m, c, origins).Ok?
    ensures GroupOf(AddOrigins(cs, m, c, origins).value, p) == GroupOf(cs, p) + Hits(m, c, origins, p)
  {
    if |origins| > 0 {
      var init := origins[..|origins| - 1];
      var q := Prefix(origins[|origins| - 1]);
      assert AddOrigins(cs, m, c, init).Ok?;
      var s := AddOrigins(cs, m, c, init).value;
      AddOriginsLists(cs, m, c, init, p);
      assert q in m;
      var extra := if q == p && m[q] != UnknownSource then [c] else [];
      assert Hits(m, c, origins, p) == Hits(m, c, init, p) + extra;
      if m[q] == UnknownSource {
        assert AddOrigins(cs, m, c, origins) == Ok(s);
        assert extra == [];
        assert Hits(m, c, init, p) + extra == Hits(m, c, init, p);
      } else {
        assert AddOrigins(cs, m, c, origins) == Ok(GroupAppend(s, q, c));
        if q == p {
          ConcatAssoc(GroupOf(cs, p), Hits(m, c, init, p), [c]);
        } else {
          assert Hits(m, c, init, p) + extra == Hits(m, c, init, p);
        }
      }
    }
  }

  /**
   * The corrections listed under a prefix are exactly its copies in encounter order, each
   * prefix is listed once, and a prefix is listed exactly when it received a copy.
   */
  lemma {:induction false} CollectLists(m: map<string, string>, corrections: seq<Correction>, p: string)
    requires Collect(m, corrections).Ok?
    ensures var r := Collect(m, corrections).value;
      && GroupsWellFormed(r)
      && GroupOf(r, p) == Matches(m, corrections, p)
      && (p in r.lists <==> |Matches(m, corrections, p)| > 0)
  {
    if |corrections| > 0 {
      var init := corrections[..|corrections| - 1];
      var last := corrections[|corrections| - 1];
      CollectLists(m, init, p);
      AddOriginsWellFormed(Collect(m, init).value, m, last, last.original.origin);
      AddOriginsLists(Collect(m, init).value, m, last, last.original.origin, p);
    }
  }

  /** The loop over a correction's origins. */
  method AppendOrigins(cs: ChangeSets, m: map<string, string>, c: Correction) returns (r: Result<ChangeSets>)
    ensures r == AddOrigins(cs, m, c, c.original.origin)
  {
    var origins := c.original.origin;
    var sets := cs;
    ghost var done: seq<string> := [];
    for j := 0 to |origins|
      invariant done == origins[..j]
      invariant AddOrigins(cs, m, c, done) == Ok(sets)
    {
      TakeSnoc(origins, j);
      AddOriginsSnoc(cs, m, c, done, origins[j]);
      var p := Prefix(origins[j]);
      if p !in m {
        AddOriginsStops(cs, m, c, origins, j + 1);
        return Err(KeyError(p));
      }
      done := done + [origins[j]];
      if m[p] == UnknownSource {
        continue;
      }
      sets := GroupAppend(sets, p, c);
    }
    TakeAll(origins);
    r := Ok(sets);
  }

  /** One more origin after the ones handled without error. */
  lemma AddOriginsSnoc(cs: ChangeSets, m: map<string, string>, c: Correction, init: seq<string>, o: string)
    requires AddOrigins(cs, m, c, init).Ok?
    ensures var s := AddOrigins(cs, m, c, init).value; var p := Prefix(o);
      AddOrigins(cs, m, c, init + [o]) ==
        if p !in m then Err(KeyError(p)) else if m[p] == UnknownSource then Ok(s) else Ok(GroupAppend(s, p, c))
  {
    var all := init + [o];
    assert all[..|all| - 1] == init;
  }


  lemma {:induction false} AddOriginsStops(cs: ChangeSets, m: map<string, string>, c: Correction, origins: seq<string>, k: nat)
    requires k <= |origins| && AddOrigins(cs, m, c, origins[..k]).Err?
    ensures AddOrigins(cs, m, c, origins) == AddOrigins(cs, m, c, origins[..k])
    decreases |origins| - k
  {
    if k < |origins| {
      assert origins[..k + 1][..k] == origins[..k];
      AddOriginsStops(cs, m, c, origins, k + 1);
    } else {
      assert origins[..k] == origins;
    }
  }

  /** The dict comprehension over the sources. */
  method BuildMappings(sources: seq<Source>) returns (m: map<string, string>)
    ensures m == Mappings(sources)
  {
    m := map[];
    for i := 0 to |sources|
      invariant m == Mappings(sources[..i])
    {
      assert sources[..i + 1][..i] == sources[..i];
      m := m[sources[i].prefix := sources[i].endpoint];
    }
    assert sources[..|sources|] == sources;
  }

  /** __get_change_sets as written: a loop over the corrections and, inside, over their origins. */
  method GetChangeSets(sources: seq<Source>, corrections: seq<Correction>) returns (r: Result<ChangeSets>)
    ensures r == Collect(Mappings(sources), corrections)
  {
    var m := BuildMappings(sources);
    var sets: ChangeSets := Groups([], map[]);
    for i := 0 to |corrections|
      invariant Collect(m, corrections[..i]) == Ok(sets)
    {
      assert corrections[..i + 1][..i] == corrections[..i];
      var next := AppendOrigins(sets, m, corrections[i]);
      if next.Err? {
        CollectStops(m, corrections, i + 1);
        return next;
      }
      sets := next.value;
    }
    assert corrections[..|corrections|] == corrections;
    r := Ok(sets);
  }

  lemma {:induction false} CollectStops(m: map<string, string>, corrections: seq<Correction>, k: nat)
    requires k <= |corrections| && Collect(m, corrections[..k]).Err?
    ensures Collect(m, corrections) == Collect(m, corrections[..k])
    decreases |corrections| - k
  {
    if k < |corrections| {
      assert corrections[..k + 1][..k] == corrections[..k];
      CollectStops(m, corrections, k + 1);
    } else {
      assert corrections[..k] == corrections;
    }
  }

  // ---------------------------------------------------------------------------
  // __share_correction

  /** One entry of the shared list: the original record and its changes. */
  datatype Shared = Shared(record: Record, changes: string)

  function Prepared(items: seq<Correction>): (r: seq<Shared>)
    ensures |r| == |items|
    ensures forall i :: 0 <= i < |items| ==> r[i] == Shared(items[i].original, items[i].changes)
  {
    seq(|items|, i requires 0 <= i < |items| => Shared(items[i].original, items[i].changes))
  }

  const Greeting := "Dear Sir or Madam,\n\n" + "we have noticed potential corrections and "
                    + "would like to share them with you.\nThe potentical changes are:\n\n"
  const Closing := "\n\nBest regards\n\n"
  const DblpHeader := "Send to: dblp@dagstuhl.de\n\n" + "Subject: Potential correction to DBLP metadata\n\n"
  const DblpMailFile := "dblp-corrections-mail.txt"

  /** The mail text around the pretty-printed list, with the DBLP header only for colrev.dblp. */
  function MailText(endpoint: string, corrections: string): string
  {
    (if endpoint == Dblp then DblpHeader else "") + Greeting + corrections + Closing
  }

  lemma FirstCharacters()
    ensures |DblpHeader| > 0 && DblpHeader[0] == 'S'
    ensures |Greeting| > 0 && Greeting[0] == 'D'
  {
  }

  /** A text starts with a header it was prefixed with, and not with one whose first character differs from its own. */
  lemma HeadedOrNot(header: string, body: string, headed: bool)
    requires |header| > 0 && |body| > 0 && header[0] != body[0]
    ensures StartsWith((if headed then header else "") + body, header) <==> headed
  {
    var t := (if headed then header else "") + body;
    if headed {
      assert t[..|header|] == header;
    } else {
      assert t[0] == body[0];
    }
  }

  /** The mail opens with the DBLP header exactly for colrev.dblp. */
  lemma MailTextHeader(endpoint: string, corrections: string)
    ensures StartsWith(MailText(endpoint, corrections), DblpHeader) <==> endpoint == Dblp
  {
    var body := Greeting + corrections + Closing;
    FirstCharacters();
    assert body[0] == Greeting[0];
    HeadedOrNot(DblpHeader, body, endpoint == Dblp);
    assert MailText(endpoint, corrections) == (if endpoint == Dblp then DblpHeader else "") + body;
  }

  /** After the optional header the mail greets, lists the corrections unchanged and closes. */
  lemma MailTextParts(endpoint: string, corrections: string)
    ensures var t := MailText(endpoint, corrections);
      var h := if endpoint == Dblp then |DblpHeader| else 0;
      && h + |Greeting| + |corrections| + |Closing| == |t|
      && t[h..h + |Greeting|] == Greeting
      && t[h + |Greeting|..h + |Greeting| + |corrections|] == corrections
      && t[|t| - |Closing|..] == Closing
  {
    var head := if endpoint == Dblp then DblpHeader else "";
    ConcatSlices(head, Greeting, corrections, Closing);
  }

  // ---------------------------------------------------------------------------
  // __push_record_corrections

  /**
   * What happens to one group: the endpoint applies it, or the mail is composed, and for
   * DBLP written to its file with the group's correction files removed.
   */
  datatype Action =
    | ApplyCorrection(prefix: string, items: seq<Correction>)
    | Share(prefix: string, text: string, mailFile: Option<string>, removed: seq<string>)

  /** The first source with the prefix (source_l[0]). */
  function FirstSource(sources: seq<Source>, p: string): (r: Option<Source>)
    ensures r.None? <==> forall i :: 0 <= i < |sources| ==> sources[i].prefix != p
    ensures r.Some? ==> r.value in sources && r.value.prefix == p
  {
    if |sources| == 0 then None
    else if sources[0].prefix == p then Some(sources[0])
    else
      var r := FirstSource(sources[1..], p);
      assert forall i :: 1 <= i < |sources| ==> sources[i] == sources[1..][i - 1];
      r
  }

  function Files(items: seq<Correction>): (r: seq<string>)
    ensures |r| == |items| && forall i :: 0 <= i < |items| ==> r[i] == items[i].file
  {
    seq(|items|, i requires 0 <= i < |items| => items[i].file)
  }

  /** __share_correction for one group; format is the pretty printer. */
  function ShareAction(s: Source, items: seq<Correction>, format: seq<Shared> -> string): Action
  {
    var text := MailText(s.endpoint, format(Prepared(items)));
    if s.endpoint == Dblp then Share(s.prefix, text, Some(DblpMailFile), Files(items))
    else Share(s.prefix, text, None, [])
  }

  /** One group: skipped without a source; applied when the endpoint can; shared only with all_records. */
  function Dispatch(sources: seq<Source>, allRecords: bool, format: seq<Shared> -> string,
                    p: string, items: seq<Correction>): Option<Action>
  {
    match FirstSource(sources, p)
    case None => None
    case Some(s) =>
      if s.corrects then Some(ApplyCorrection(p, items))
      else if allRecords then Some(ShareAction(s, items, format))
      else None
  }

  /** The actions for the groups, in the order their prefixes were met. */
  function DispatchAll(sources: seq<Source>, allRecords: bool, format: seq<Shared> -> string,
                       cs: ChangeSets, n: nat): (r: seq<Action>)
    requires n <= |cs.order|
    ensures |r| <= n
  {
    if n == 0 then []
    else
      var p := cs.order[n - 1];
      DispatchAll(sources, allRecords, format, cs, n - 1)
        + match Dispatch(sources, allRecords, format, p, GroupOf(cs, p))
          case None => []
          case Some(a) => [a]
  }

  /** Without all_records, groups are only ever applied, never shared. */
  lemma {:induction false} OnlyAppliesWithoutAllRecords(sources: seq<Source>, format: seq<Shared> -> string,
                                                      cs: ChangeSets, n: nat)
    requires n <= |cs.order|
    ensures forall a :: a in DispatchAll(sources, false, format, cs, n) ==> a.ApplyCorrection?
  {
    if n > 0 {
      OnlyAppliesWithoutAllRecords(sources, format, cs, n - 1);
    }
  }

  /** Every prefix collected from the sources has a source, so no group is skipped for want of one. */
  lemma CollectedHaveSources(sources: seq<Source>, corrections: seq<Correction>, p: string)
    requires Collect(Mappings(sources), corrections).Ok?
    requires p in Collect(Mappings(sources), corrections).value.lists
    ensures FirstSource(sources, p).Some?
  {
  }

  /** The action a group gives: it names the group's prefix and, when applied, carries its corrections. */
  predicate ActionFor(a: Action, p: string, items: seq<Correction>)
  {
    a.prefix == p && (a.ApplyCorrection? ==> a.items == items)
  }

  /** With all_records, a group whose prefix has a source gives one action for that prefix. */
  lemma DispatchGroup(sources: seq<Source>, format: seq<Shared> -> string, p: string, items: seq<Correction>)
    requires FirstSource(sources, p).Some?
    ensures var d := Dispatch(sources, true, format, p, items);
      d.Some? && ActionFor(d.value, p, items)
  {
  }

  /** With all_records, a group with a source adds its action after those of the earlier groups. */
  lemma DispatchAllStep(sources: seq<Source>, format: seq<Shared> -> string, cs: ChangeSets, n: nat)
    requires 0 < n <= |cs.order|
    requires Dispatch(sources, true, format, cs.order[n - 1], GroupOf(cs, cs.order[n - 1])).Some?
    ensures DispatchAll(sources, true, format, cs, n)
      == DispatchAll(sources, true, format, cs, n - 1)
         + [Dispatch(sources, true, format, cs.order[n - 1], GroupOf(cs, cs.order[n - 1])).value]
  {
  }

  /** The first n groups' actions, one per group in the order the prefixes were met. */
  predicate ActionsFor(rs: seq<Action>, cs: ChangeSets, n: nat)
    requires n <= |cs.order|
  {
    |rs| == n && forall i :: 0 <= i < n ==> ActionFor(rs[i], cs.order[i], GroupOf(cs, cs.order[i]))
  }

  lemma ActionsSnoc(before: seq<Action>, d: Action, cs: ChangeSets, n: nat)
    requires 0 < n <= |cs.order| && ActionsFor(before, cs, n - 1)
    requires ActionFor(d, cs.order[n - 1], GroupOf(cs, cs.order[n - 1]))
    ensures ActionsFor(before + [d], cs, n)
  {
    forall i | 0 <= i < n
      ensures ActionFor((before + [d])[i], cs.order[i], GroupOf(cs, cs.order[i]))
    {
      if i < n - 1 {
        assert (before + [d])[i] == before[i];
      }
    }
  }

  /**
   * With all_records, every listed group that has a source gives exactly one action, in
   * the order the prefixes were met, carrying that group's corrections when applied.
   */
  lemma {:induction false} DispatchEveryGroup(sources: seq<Source>, format: seq<Shared> -> string, cs: ChangeSets, n: nat)
    requires n <= |cs.order|
    requires forall i :: 0 <= i < |cs.order| ==> FirstSource(sources, cs.order[i]).Some?
    ensures ActionsFor(DispatchAll(sources, true, format, cs, n), cs, n)
  {
    if n > 0 {
      DispatchEveryGroup(sources, format, cs, n - 1);
      var p := cs.order[n - 1];
      DispatchGroup(sources, format, p, GroupOf(cs, p));
      DispatchAllStep(sources, format, cs, n);
      ActionsSnoc(DispatchAll(sources, true, format, cs, n - 1), Dispatch(sources, true, format, p, GroupOf(cs, p)).value, cs, n);
    }
  }

  /**
   * After the corrections were collected with all_records, every group is pushed once,
   * in the order its prefix was met, and an applied group carries exactly that prefix's
   * corrections in encounter order.
   */
  lemma PushEveryGroup(sources: seq<Source>, format: seq<Shared> -> string, corrections: seq<Correction>)
    requires Collect(Mappings(sources), corrections).Ok?
    ensures var cs := Collect(Mappings(sources), corrections).value;
      var r := DispatchAll(sources, true, format, cs, |cs.order|);
      && |r| == |cs.order|
      && forall i :: 0 <= i < |r| ==>
           (r[i].prefix == cs.order[i]
            && (r[i].ApplyCorrection? ==> r[i].items == Matches(Mappings(sources), corrections, cs.order[i])))
  {
    var cs := Collect(Mappings(sources), corrections).value;
    forall i | 0 <= i < |cs.order|
      ensures FirstSource(sources, cs.order[i]).Some?
      ensures GroupOf(cs, cs.order[i]) == Matches(Mappings(sources), corrections, cs.order[i])
    {
      CollectLists(Mappings(sources), corrections, cs.order[i]);
      CollectedHaveSources(sources, corrections, cs.order[i]);
    }
    DispatchEveryGroup(sources, format, cs, |cs.order|);
  }

  /** The loop over the change sets. */
  method PushGroups(sources: seq<Source>, allRecords: bool, format: seq<Shared> -> string, cs: ChangeSets)
    returns (actions: seq<Action>)
    ensures actions == DispatchAll(sources, allRecords, format, cs, |cs.order|)
  {
    actions := [];
    for i := 0 to |cs.order|
      invariant actions == DispatchAll(sources, allRecords, format, cs, i)
    {
      var p := cs.order[i];
      var items := GroupOf(cs, p);
      var source := FirstSource(sources, p);
      if source.None? {
        continue;
      }
      var s := source.value;
      if s.corrects {
        actions := actions + [ApplyCorrection(p, items)];
      } else if allRecords {
        actions := actions + [ShareAction(s, items, format)];
      }
    }
  }

  /** __push_record_corrections: collect the change sets, then hand each group on. */
  method PushRecordCorrections(sources: seq<Source>, corrections: seq<Correction>, allRecords: bool,
                               format: seq<Shared> -> string) returns (r: Result<seq<Action>>)
    ensures var cs := Collect(Mappings(sources), corrections);
      && (cs.Err? ==> r == Err(cs.error))
      && (cs.Ok? ==> r == Ok(DispatchAll(sources, allRecords, format, cs.value, |cs.value.order|)))
  {
    var cs := GetChangeSets(sources, corrections);
    if cs.Err? {
      return Err(cs.error);
    }
    var actions := PushGroups(sources, allRecords, format, cs.value);
    r := Ok(actions);
  }
}
