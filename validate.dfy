/**
 * Validation of a commit: the records changed in a target commit are compared
 * with the snapshot of the records file just before it, either field by field
 * (preparation) or pair by pair for merged records (merging). Pairs that are not
 * identical are reported, the least similar first.
 */
module Validate {
  import opened Common

  /** A commit touching the records file, with the records it stored (newest first). */
  datatype Commit = Commit(sha: string, records: seq<Record>)

  /** A commit touching status.yaml, with its message. */
  datatype LogEntry = LogEntry(sha: string, message: string)

  /** A commit with the hash of its tree. */
  datatype TreeEntry = TreeEntry(sha: string, tree: string)

  /** [record_a, record_b, similarity] as the validations report them. */
  datatype Triple = Triple(first: Record, second: Record, similarity: real)

  const Marker := "changed_in_target_commit"

  predicate Marked(r: Record)
  {
    Marker in r.fields
  }

  // ---------------------------------------------------------------------------
  // The snapshot before the target commit

  function FirstIndex(revlist: seq<Commit>, target: string): (r: Option<nat>)
    ensures r.Some? ==> (r.value < |revlist| && revlist[r.value].sha == target
      && forall j :: 0 <= j < r.value ==> revlist[j].sha != target)
    ensures r.None? ==> forall j :: 0 <= j < |revlist| ==> revlist[j].sha != target
  {
    if |revlist| == 0 then None
    else if revlist[0].sha == target then Some(0)
    else match FirstIndex(revlist[1..], target)
      case None => None
      case Some(i) => Some(i + 1)
  }

  /** The records of the first commit at or after position j that is not the target. */
  function SnapshotAfter(revlist: seq<Commit>, target: string, j: nat): Result<seq<Record>>
    decreases |revlist| - j
  {
    if j >= |revlist| then Err(UnboundLocalError("prior_records_dict"))
    else if revlist[j].sha == target then SnapshotAfter(revlist, target, j + 1)
    else Ok(revlist[j].records)
  }

  /** What __load_prior_records_dict yields for a newest-first history. */
  function PriorSnapshot(revlist: seq<Commit>, target: string): Result<seq<Record>>
  {
    match FirstIndex(revlist, target)
    case None => Err(UnboundLocalError("prior_records_dict"))
    case Some(i) => SnapshotAfter(revlist, target, i + 1)
  }

  /** __load_prior_records_dict: the loop with the found_target_commit flag. */
  method LoadPriorRecordsDict(revlist: seq<Commit>, target: string) returns (r: Result<seq<Record>>)
    ensures r == PriorSnapshot(revlist, target)
  {
    var found := false;
    var k := 0;
    while k < |revlist|
      invariant 0 <= k <= |revlist|
      invariant !found ==> forall j :: 0 <= j < k ==> revlist[j].sha != target
      invariant found ==> (FirstIndex(revlist, target).Some? && FirstIndex(revlist, target).value < k
        && PriorSnapshot(revlist, target) == SnapshotAfter(revlist, target, k))
    {
      if revlist[k].sha == target {
        found := true;
        k := k + 1;
        continue;
      }
      if !found {
        k := k + 1;
        continue;
      }
      return Ok(revlist[k].records);
    }
    return Err(UnboundLocalError("prior_records_dict"));
  }

  predicate DistinctShas(revlist: seq<Commit>)
  {
    forall i, j :: 0 <= i < j < |revlist| ==> revlist[i].sha != revlist[j].sha
  }

  /** In a history of distinct commits the snapshot is the entry right after the target. */
  lemma PriorSnapshotIsNext(revlist: seq<Commit>, target: string, i: nat)
    requires DistinctShas(revlist)
    requires i < |revlist| && revlist[i].sha == target
    ensures i + 1 < |revlist| ==> PriorSnapshot(revlist, target) == Ok(revlist[i + 1].records)
    ensures i + 1 == |revlist| ==> PriorSnapshot(revlist, target).Err?
  {
    assert FirstIndex(revlist, target) == Some(i);
  }

  /** Without the target in the history there is no snapshot. */
  lemma PriorSnapshotAbsent(revlist: seq<Commit>, target: string)
    requires forall j :: 0 <= j < |revlist| ==> revlist[j].sha != target
    ensures PriorSnapshot(revlist, target) == Err(UnboundLocalError("prior_records_dict"))
  {
  }

  lemma {:induction false} SnapshotAfterNotTarget(revlist: seq<Commit>, target: string, j: nat)
    requires SnapshotAfter(revlist, target, j).Ok?
    ensures exists k :: (j <= k < |revlist| && revlist[k].sha != target
      && revlist[k].records == SnapshotAfter(revlist, target, j).value)
    decreases |revlist| - j
  {
    if revlist[j].sha == target {
      SnapshotAfterNotTarget(revlist, target, j + 1);
    } else {
      assert revlist[j].records == SnapshotAfter(revlist, target, j).value;
    }
  }

  /** The snapshot comes from a commit listed after the target, never from the target. */
  lemma PriorSnapshotNeverTarget(revlist: seq<Commit>, target: string)
    requires PriorSnapshot(revlist, target).Ok?
    ensures exists k :: (FirstIndex(revlist, target).Some? && FirstIndex(revlist, target).value < k < |revlist|
      && revlist[k].sha != target && revlist[k].records == PriorSnapshot(revlist, target).value)
  {
    var i := FirstIndex(revlist, target).value;
    SnapshotAfterNotTarget(revlist, target, i + 1);
  }

  // ---------------------------------------------------------------------------
  // Filtering and ordering the differences

  function Below1(d: seq<Triple>): (r: seq<Triple>)
    ensures forall t :: t in r ==> t in d && t.similarity < 1.0
    ensures forall t :: t in d && t.similarity < 1.0 ==> t in r
    ensures multiset(r) <= multiset(d)
  {
    if |d| == 0 then []
    else
      assert d == [d[0]] + d[1..];
      if d[0].similarity < 1.0 then [d[0]] + Below1(d[1..]) else Below1(d[1..])
  }

  predicate SortedDesc(d: seq<Triple>)
  {
    forall i, j :: 0 <= i < j < |d| ==> d[i].similarity >= d[j].similarity
  }

  /** Inserts x after every element at least as similar, keeping equal elements in order. */
  function InsertDesc(d: seq<Triple>, x: Triple): (r: seq<Triple>)
    ensures multiset(r) == multiset(d) + multiset{x}
    ensures |r| == |d| + 1
  {
    if |d| == 0 then [x]
    else if d[0].similarity >= x.similarity then
      assert d == [d[0]] + d[1..];
      [d[0]] + InsertDesc(d[1..], x)
    else [x] + d
  }

  /** list.sort(key=similarity, reverse=True): a stable sort, most similar first. */
  function SortDesc(d: seq<Triple>): (r: seq<Triple>)
    ensures multiset(r) == multiset(d)
    ensures |r| == |d|
  {
    if |d| == 0 then []
    else
      assert d == d[..|d| - 1] + [d[|d| - 1]];
      InsertDesc(SortDesc(d[..|d| - 1]), d[|d| - 1])
  }

  lemma {:induction false} InsertDescSorted(d: seq<Triple>, x: Triple)
    requires SortedDesc(d)
    ensures SortedDesc(InsertDesc(d, x))
    decreases |d|
  {
    if |d| > 0 && d[0].similarity >= x.similarity {
      InsertDescSorted(d[1..], x);
      var r := InsertDesc(d[1..], x);
      assert multiset(r) == multiset(d[1..]) + multiset{x};
      forall t | t in r
        ensures t.similarity <= d[0].similarity
      {
        assert t in multiset(r);
        if t != x {
          assert t in multiset(d[1..]);
        }
      }
    }
  }

  lemma {:induction false} SortDescSorted(d: seq<Triple>)
    ensures SortedDesc(SortDesc(d))
    decreases |d|
  {
    if |d| > 0 {
      SortDescSorted(d[..|d| - 1]);
      InsertDescSorted(SortDesc(d[..|d| - 1]), d[|d| - 1]);
    }
  }

  /** The elements with similarity v, in their order. */
  function WithSimilarity(d: seq<Triple>, v: real): (r: seq<Triple>)
  {
    if |d| == 0 then []
    else (if d[0].similarity == v then [d[0]] else []) + WithSimilarity(d[1..], v)
  }

  lemma {:induction false} WithSimilarityAppend(d: seq<Triple>, e: seq<Triple>, v: real)
    ensures WithSimilarity(d + e, v) == WithSimilarity(d, v) + WithSimilarity(e, v)
    decreases |d|
  {
    if |d| > 0 {
      assert (d + e)[1..] == d[1..] + e;
      WithSimilarityAppend(d[1..], e, v);
    } else {
      assert d + e == e;
    }
  }

  lemma {:induction false} WithSimilarityNone(d: seq<Triple>, v: real)
    requires forall i :: 0 <= i < |d| ==> d[i].similarity < v
    ensures WithSimilarity(d, v) == []
    decreases |d|
  {
    if |d| > 0 {
      WithSimilarityNone(d[1..], v);
    }
  }

  lemma {:induction false} InsertDescStable(d: seq<Triple>, x: Triple, v: real)
    requires SortedDesc(d)
    ensures WithSimilarity(InsertDesc(d, x), v)
      == WithSimilarity(d, v) + (if x.similarity == v then [x] else [])
    decreases |d|
  {
    if |d| == 0 {
    } else if d[0].similarity >= x.similarity {
      InsertDescStable(d[1..], x, v);
      var tail := InsertDesc(d[1..], x);
      assert InsertDesc(d, x) == [d[0]] + tail;
      WithSimilarityCons(d[0], tail, v);
      ConcatAssoc(if d[0].similarity == v then [d[0]] else [], WithSimilarity(d[1..], v),
                  if x.similarity == v then [x] else []);
    } else {
      assert InsertDesc(d, x) == [x] + d;
      WithSimilarityCons(x, d, v);
      if x.similarity == v {
        WithSimilarityNone(d, v);
      }
    }
  }

  /** Filtering a list with a first element. */
  lemma WithSimilarityCons(h: Triple, t: seq<Triple>, v: real)
    ensures WithSimilarity([h] + t, v) == (if h.similarity == v then [h] else []) + WithSimilarity(t, v)
  {
    assert ([h] + t)[1..] == t;
  }

  lemma SortDescLast(d: seq<Triple>)
    requires |d| > 0
    ensures SortDesc(d) == InsertDesc(SortDesc(d[..|d| - 1]), d[|d| - 1])
  {
  }

  lemma WithSimilarityLast(d: seq<Triple>, v: real)
    requires |d| > 0
    ensures WithSimilarity(d, v)
      == WithSimilarity(d[..|d| - 1], v) + (if d[|d| - 1].similarity == v then [d[|d| - 1]] else [])
  {
    assert d == d[..|d| - 1] + [d[|d| - 1]];
    WithSimilarityAppend(d[..|d| - 1], [d[|d| - 1]], v);
  }

  /** Sorting keeps the elements of equal similarity in their original order. */
  lemma {:induction false} SortDescStable(d: seq<Triple>, v: real)
    ensures WithSimilarity(SortDesc(d), v) == WithSimilarity(d, v)
    decreases |d|
  {
    if |d| > 0 {
      var init, x := d[..|d| - 1], d[|d| - 1];
      SortDescStable(init, v);
      SortDescSorted(init);
      SortDescLast(d);
      InsertDescStable(SortDesc(init), x, v);
      WithSimilarityLast(d, v);
    }
  }

  /** Keep the pairs below similarity 1, most similar first. */
  function Finish(d: seq<Triple>): seq<Triple>
  {
    SortDesc(Below1(d))
  }

  /** Both validations return only non-identical pairs, sorted, stably, by similarity descending. */
  lemma FinishProperties(d: seq<Triple>, v: real)
    ensures forall t :: t in Finish(d) ==> t in d && t.similarity < 1.0
    ensures multiset(Finish(d)) == multiset(Below1(d))
    ensures SortedDesc(Finish(d))
    ensures WithSimilarity(Finish(d), v) == WithSimilarity(Below1(d), v)
  {
    SortDescSorted(Below1(d));
    SortDescStable(Below1(d), v);
    forall t | t in Finish(d)
      ensures t in Below1(d)
    {
      assert t in multiset(Finish(d));
    }
  }

  // ---------------------------------------------------------------------------
  // Preparation changes

  /** The prior records whose origin list holds o, in snapshot order. */
  function PriorsWithOrigin(prior: seq<Record>, o: string): (r: seq<Record>)
    ensures forall p :: p in r ==> p in prior && o in p.origin
    ensures forall j :: 0 <= j < |prior| && o in prior[j].origin ==> prior[j] in r
  {
    if |prior| == 0 then []
    else
      assert forall j :: 1 <= j < |prior| ==> prior[j] == prior[1..][j - 1];
      if o in prior[0].origin then [prior[0]] + PriorsWithOrigin(prior[1..], o)
      else PriorsWithOrigin(prior[1..], o)
  }

  /** [prior, current, similarity] for each prior record of ps. */
  function TriplesWith(cur: Record, ps: seq<Record>, sim: (Record, Record) -> real): seq<Triple>
  {
    seq(|ps|, j requires 0 <= j < |ps| => Triple(ps[j], cur, sim(cur, ps[j])))
  }

  /** The triples of one current record, origin by origin. */
  function OriginTriples(cur: Record, prior: seq<Record>, os: seq<string>, sim: (Record, Record) -> real)
    : seq<Triple>
    decreases |os|
  {
    if |os| == 0 then []
    else (OriginTriples(cur, prior, os[..|os| - 1], sim)
          + TriplesWith(cur, PriorsWithOrigin(prior, os[|os| - 1]), sim))
  }

  /** Every triple of a record pairs a prior record with it through an origin they share. */
  lemma {:induction false} OriginTriplesShareOrigin(cur: Record, prior: seq<Record>, os: seq<string>,
                                                    sim: (Record, Record) -> real)
    ensures forall t :: t in OriginTriples(cur, prior, os, sim) ==>
      t.second == cur && t.first in prior && t.similarity == sim(cur, t.first)
      && exists o :: o in os && o in t.first.origin
    decreases |os|
  {
    if |os| > 0 {
      var init, o := os[..|os| - 1], os[|os| - 1];
      OriginTriplesShareOrigin(cur, prior, init, sim);
      var ps := PriorsWithOrigin(prior, o);
      forall t | t in OriginTriples(cur, prior, os, sim)
        ensures t.second == cur && t.first in prior && t.similarity == sim(cur, t.first)
          && exists o' :: o' in os && o' in t.first.origin
      {
        if t in OriginTriples(cur, prior, init, sim) {
          var o' :| o' in init && o' in t.first.origin;
          assert o' in os;
        } else {
          var j :| 0 <= j < |ps| && TriplesWith(cur, ps, sim)[j] == t;
          assert t.first == ps[j];
          assert o in os;
        }
      }
    }
  }

  /** Every prior record sharing an origin with the current record gets a triple. */
  lemma {:induction false} OriginTriplesComplete(cur: Record, prior: seq<Record>, os: seq<string>,
                                                 sim: (Record, Record) -> real, o: string, p: Record)
    requires o in os && p in prior && o in p.origin
    ensures Triple(p, cur, sim(cur, p)) in OriginTriples(cur, prior, os, sim)
    decreases |os|
  {
    var init, last := os[..|os| - 1], os[|os| - 1];
    if o == last {
      var ps := PriorsWithOrigin(prior, o);
      var j :| 0 <= j < |ps| && ps[j] == p;
      assert TriplesWith(cur, ps, sim)[j] == Triple(p, cur, sim(cur, p));
    } else {
      assert o in init by {
        var i :| 0 <= i < |os| && os[i] == o;
        assert i < |os| - 1;
        assert init[i] == o;
      }
      OriginTriplesComplete(cur, prior, init, sim, o, p);
    }
  }

  /** A processed record without its marker and its status. */
  function Cleaned(r: Record): Record
  {
    r.(fields := r.fields - {Marker, "colrev_status"})
  }

  /** The state a record is left in by the preparation validation. */
  function AfterPreparation(r: Record): Record
  {
    if Marked(r) then Cleaned(r) else r
  }

  /** The unsorted triples of the preparation validation, or the KeyError of a record without status. */
  function PreparationTriples(records: seq<Record>, prior: seq<Record>, sim: (Record, Record) -> real)
    : Result<seq<Triple>>
    decreases |records|
  {
    if |records| == 0 then Ok([])
    else
      match PreparationTriples(records[..|records| - 1], prior, sim)
      case Err(e) => Err(e)
      case Ok(d) =>
        var r := records[|records| - 1];
        if !Marked(r) then Ok(d)
        else if "colrev_status" !in r.fields then Err(KeyError("colrev_status"))
        else Ok(d + OriginTriples(Cleaned(r), prior, r.origin, sim))
  }

  /** The first record that raises decides the outcome: an error of a prefix is the error of the whole. */
  lemma {:induction false} PreparationTriplesErrPrefix(records: seq<Record>, n: nat, prior: seq<Record>,
                                                      sim: (Record, Record) -> real)
    requires n <= |records|
    requires PreparationTriples(records[..n], prior, sim).Err?
    ensures PreparationTriples(records, prior, sim) == PreparationTriples(records[..n], prior, sim)
    decreases |records|
  {
    if n < |records| {
      var init := records[..|records| - 1];
      assert init[..n] == records[..n];
      PreparationTriplesErrPrefix(init, n, prior, sim);
    } else {
      assert records[..n] == records;
    }
  }

  /** What validate_preparation_changes returns for the records as given. */
  function PreparationValidation(records: seq<Record>, revlist: seq<Commit>, target: string,
                                 sim: (Record, Record) -> real): Result<seq<Triple>>
  {
    match PriorSnapshot(revlist, target)
    case Err(e) => Err(e)
    case Ok(prior) =>
      match PreparationTriples(records, prior, sim)
      case Err(e) => Err(e)
      case Ok(d) => Ok(Finish(d))
  }

  /** The loops of validate_preparation_changes over one record's origins and their prior records. */
  method CompareWithPriors(cur: Record, prior: seq<Record>, sim: (Record, Record) -> real)
    returns (diff: seq<Triple>)
    ensures diff == OriginTriples(cur, prior, cur.origin, sim)
  {
    diff := [];
    var k := 0;
    while k < |cur.origin|
      invariant 0 <= k <= |cur.origin|
      invariant diff == OriginTriples(cur, prior, cur.origin[..k], sim)
    {
      var ps := PriorsWithOrigin(prior, cur.origin[k]);
      var m := 0;
      while m < |ps|
        invariant 0 <= m <= |ps|
        invariant diff == OriginTriples(cur, prior, cur.origin[..k], sim) + TriplesWith(cur, ps[..m], sim)
      {
        diff := diff + [Triple(ps[m], cur, sim(cur, ps[m]))];
        assert TriplesWith(cur, ps[..m + 1], sim) == TriplesWith(cur, ps[..m], sim) + [Triple(ps[m], cur, sim(cur, ps[m]))];
        m := m + 1;
      }
      assert ps[..m] == ps;
      assert cur.origin[..k + 1][..k] == cur.origin[..k];
      k := k + 1;
    }
    assert cur.origin[..k] == cur.origin;
  }

  /**
   * validate_preparation_changes: for each marked record, drop the marker and the status
   * in place and pair it with every prior record that shares one of its origins.
   */
  method ValidatePreparationChanges(records: array<Record>, revlist: seq<Commit>, target: string,
                                    sim: (Record, Record) -> real)
    returns (r: Result<seq<Triple>>)
    modifies records
    ensures r == PreparationValidation(old(records[..]), revlist, target, sim)
    ensures PriorSnapshot(revlist, target).Err? ==> records[..] == old(records[..])
    ensures r.Ok? ==> forall i :: 0 <= i < records.Length ==> records[i] == AfterPreparation(old(records[i]))
  {
    var priorResult := LoadPriorRecordsDict(revlist, target);
    if priorResult.Err? {
      return Err(priorResult.error);
    }
    var prior := priorResult.value;
    ghost var original := records[..];
    AppliedUpToEnds(original, AfterPreparation);
    var diff: seq<Triple> := [];
    var i := 0;
    while i < records.Length
      invariant 0 <= i <= records.Length == |original|
      invariant PreparationTriples(original[..i], prior, sim) == Ok(diff)
      invariant records[..] == AppliedUpTo(original, AfterPreparation, i)
    {
      assert original[..i + 1][..i] == original[..i];
      var rec := records[i];
      assert rec == original[i];
      if !Marked(rec) {
        AppliedUpToFixed(original, AfterPreparation, i);
        i := i + 1;
        continue;
      }
      if "colrev_status" !in rec.fields {
        PreparationTriplesErrPrefix(original, i + 1, prior, sim);
        return Err(KeyError("colrev_status"));
      }
      var cur := Cleaned(rec);
      AppliedUpToStep(original, AfterPreparation, i);
      records[i] := cur;
      var triples := CompareWithPriors(cur, prior, sim);
      diff := diff + triples;
      i := i + 1;
    }
    assert original[..i] == original;
    return Ok(Finish(diff));
  }

  // ---------------------------------------------------------------------------
  // Merging changes

  /** Line 99 as written: is the string ";" an element of the origin list? */
  predicate ContainsSemicolonElement(origin: seq<string>)
  {
    ";" in origin
  }

  /** What the merge check evidently means: the record merges several origins. */
  predicate HasSeveralOrigins(origin: seq<string>)
  {
    |origin| > 1
  }

  /** itertools.combinations(s, 2) */
  function Pairs(s: seq<string>): (r: seq<(string, string)>)
    ensures |r| == |s| * (|s| - 1) / 2
    ensures forall p :: p in r ==> exists i, j :: 0 <= i < j < |s| && p == (s[i], s[j])
  {
    if |s| == 0 then []
    else
      var head := seq(|s| - 1, j requires 0 <= j < |s| - 1 => (s[0], s[j + 1]));
      var rest := Pairs(s[1..]);
      assert forall p :: p in rest ==> exists i, j :: 1 <= i < j < |s| && p == (s[i], s[j]) by {
        forall p | p in rest
          ensures exists i, j :: 1 <= i < j < |s| && p == (s[i], s[j])
        {
          var i, j :| 0 <= i < j < |s| - 1 && p == (s[1..][i], s[1..][j]);
          assert p == (s[i + 1], s[j + 1]);
        }
      }
      assert forall p :: p in head ==> exists j :: 1 <= j < |s| && p == (s[0], s[j]);
      TriangleStep(|s|);
      head + rest
  }

  /** n choose 2 grows by n - 1 from n - 1 to n. */
  lemma TriangleStep(n: nat)
    requires n > 0
    ensures n * (n - 1) / 2 == (n - 1) + (n - 1) * (n - 2) / 2
  {
    assert n * (n - 1) == 2 * (n - 1) + (n - 1) * (n - 2);
  }

  /** Every pair of positions i < j appears among the combinations. */
  lemma {:induction false} PairsComplete(s: seq<string>, i: nat, j: nat)
    requires i < j < |s|
    ensures (s[i], s[j]) in Pairs(s)
    decreases |s|
  {
    var head := seq(|s| - 1, k requires 0 <= k < |s| - 1 => (s[0], s[k + 1]));
    assert Pairs(s) == head + Pairs(s[1..]);
    if i == 0 {
      assert head[j - 1] == (s[0], s[j]);
    } else {
      PairsComplete(s[1..], i - 1, j - 1);
    }
  }

  /** The first prior record whose origins hold o (record_1[0] in the source). */
  function FirstWithOrigin(prior: seq<Record>, o: string): (r: Option<Record>)
    ensures r.Some? ==> r.value in prior && o in r.value.origin
    ensures r.None? ==> forall j :: 0 <= j < |prior| ==> o !in prior[j].origin
  {
    if |prior| == 0 then None
    else if o in prior[0].origin then Some(prior[0])
    else
      assert forall j :: 1 <= j < |prior| ==> prior[j] == prior[1..][j - 1];
      FirstWithOrigin(prior[1..], o)
  }

  /** The triples of the origin pairs of one record; IndexError when a side has no prior record. */
  function PairTriples(prior: seq<Record>, pairs: seq<(string, string)>, sim: (Record, Record) -> real)
    : Result<seq<Triple>>
    decreases |pairs|
  {
    if |pairs| == 0 then Ok([])
    else
      match PairTriples(prior, pairs[..|pairs| - 1], sim)
      case Err(e) => Err(e)
      case Ok(d) =>
        var r1 := FirstWithOrigin(prior, pairs[|pairs| - 1].0);
        var r2 := FirstWithOrigin(prior, pairs[|pairs| - 1].1);
        if r1.None? || r2.None? then Err(IndexError)
        else Ok(d + [Triple(r1.value, r2.value, sim(r1.value, r2.value))])
  }

  /** A marked record after the merge validation dropped its marker. */
  function AfterMerging(r: Record): Record
  {
    if Marked(r) then r.(fields := r.fields - {Marker}) else r
  }

  /** The unsorted triples of the merge validation, for a given merge test. */
  function MergeTriples(records: seq<Record>, prior: seq<Record>, sim: (Record, Record) -> real,
                        isMerged: seq<string> -> bool): Result<seq<Triple>>
    decreases |records|
  {
    if |records| == 0 then Ok([])
    else
      match MergeTriples(records[..|records| - 1], prior, sim, isMerged)
      case Err(e) => Err(e)
      case Ok(d) =>
        var r := records[|records| - 1];
        if !Marked(r) || !isMerged(r.origin) then Ok(d)
        else
          match PairTriples(prior, Pairs(r.origin), sim)
          case Err(e) => Err(e)
          case Ok(p) => Ok(d + p)
  }

  /** One more record extends the triples of the records before it. */
  lemma MergeTriplesSnoc(records: seq<Record>, i: nat, prior: seq<Record>,
                         sim: (Record, Record) -> real, isMerged: seq<string> -> bool)
    requires i < |records|
    requires MergeTriples(records[..i], prior, sim, isMerged).Ok?
    ensures var d := MergeTriples(records[..i], prior, sim, isMerged).value;
      var r := records[i];
      var next := MergeTriples(records[..i + 1], prior, sim, isMerged);
      && (!Marked(r) || !isMerged(r.origin) ==> next == Ok(d))
      && (Marked(r) && isMerged(r.origin) && PairTriples(prior, Pairs(r.origin), sim).Ok? ==>
            next == Ok(d + PairTriples(prior, Pairs(r.origin), sim).value))
      && (Marked(r) && isMerged(r.origin) && PairTriples(prior, Pairs(r.origin), sim).Err? ==>
            next == Err(PairTriples(prior, Pairs(r.origin), sim).error))
  {
    assert records[..i + 1][..i] == records[..i];
  }

  lemma {:induction false} MergeTriplesErrPrefix(records: seq<Record>, n: nat, prior: seq<Record>,
                                                 sim: (Record, Record) -> real, isMerged: seq<string> -> bool)
    requires n <= |records|
    requires MergeTriples(records[..n], prior, sim, isMerged).Err?
    ensures MergeTriples(records, prior, sim, isMerged) == MergeTriples(records[..n], prior, sim, isMerged)
    decreases |records|
  {
    if n < |records| {
      var init := records[..|records| - 1];
      assert init[..n] == records[..n];
      MergeTriplesErrPrefix(init, n, prior, sim, isMerged);
    } else {
      assert records[..n] == records;
    }
  }

  lemma {:induction false} PairTriplesErrPrefix(prior: seq<Record>, pairs: seq<(string, string)>, n: nat,
                                                sim: (Record, Record) -> real)
    requires n <= |pairs|
    requires PairTriples(prior, pairs[..n], sim).Err?
    ensures PairTriples(prior, pairs, sim) == PairTriples(prior, pairs[..n], sim)
    decreases |pairs|
  {
    if n < |pairs| {
      var init := pairs[..|pairs| - 1];
      assert init[..n] == pairs[..n];
      PairTriplesErrPrefix(prior, init, n, sim);
    } else {
      assert pairs[..n] == pairs;
    }
  }

  /** The inner loop of validate_merging_changes over the origin pairs of one record. */
  method CompareOriginPairs(prior: seq<Record>, pairs: seq<(string, string)>, sim: (Record, Record) -> real)
    returns (r: Result<seq<Triple>>)
    ensures r == PairTriples(prior, pairs, sim)
  {
    var diff: seq<Triple> := [];
    var k := 0;
    while k < |pairs|
      invariant 0 <= k <= |pairs|
      invariant PairTriples(prior, pairs[..k], sim) == Ok(diff)
    {
      assert pairs[..k + 1][..k] == pairs[..k];
      var (e1, e2) := pairs[k];
      var record1 := FirstWithOrigin(prior, e1);
      var record2 := FirstWithOrigin(prior, e2);
      if record1.None? || record2.None? {
        PairTriplesErrPrefix(prior, pairs, k + 1, sim);
        return Err(IndexError);
      }
      diff := diff + [Triple(record1.value, record2.value, sim(record1.value, record2.value))];
      k := k + 1;
    }
    assert pairs[..k] == pairs;
    return Ok(diff);
  }

  /** What validate_merging_changes returns for the records as given. */
  function MergingValidation(records: seq<Record>, revlist: seq<Commit>, target: string,
                             sim: (Record, Record) -> real, isMerged: seq<string> -> bool)
    : Result<seq<Triple>>
  {
    match PriorSnapshot(revlist, target)
    case Err(e) => Err(e)
    case Ok(prior) =>
      match MergeTriples(records, prior, sim, isMerged)
      case Err(e) => Err(e)
      case Ok(d) => Ok(Finish(d))
  }

  /**
   * validate_merging_changes: for each marked record, drop the marker in place and, when
   * the merge test holds of its origins, compare the first prior records of every
   * pair of its origins.
   */
  method ValidateMergingChanges(records: array<Record>, revlist: seq<Commit>, target: string,
                                sim: (Record, Record) -> real, isMerged: seq<string> -> bool)
    returns (r: Result<seq<Triple>>)
    modifies records
    ensures r == MergingValidation(old(records[..]), revlist, target, sim, isMerged)
    ensures PriorSnapshot(revlist, target).Err? ==> records[..] == old(records[..])
    ensures r.Ok? ==> forall i :: 0 <= i < records.Length ==> records[i] == AfterMerging(old(records[i]))
  {
    var priorResult := LoadPriorRecordsDict(revlist, target);
    if priorResult.Err? {
      return Err(priorResult.error);
    }
    var prior := priorResult.value;
    ghost var original := records[..];
    AppliedUpToEnds(original, AfterMerging);
    var diff: seq<Triple> := [];
    var i := 0;
    while i < records.Length
      invariant 0 <= i <= records.Length == |original|
      invariant MergeTriples(original[..i], prior, sim, isMerged) == Ok(diff)
      invariant records[..] == AppliedUpTo(original, AfterMerging, i)
    {
      MergeTriplesSnoc(original, i, prior, sim, isMerged);
      var rec := records[i];
      assert rec == original[i];
      if !Marked(rec) {
        AppliedUpToFixed(original, AfterMerging, i);
        i := i + 1;
        continue;
      }
      AppliedUpToStep(original, AfterMerging, i);
      records[i] := AfterMerging(rec);
      if isMerged(rec.origin) {
        var compared := CompareOriginPairs(prior, Pairs(rec.origin), sim);
        if compared.Err? {
          MergeTriplesErrPrefix(original, i + 1, prior, sim, isMerged);
          return Err(compared.error);
        }
        diff := diff + compared.value;
      }
      i := i + 1;
    }
    assert original[..i] == original;
    return Ok(Finish(diff));
  }

  /** Records none of which is marked produce no merge triples. */
  lemma {:induction false} MergeTriplesUnmarked(records: seq<Record>, prior: seq<Record>,
                                                sim: (Record, Record) -> real, isMerged: seq<string> -> bool)
    requires forall i :: 0 <= i < |records| ==> !Marked(records[i])
    ensures MergeTriples(records, prior, sim, isMerged) == Ok([])
    decreases |records|
  {
    if |records| > 0 {
      MergeTriplesUnmarked(records[..|records| - 1], prior, sim, isMerged);
    }
  }

  // A record merged from two sources, and the two prior records it came from.
  const PriorA := Record(map["ID" := "P1"], ["a.bib/1"], map[])
  const PriorB := Record(map["ID" := "P2"], ["b.bib/7"], map[])
  const MergedAB := Record(map["ID" := "M", Marker := "True"], ["a.bib/1", "b.bib/7"], map[])

  lemma MergedABPairs(sim: (Record, Record) -> real)
    ensures PairTriples([PriorA, PriorB], Pairs(MergedAB.origin), sim) == Ok([Triple(PriorA, PriorB, sim(PriorA, PriorB))])
  {
    var pairs := Pairs(MergedAB.origin);
    assert pairs == [("a.bib/1", "b.bib/7")];
    assert pairs[..0] == [];
    assert FirstWithOrigin([PriorA, PriorB], "a.bib/1") == Some(PriorA);
    assert [PriorA, PriorB][1..] == [PriorB];
    assert "b.bib/7" !in PriorA.origin;
    assert FirstWithOrigin([PriorA, PriorB], "b.bib/7") == Some(PriorB);
    assert PairTriples([PriorA, PriorB], pairs[..0], sim) == Ok([]);
    assert pairs[|pairs| - 1] == ("a.bib/1", "b.bib/7");
    var d: seq<Triple> := [];
    assert PairTriples([PriorA, PriorB], pairs, sim) == Ok(d + [Triple(PriorA, PriorB, sim(PriorA, PriorB))]);
    assert d + [Triple(PriorA, PriorB, sim(PriorA, PriorB))] == [Triple(PriorA, PriorB, sim(PriorA, PriorB))];
  }

  /**
   * As written, line 99 misses an ordinary merged record: its two origins are compared
   * only under the evidently intended test.
   */
  lemma SemicolonTestMissesMergedRecord(sim: (Record, Record) -> real)
    ensures MergeTriples([MergedAB], [PriorA, PriorB], sim, ContainsSemicolonElement) == Ok([])
    ensures MergeTriples([MergedAB], [PriorA, PriorB], sim, HasSeveralOrigins)
      == Ok([Triple(PriorA, PriorB, sim(PriorA, PriorB))])
  {
    assert [MergedAB][..0] == [];
    assert Marked(MergedAB);
    assert !ContainsSemicolonElement(MergedAB.origin);
    assert HasSeveralOrigins(MergedAB.origin);
    MergedABPairs(sim);
  }

  /** Some prior record lists origin e. */
  predicate Resolves(prior: seq<Record>, e: string)
  {
    exists p :: p in prior && e in p.origin
  }

  /**
   * With every origin resolvable in the prior snapshot, each pair of origins yields
   * exactly one comparison and no IndexError.
   */
  lemma {:induction false} PairTriplesCount(prior: seq<Record>, pairs: seq<(string, string)>,
                                            sim: (Record, Record) -> real)
    requires forall pr :: pr in pairs ==> Resolves(prior, pr.0) && Resolves(prior, pr.1)
    ensures PairTriples(prior, pairs, sim).Ok?
    ensures |PairTriples(prior, pairs, sim).value| == |pairs|
    decreases |pairs|
  {
    if |pairs| > 0 {
      PairTriplesCount(prior, pairs[..|pairs| - 1], sim);
      var (e1, e2) := pairs[|pairs| - 1];
      assert Resolves(prior, e1) && Resolves(prior, e2);
    }
  }

  /** Under the intended test a merged record of n resolvable origins gets n * (n - 1) / 2 comparisons. */
  lemma MergedRecordComparisons(prior: seq<Record>, r: Record, sim: (Record, Record) -> real)
    requires Marked(r) && HasSeveralOrigins(r.origin)
    requires forall o :: o in r.origin ==> Resolves(prior, o)
    ensures MergeTriples([r], prior, sim, HasSeveralOrigins).Ok?
    ensures |MergeTriples([r], prior, sim, HasSeveralOrigins).value| == |r.origin| * (|r.origin| - 1) / 2
  {
    var pairs := Pairs(r.origin);
    forall pr | pr in pairs
      ensures Resolves(prior, pr.0) && Resolves(prior, pr.1)
    {
      var i, j :| 0 <= i < j < |r.origin| && pr == (r.origin[i], r.origin[j]);
    }
    PairTriplesCount(prior, pairs, sim);
    assert [r][..0] == [];
  }

  // ---------------------------------------------------------------------------
  // Loading, scope and dispatch

  /**
   * load_changed_records: without a target commit every stored record is marked
   * changed; with one, the records the history reports as changed are used.
   */
  method LoadChangedRecords(target: Option<string>, store: seq<Record>, changedInTarget: seq<Record>)
    returns (records: seq<Record>)
    ensures target.Some? ==> records == changedInTarget
    ensures target.None? ==> (|records| == |store|
      && forall i :: 0 <= i < |store| ==>
        (Marked(records[i]) && records[i].fields[Marker] == "True"
         && records[i] == store[i].(fields := store[i].fields[Marker := "True"])))
  {
    if target.Some? {
      return changedInTarget;
    }
    records := [];
    var i := 0;
    while i < |store|
      invariant 0 <= i <= |store|
      invariant |records| == i
      invariant forall j {:trigger records[j]} :: 0 <= j < i ==> records[j] == store[j].(fields := store[j].fields[Marker := "True"])
    {
      records := records + [store[i].(fields := store[i].fields[Marker := "True"])];
      i := i + 1;
    }
  }

  /** The scope a commit message announces. */
  function ScopeOf(msg: string): (scope: string)
    ensures scope == "prepare" <==> Contains(msg, "colrev prep")
    ensures scope == "merge" <==> !Contains(msg, "colrev prep") && Contains(msg, "colrev dedupe")
    ensures scope == "unspecified" <==> !Contains(msg, "colrev prep") && !Contains(msg, "colrev dedupe")
  {
    if Contains(msg, "colrev prep") then "prepare"
    else if Contains(msg, "colrev dedupe") then "merge"
    else "unspecified"
  }

  /** The scope of the last log entry of the commit, or the unbound variable error. */
  function InferredScope(log: seq<LogEntry>, sha: string): (r: Result<string>)
    ensures r.Err? <==> forall j :: 0 <= j < |log| ==> log[j].sha != sha
    ensures r.Err? ==> r.error == UnboundLocalError("scope")
    ensures r.Ok? ==> exists j :: (0 <= j < |log| && log[j].sha == sha && r.value == ScopeOf(log[j].message)
      && forall k :: j < k < |log| ==> log[k].sha != sha)
    decreases |log|
  {
    if |log| == 0 then Err(UnboundLocalError("scope"))
    else if log[|log| - 1].sha == sha then Ok(ScopeOf(log[|log| - 1].message))
    else
      var r := InferredScope(log[..|log| - 1], sha);
      assert forall j :: 0 <= j < |log| - 1 ==> log[..|log| - 1][j] == log[j];
      r
  }

  /**
   * __set_scope_based_on_target_commit: the target argument is replaced by the last
   * commit's sha; the status.yaml history then decides the scope.
   */
  method SetScopeBasedOnTargetCommit(lastSha: string, log: seq<LogEntry>) returns (r: Result<string>)
    ensures r == InferredScope(log, lastSha)
  {
    var target := lastSha;
    var scope: Option<string> := None;
    var k := 0;
    while k < |log|
      invariant 0 <= k <= |log|
      invariant scope.None? ==> InferredScope(log[..k], target).Err?
      invariant scope.Some? ==> InferredScope(log[..k], target) == Ok(scope.value)
    {
      assert log[..k + 1][..k] == log[..k];
      if log[k].sha == target {
        scope := Some(ScopeOf(log[k].message));
      }
      k := k + 1;
    }
    assert log[..k] == log;
    if scope.None? {
      return Err(UnboundLocalError("scope"));
    }
    return Ok(scope.value);
  }

  function Trees(commits: seq<TreeEntry>): (r: seq<string>)
    ensures |r| == |commits| && forall i :: 0 <= i < |commits| ==> r[i] == commits[i].tree
  {
    seq(|commits|, i requires 0 <= i < |commits| => commits[i].tree)
  }

  /** get_commit_from_tree_hash: the first commit whose tree matches, or ParameterError with all trees. */
  method GetCommitFromTreeHash(commits: seq<TreeEntry>, treeHash: string) returns (r: Result<string>)
    ensures r.Ok? <==> exists i :: 0 <= i < |commits| && commits[i].tree == treeHash
    ensures r.Ok? ==> exists i :: (0 <= i < |commits| && commits[i].tree == treeHash
      && commits[i].sha == r.value && forall j :: 0 <= j < i ==> commits[j].tree != treeHash)
    ensures r.Err? ==> r.error == ParameterError(Trees(commits))
  {
    var validOptions: seq<string> := [];
    var i := 0;
    while i < |commits|
      invariant 0 <= i <= |commits|
      invariant validOptions == Trees(commits[..i])
      invariant forall j :: 0 <= j < i ==> commits[j].tree != treeHash
    {
      if commits[i].tree == treeHash {
        return Ok(commits[i].sha);
      }
      validOptions := validOptions + [commits[i].tree];
      i := i + 1;
    }
    assert commits[..i] == commits;
    return Err(ParameterError(validOptions));
  }

  /** The scope main dispatches on: inferred only for an empty target and "unspecified". */
  function EffectiveScope(scope: string, target: string, lastSha: string, log: seq<LogEntry>): Result<string>
  {
    if target == "" && scope == "unspecified" then InferredScope(log, lastSha) else Ok(scope)
  }

  /** Every marked record is unmarked after the preparation validation. */
  lemma AfterPreparationUnmarks(records: seq<Record>)
    ensures forall i :: 0 <= i < |records| ==> !Marked(AfterPreparation(records[i]))
  {
  }

  function AfterPreparationAll(records: seq<Record>): (r: seq<Record>)
    ensures |r| == |records| && forall i :: 0 <= i < |records| ==> r[i] == AfterPreparation(records[i])
  {
    seq(|records|, i requires 0 <= i < |records| => AfterPreparation(records[i]))
  }

  /**
   * main as written: properties gives []; "prepare" and "merge" run one validation; "all"
   * runs both on the same record dicts and returns the merge result; any other scope
   * leaves validation_details unbound.
   */
  method RunValidation(scope: string, properties: bool, target: string, changed: seq<Record>,
                       revlist: seq<Commit>, lastSha: string, log: seq<LogEntry>, sim: (Record, Record) -> real)
    returns (r: Result<seq<Triple>>)
    ensures properties ==> r == Ok([])
    ensures !properties && EffectiveScope(scope, target, lastSha, log).Err? ==>
      r == Err(EffectiveScope(scope, target, lastSha, log).error)
    ensures !properties && EffectiveScope(scope, target, lastSha, log).Ok? ==>
      var sc := EffectiveScope(scope, target, lastSha, log).value;
      && (sc == "prepare" ==> r == PreparationValidation(changed, revlist, target, sim))
      && (sc == "merge" ==> r == MergingValidation(changed, revlist, target, sim, ContainsSemicolonElement))
      && (sc == "all" ==> r == match PreparationValidation(changed, revlist, target, sim)
                              case Err(e) => Err(e)
                              case Ok(_) => MergingValidation(AfterPreparationAll(changed), revlist, target,
                                                              sim, ContainsSemicolonElement))
      && (sc != "prepare" && sc != "merge" && sc != "all" ==> r == Err(UnboundLocalError("validation_details")))
  {
    if properties {
      return Ok([]);
    }
    var sc := scope;
    if target == "" && scope == "unspecified" {
      var inferred := SetScopeBasedOnTargetCommit(lastSha, log);
      if inferred.Err? {
        return Err(inferred.error);
      }
      sc := inferred.value;
    }
    var records := new Record[|changed|](i requires 0 <= i < |changed| => changed[i]);
    assert records[..] == changed;
    var details: Option<seq<Triple>> := None;
    if sc == "prepare" || sc == "all" {
      var d := ValidatePreparationChanges(records, revlist, target, sim);
      if d.Err? {
        return Err(d.error);
      }
      details := Some(d.value);
      assert records[..] == AfterPreparationAll(changed);
    }
    if sc == "merge" || sc == "all" {
      var d := ValidateMergingChanges(records, revlist, target, sim, ContainsSemicolonElement);
      if d.Err? {
        return Err(d.error);
      }
      details := Some(d.value);
    }
    if details.None? {
      return Err(UnboundLocalError("validation_details"));
    }
    return Ok(details.value);
  }

  /** As written, scope "all" never reports anything: the preparation pass removed every marker. */
  lemma AllScopeReportsNothing(changed: seq<Record>, revlist: seq<Commit>, target: string,
                               sim: (Record, Record) -> real, isMerged: seq<string> -> bool)
    requires PreparationValidation(changed, revlist, target, sim).Ok?
    ensures MergingValidation(AfterPreparationAll(changed), revlist, target, sim, isMerged) == Ok([])
  {
    var prior := PriorSnapshot(revlist, target).value;
    MergeTriplesUnmarked(AfterPreparationAll(changed), prior, sim, isMerged);
    assert Below1([]) == [];
  }

  /**
   * main with scope "all" evidently meant to check the merges of the loaded records:
   * here the merge validation gets its own copy of them, with the intended merge test.
   */
  method RunValidationCorrected(scope: string, properties: bool, target: string, changed: seq<Record>,
                                revlist: seq<Commit>, lastSha: string, log: seq<LogEntry>,
                                sim: (Record, Record) -> real)
    returns (r: Result<seq<Triple>>)
    ensures properties ==> r == Ok([])
    ensures !properties && EffectiveScope(scope, target, lastSha, log).Err? ==>
      r == Err(EffectiveScope(scope, target, lastSha, log).error)
    ensures !properties && EffectiveScope(scope, target, lastSha, log).Ok? ==>
      var sc := EffectiveScope(scope, target, lastSha, log).value;
      && (sc == "prepare" ==> r == PreparationValidation(changed, revlist, target, sim))
      && (sc == "merge" ==> r == MergingValidation(changed, revlist, target, sim, HasSeveralOrigins))
      && (sc == "all" ==> r == match PreparationValidation(changed, revlist, target, sim)
                              case Err(e) => Err(e)
                              case Ok(_) => MergingValidation(changed, revlist, target, sim, HasSeveralOrigins))
      && (sc != "prepare" && sc != "merge" && sc != "all" ==> r == Err(UnboundLocalError("validation_details")))
  {
    if properties {
      return Ok([]);
    }
    var sc := scope;
    if target == "" && scope == "unspecified" {
      var inferred := SetScopeBasedOnTargetCommit(lastSha, log);
      if inferred.Err? {
        return Err(inferred.error);
      }
      sc := inferred.value;
    }
    var details: Option<seq<Triple>> := None;
    if sc == "prepare" || sc == "all" {
      var records := new Record[|changed|](i requires 0 <= i < |changed| => changed[i]);
      assert records[..] == changed;
      var d := ValidatePreparationChanges(records, revlist, target, sim);
      if d.Err? {
        return Err(d.error);
      }
      details := Some(d.value);
    }
    if sc == "merge" || sc == "all" {
      var records := new Record[|changed|](i requires 0 <= i < |changed| => changed[i]);
      assert records[..] == changed;
      var d := ValidateMergingChanges(records, revlist, target, sim, HasSeveralOrigins);
      if d.Err? {
        return Err(d.error);
      }
      details := Some(d.value);
    }
    if details.None? {
      return Err(UnboundLocalError("validation_details"));
    }
    return Ok(details.value);
  }
}
