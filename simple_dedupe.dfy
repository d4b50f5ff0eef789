/**
 * Simple (threshold based) duplicate identification: each record that waits in
 * md_prepared is compared with every record before it in the queue, and the most
 * similar one decides between no_duplicate, potential_duplicate and duplicate.
 * A reviewer then labels the potential duplicates.
 */
module SimpleDedupe {
  import opened Common

  /** merging_non_dup_threshold and merging_dup_threshold */
  datatype Settings = Settings(nonDupThreshold: real, dupThreshold: real)

  const DefaultSettings := Settings(0.7, 0.95)

  datatype Decision = NoDuplicate | PotentialDuplicate | Duplicate

  /** One entry of the batch results: ID1 is the queued record, ID2 its best match or "NA". */
  datatype MergeResult = MergeResult(id1: string, id2: string, similarity: real, decision: Decision)

  /** What __get_dedupe_data hands on: the queue and where the records to check start. */
  datatype DedupeData = DedupeData(nrTasks: nat, queue: seq<string>, itemsStart: nat)

  /** A record of the queue with the rows it is compared against (its own row last). */
  datatype BatchItem = BatchItem(record: string, rows: seq<Record>)

  /** One row of the similarity table: a record ID and its score against the last row. */
  datatype Scored = Scored(id: string, similarity: real)

  /** The constructor accepts the settings only when both thresholds lie in [0, 1]. */
  function Init(s: Settings): (r: Result<Settings>)
    ensures r.Ok? <==> 0.0 <= s.nonDupThreshold <= 1.0 && 0.0 <= s.dupThreshold <= 1.0
    ensures r.Ok? ==> r.value == s
    ensures r.Err? ==> r.error == AssertionError
  {
    if 0.0 <= s.nonDupThreshold && s.nonDupThreshold <= 1.0
       && 0.0 <= s.dupThreshold && s.dupThreshold <= 1.0
    then Ok(s)
    else Err(AssertionError)
  }

  /** Nothing requires the non-duplicate threshold to stay below the duplicate threshold. */
  lemma InitAcceptsInvertedThresholds()
    ensures Init(Settings(0.9, 0.5)).Ok?
  {
  }

  // ---------------------------------------------------------------------------
  // The queue


  /** A record waiting for deduplication. */
  predicate IsPending(status: string)
  {
    status == MdPrepared
  }

  /** A record that has gone through deduplication already (or is further on). */
  predicate IsProcessed(status: string)
  {
    status != MdImported && status != MdPrepared && status != MdNeedsManualPreparation
  }

  /** The IDs of the records whose status satisfies keep, in store order. */
  function IdsWhere(headers: seq<Record>, keep: string -> bool): (r: seq<string>)
    ensures |r| <= |headers|
    ensures forall i :: 0 <= i < |r| ==>
      exists j :: 0 <= j < |headers| && Id(headers[j]) == r[i] && keep(Status(headers[j]))
    ensures forall j :: 0 <= j < |headers| && keep(Status(headers[j])) ==> Id(headers[j]) in r
  {
    if |headers| == 0 then []
    else
      var rest := IdsWhere(headers[1..], keep);
      assert forall j :: 1 <= j < |headers| ==> headers[j] == headers[1..][j - 1];
      if keep(Status(headers[0])) then [Id(headers[0])] + rest else rest
  }

  /**
   * The KeyError a list comprehension over the headers raises: the first header without
   * colrev_status, or the first one whose ID is read (its status passes keep) but missing.
   */
  function ScanError(headers: seq<Record>, keep: string -> bool): (r: Option<string>)
    ensures r.None? <==> forall i :: 0 <= i < |headers| ==>
      "colrev_status" in headers[i].fields && (keep(Status(headers[i])) ==> "ID" in headers[i].fields)
    ensures r.Some? ==> r.value == "colrev_status" || r.value == "ID"
  {
    if |headers| == 0 then None
    else if "colrev_status" !in headers[0].fields then Some("colrev_status")
    else if keep(Status(headers[0])) && "ID" !in headers[0].fields then Some("ID")
    else
      assert forall i :: 1 <= i < |headers| ==> headers[i] == headers[1..][i - 1];
      ScanError(headers[1..], keep)
  }

  /** A header the two comprehensions of __get_dedupe_data cannot read. */
  predicate Unreadable(h: Record)
  {
    "colrev_status" !in h.fields
    || ((IsPending(Status(h)) || IsProcessed(Status(h))) && "ID" !in h.fields)
  }

  /** Both comprehensions get through exactly when every header is readable. */
  lemma ScansFindUnreadable(headers: seq<Record>)
    ensures (ScanError(headers, IsPending).None? && ScanError(headers, IsProcessed).None?)
      <==> forall i :: 0 <= i < |headers| ==> !Unreadable(headers[i])
  {
  }

  function PendingIds(headers: seq<Record>): seq<string>
  {
    IdsWhere(headers, IsPending)
  }

  function ProcessedIds(headers: seq<Record>): seq<string>
  {
    IdsWhere(headers, IsProcessed)
  }

  /**
   * __get_dedupe_data: the processed records form the context, the md_prepared
   * ones are the tasks; more than 20 tasks need force mode. A header the
   * comprehensions cannot read raises KeyError first.
   */
  function GetDedupeData(headers: seq<Record>, forceMode: bool): (r: Result<DedupeData>)
    ensures r.Err? && r.error.KeyError? <==> exists i :: 0 <= i < |headers| && Unreadable(headers[i])
    ensures r.Err? ==> r.error.KeyError? || r.error.CoLRevException?
    ensures r.Ok? <==>
      (forall i :: 0 <= i < |headers| ==> !Unreadable(headers[i])) && (|PendingIds(headers)| <= 20 || forceMode)
    ensures r.Ok? ==>
      && r.value.queue == ProcessedIds(headers) + PendingIds(headers)
      && r.value.itemsStart == |ProcessedIds(headers)|
      && r.value.nrTasks == |PendingIds(headers)|
      && r.value.itemsStart + r.value.nrTasks == |r.value.queue|
  {
    ScansFindUnreadable(headers);
    match ScanError(headers, IsPending)
    case Some(key) => Err(KeyError(key))
    case None =>
      match ScanError(headers, IsProcessed)
      case Some(key) => Err(KeyError(key))
      case None =>
        var pending := PendingIds(headers);
        var processed := ProcessedIds(headers);
        if |pending| > 20 && !forceMode then
          Err(CoLRevException("To use simple duplicate identification, use colrev dedupe --force"))
        else
          Ok(DedupeData(|pending|, processed + pending, |processed|))
  }

  /**
   * Records waiting in md_imported, md_prepared or md_needs_manual_preparation never
   * enter the context of already processed records, and every task is md_prepared.
   */
  lemma {:induction false} QueueSplitsByStatus(headers: seq<Record>, forceMode: bool)
    requires DistinctIds(headers)
    requires GetDedupeData(headers, forceMode).Ok?
    ensures var d := GetDedupeData(headers, forceMode).value;
      && (forall j :: 0 <= j < |headers| && !IsProcessed(Status(headers[j])) ==>
            Id(headers[j]) !in d.queue[..d.itemsStart])
      && (forall j :: 0 <= j < |headers| && IsPending(Status(headers[j])) ==>
            Id(headers[j]) in d.queue[d.itemsStart..])
      && (forall i :: d.itemsStart <= i < |d.queue| ==>
            exists j :: 0 <= j < |headers| && Id(headers[j]) == d.queue[i] && IsPending(Status(headers[j])))
  {
    var d := GetDedupeData(headers, forceMode).value;
    var processed := ProcessedIds(headers);
    var pending := PendingIds(headers);
    assert d.queue[..d.itemsStart] == processed;
    assert d.queue[d.itemsStart..] == pending;
    forall i | d.itemsStart <= i < |d.queue|
      ensures exists j :: 0 <= j < |headers| && Id(headers[j]) == d.queue[i] && IsPending(Status(headers[j]))
    {
      assert d.queue[i] == pending[i - d.itemsStart];
    }
  }

  // ---------------------------------------------------------------------------
  // The batch

  /** The stored records whose ID is queued, in store order (not in queue order). */
  function QueueRows(store: seq<Record>, queue: seq<string>): (r: seq<Record>)
    ensures |r| <= |store|
    ensures forall i :: 0 <= i < |r| ==> r[i] in store && Id(r[i]) in queue
    ensures forall j :: 0 <= j < |store| && Id(store[j]) in queue ==> store[j] in r
  {
    if |store| == 0 then []
    else
      var rest := QueueRows(store[1..], queue);
      assert forall j :: 1 <= j < |store| ==> store[j] == store[1..][j - 1];
      if Id(store[0]) in queue then [store[0]] + rest else rest
  }

  /** DataFrame.iloc[:n]: the first n rows, or all of them when there are fewer. */
  function Prefix(rows: seq<Record>, n: nat): (r: seq<Record>)
    ensures |r| == if n <= |rows| then n else |rows|
    ensures r <= rows
  {
    if n <= |rows| then rows[..n] else rows
  }

  /** The batch items for a table of rows: item k is task itemsStart + k with the rows up to it. */
  function Batch(rows: seq<Record>, data: DedupeData): seq<BatchItem>
  {
    var n := if data.itemsStart <= |data.queue| then |data.queue| - data.itemsStart else 0;
    seq(n, k requires 0 <= k < n =>
      BatchItem(data.queue[data.itemsStart + k], Prefix(rows, data.itemsStart + k + 1)))
  }

  /** The loop of __get_record_batch over the tasks of the queue. */
  method BuildBatch(rows: seq<Record>, data: DedupeData) returns (batch: seq<BatchItem>)
    ensures |batch| == if data.itemsStart <= |data.queue| then |data.queue| - data.itemsStart else 0
    ensures forall k :: 0 <= k < |batch| ==>
      && batch[k].record == data.queue[data.itemsStart + k]
      && batch[k].rows == Prefix(rows, data.itemsStart + k + 1)
    ensures batch == Batch(rows, data)
  {
    batch := [];
    var i := data.itemsStart;
    while i < |data.queue|
      invariant data.itemsStart <= i
      invariant i <= |data.queue| || i == data.itemsStart
      invariant |batch| == i - data.itemsStart
      invariant forall k :: 0 <= k < |batch| ==>
        && batch[k].record == data.queue[data.itemsStart + k]
        && batch[k].rows == Prefix(rows, data.itemsStart + k + 1)
    {
      batch := batch + [BatchItem(data.queue[i], Prefix(rows, i + 1))];
      i := i + 1;
    }
  }

  /**
   * __get_record_batch as written: the table holds the queued records in store order
   * (after prep, which stands for prep_records), while the items follow queue order.
   */
  method GetRecordBatch(store: seq<Record>, data: DedupeData, prep: seq<Record> -> seq<Record>)
    returns (batch: seq<BatchItem>)
    ensures batch == Batch(prep(QueueRows(store, data.queue)), data)
  {
    batch := BuildBatch(prep(QueueRows(store, data.queue)), data);
  }

  /** A record waiting for deduplication whose ID sorts first in the store. */
  const PendingA := Record(map["ID" := "A", "colrev_status" := MdPrepared], ["x.bib/1"], map[])

  /** A processed record stored after it. */
  const ProcessedB := Record(map["ID" := "B", "colrev_status" := MdProcessed], ["y.bib/1"], map[])

  lemma ExampleQueue()
    ensures GetDedupeData([PendingA, ProcessedB], false) == Ok(DedupeData(1, ["B", "A"], 1))
  {
    var a, b := PendingA, ProcessedB;
    assert Id(a) == "A" && Status(a) == MdPrepared && "colrev_status" in a.fields && "ID" in a.fields;
    assert Id(b) == "B" && Status(b) == MdProcessed && "colrev_status" in b.fields && "ID" in b.fields;
    var pending := IsPending;
    assert [a, b][1..] == [b];
    assert [b][1..] == [];
    assert IdsWhere([b], IsProcessed) == ["B"] + IdsWhere([], IsProcessed);
    assert IdsWhere([a, b], IsProcessed) == IdsWhere([b], IsProcessed);
    assert IdsWhere([b], pending) == IdsWhere([], pending);
    assert IdsWhere([a, b], pending) == ["A"] + IdsWhere([b], pending);
    assert ProcessedIds([a, b]) == ["B"];
    assert PendingIds([a, b]) == ["A"];
    assert ["B"] + ["A"] == ["B", "A"];
  }

  lemma ExampleQueueRows()
    ensures QueueRows([PendingA, ProcessedB], ["B", "A"]) == [PendingA, ProcessedB]
  {
    var a, b := PendingA, ProcessedB;
    assert Id(a) == "A" && Id(b) == "B";
    assert [a, b][1..] == [b];
    assert [b][1..] == [];
    assert QueueRows([b], ["B", "A"]) == [b] + QueueRows([], ["B", "A"]);
    assert QueueRows([a, b], ["B", "A"]) == [a] + QueueRows([b], ["B", "A"]);
  }

  /**
   * As written, a task whose ID sorts before a processed record in the store is not the
   * last row of its own item, so it is scored against the wrong record.
   */
  lemma StoreOrderBatchMisplacesRecord()
    ensures var d := DedupeData(1, ["B", "A"], 1);
      && GetDedupeData([PendingA, ProcessedB], false) == Ok(d)
      && Batch(QueueRows([PendingA, ProcessedB], d.queue), d) == [BatchItem("A", [PendingA, ProcessedB])]
      && Id(ProcessedB) != "A"
  {
    ExampleQueue();
    ExampleQueueRows();
    ExampleBatch(PendingA, ProcessedB);
  }

  /** Two stored rows and one task: the single item takes both rows. */
  lemma ExampleBatch(a: Record, b: Record)
    ensures Batch([a, b], DedupeData(1, ["B", "A"], 1)) == [BatchItem("A", [a, b])]
  {
    var d := DedupeData(1, ["B", "A"], 1);
    var rows := [a, b];
    BatchItemAt(rows, d, 0);
    assert rows[..2] == rows;
    assert |Batch(rows, d)| == 1;
  }

  /** The queued records in queue order. */
  /** Every queued ID names a stored record. */
  predicate AllStored(store: seq<Record>, queue: seq<string>)
  {
    forall q :: q in queue ==> q in Ids(store)
  }

  function RowsInQueueOrder(store: seq<Record>, queue: seq<string>): (r: seq<Record>)
    ensures AllStored(store, queue) ==>
      |r| == |queue| && forall i :: 0 <= i < |r| ==> Id(r[i]) == queue[i]
  {
    if |queue| == 0 then []
    else
      var rest := RowsInQueueOrder(store, queue[1..]);
      assert forall q :: q in queue[1..] ==> q in queue;
      if queue[0] in Ids(store) then
        FindByIdPresent(store, queue[0]);
        [FindById(store, queue[0]).value] + rest
      else rest
  }

  /** __get_record_batch with the table in queue order, as the comparison needs. */
  method GetRecordBatchInQueueOrder(store: seq<Record>, data: DedupeData, prep: seq<Record> -> seq<Record>)
    returns (batch: seq<BatchItem>)
    ensures batch == Batch(prep(RowsInQueueOrder(store, data.queue)), data)
  {
    batch := BuildBatch(prep(RowsInQueueOrder(store, data.queue)), data);
  }

  /** The k-th batch item holds the k-th task's ID and the rows up to and including its own. */
  lemma BatchItemAt(rows: seq<Record>, data: DedupeData, k: nat)
    requires data.itemsStart + k < |data.queue| && data.itemsStart + k < |rows|
    ensures k < |Batch(rows, data)|
    ensures Batch(rows, data)[k]
      == BatchItem(data.queue[data.itemsStart + k], rows[..data.itemsStart + k + 1])
  {
  }

  /** In queue order, every item's last row is the item's own record, preceded by the earlier queue entries. */
  lemma QueueOrderBatchEndsWithOwnRecord(store: seq<Record>, data: DedupeData, k: nat)
    requires AllStored(store, data.queue)
    requires data.itemsStart <= |data.queue|
    requires k < |data.queue| - data.itemsStart
    ensures var item := Batch(RowsInQueueOrder(store, data.queue), data)[k];
      && |item.rows| == data.itemsStart + k + 1
      && Id(item.rows[|item.rows| - 1]) == item.record
      && forall j :: 0 <= j < |item.rows| ==> Id(item.rows[j]) == data.queue[j]
  {
    var rows := RowsInQueueOrder(store, data.queue);
    BatchItemAt(rows, data, k);
  }

  /** For well-formed dedupe data there is exactly one batch item per task. */
  lemma BatchCoversTasks(headers: seq<Record>, forceMode: bool, batchSize: nat)
    requires GetDedupeData(headers, forceMode).Ok?
    requires var d := GetDedupeData(headers, forceMode).value;
      batchSize == if d.itemsStart <= |d.queue| then |d.queue| - d.itemsStart else 0
    ensures batchSize == GetDedupeData(headers, forceMode).value.nrTasks
  {
  }

  // ---------------------------------------------------------------------------
  // Similarities and the decision

  /** The similarity table of the rows against the last row (ID and score per row). */
  function ScoreTable(rows: seq<Record>, score: (Record, Record) -> real): seq<Scored>
    requires |rows| > 0
  {
    seq(|rows|, j requires 0 <= j < |rows| => Scored(Id(rows[j]), score(rows[j], rows[|rows| - 1])))
  }

  /** __calculate_similarities_record: scores every row, the last one included, against the last row. */
  method CalculateSimilaritiesRecord(rows: seq<Record>, score: (Record, Record) -> real)
    returns (table: seq<Scored>)
    requires |rows| > 0
    ensures |table| == |rows|
    ensures forall j :: 0 <= j < |rows| ==>
      table[j] == Scored(Id(rows[j]), score(rows[j], rows[|rows| - 1]))
    ensures table == ScoreTable(rows, score)
  {
    var last := rows[|rows| - 1];
    table := [];
    var i := 0;
    while i < |rows|
      invariant 0 <= i <= |rows|
      invariant |table| == i
      invariant forall j :: 0 <= j < i ==> table[j] == Scored(Id(rows[j]), score(rows[j], last))
    {
      table := table + [Scored(Id(rows[i]), score(rows[i], last))];
      i := i + 1;
    }
  }

  /** Series.idxmax: the first position holding the largest similarity. */
  function IdxMax(t: seq<Scored>): (k: nat)
    requires |t| > 0
    ensures k < |t|
    ensures forall j :: 0 <= j < |t| ==> t[j].similarity <= t[k].similarity
    ensures forall j :: 0 <= j < k ==> t[j].similarity < t[k].similarity
  {
    if |t| == 1 then 0
    else
      var k := IdxMax(t[..|t| - 1]);
      assert forall j :: 0 <= j < |t| - 1 ==> t[..|t| - 1][j] == t[j];
      if t[|t| - 1].similarity > t[k].similarity then |t| - 1 else k
  }

  /** The decision band a maximum similarity falls in. */
  function Band(s: Settings, m: real): (d: Decision)
    ensures d == NoDuplicate <==> m <= s.nonDupThreshold
    ensures d == PotentialDuplicate <==> s.nonDupThreshold < m < s.dupThreshold
  {
    if m <= s.nonDupThreshold then NoDuplicate
    else if s.nonDupThreshold < m < s.dupThreshold then PotentialDuplicate
    else Duplicate
  }

  function Rank(d: Decision): nat
  {
    match d
    case NoDuplicate => 0
    case PotentialDuplicate => 1
    case Duplicate => 2
  }

  /** A higher maximum similarity never yields a weaker decision, whatever the thresholds. */
  lemma BandMonotone(s: Settings, m1: real, m2: real)
    requires m1 <= m2
    ensures Rank(Band(s, m1)) <= Rank(Band(s, m2))
  {
  }

  /** With inverted thresholds no pair is ever a potential duplicate. */
  lemma InvertedThresholdsNeverPotential(s: Settings, m: real)
    requires s.dupThreshold <= s.nonDupThreshold
    ensures Band(s, m) != PotentialDuplicate
  {
  }

  /**
   * append_merges: with fewer than two rows the record is propagated as a non-duplicate;
   * otherwise the largest similarity of the earlier rows against the last row decides,
   * and ID2 names the first row reaching it.
   */
  function AppendMerges(s: Settings, item: BatchItem, score: (Record, Record) -> real): (r: MergeResult)
    ensures r.id1 == item.record
    ensures |item.rows| < 2 ==> r == MergeResult(item.record, "NA", 1.0, NoDuplicate)
    ensures |item.rows| >= 2 ==>
      var last := item.rows[|item.rows| - 1];
      && (forall j :: 0 <= j < |item.rows| - 1 ==> score(item.rows[j], last) <= r.similarity)
      && (exists j :: 0 <= j < |item.rows| - 1 && score(item.rows[j], last) == r.similarity)
      && (r.decision == NoDuplicate <==> r.similarity <= s.nonDupThreshold)
      && (r.decision == PotentialDuplicate <==> s.nonDupThreshold < r.similarity < s.dupThreshold)
    ensures r.decision == NoDuplicate ==> r.id2 == "NA"
    ensures r.decision != NoDuplicate ==>
      var last := item.rows[|item.rows| - 1];
      exists k :: 0 <= k < |item.rows| - 1 && r.id2 == Id(item.rows[k])
        && score(item.rows[k], last) == r.similarity
        && forall j :: 0 <= j < k ==> score(item.rows[j], last) < r.similarity
  {
    if |item.rows| < 2 then MergeResult(item.record, "NA", 1.0, NoDuplicate)
    else
      var table := ScoreTable(item.rows, score)[..|item.rows| - 1];
      var last := item.rows[|item.rows| - 1];
      assert forall j :: 0 <= j < |table| ==>
        table[j].similarity == score(item.rows[j], last) && table[j].id == Id(item.rows[j]);
      var k := IdxMax(table);
      var m := table[k].similarity;
      var d := Band(s, m);
      MergeResult(item.record, if d == NoDuplicate then "NA" else table[k].id, m, d)
  }

  // ---------------------------------------------------------------------------
  // Manual labelling of the potential duplicates

  function Potentials(results: seq<MergeResult>): (r: seq<MergeResult>)
    ensures |r| <= |results|
    ensures forall i :: 0 <= i < |r| ==> r[i] in results && r[i].decision == PotentialDuplicate
  {
    if |results| == 0 then []
    else if results[0].decision == PotentialDuplicate then [results[0]] + Potentials(results[1..])
    else Potentials(results[1..])
  }

  /** No potential duplicate is left out of the ones shown to the reviewer. */
  lemma {:induction false} PotentialsComplete(results: seq<MergeResult>, x: MergeResult)
    requires x in results && x.decision == PotentialDuplicate
    ensures x in Potentials(results)
    decreases |results|
  {
    if results[0] != x {
      assert x in results[1..];
      PotentialsComplete(results[1..], x);
    }
  }

  /** How many of the answers equal a. */
  function CountAnswer(answers: seq<string>, a: string): (n: nat)
    ensures n <= |answers|
  {
    if |answers| == 0 then 0
    else (if answers[0] == a then 1 else 0) + CountAnswer(answers[1..], a)
  }

  lemma {:induction false} CountAnswerAppend(answers: seq<string>, x: string, a: string)
    ensures CountAnswer(answers + [x], a) == CountAnswer(answers, a) + (if x == a then 1 else 0)
    decreases |answers|
  {
    if |answers| == 0 {
      assert answers + [x] == [x];
    } else {
      assert (answers + [x])[1..] == answers[1..] + [x];
      CountAnswerAppend(answers[1..], x, a);
    }
  }

  /** Taking one more answer adds one to the count of its own value only. */
  lemma CountAnswerStep(answers: seq<string>, i: nat)
    requires i < |answers|
    ensures CountAnswer(answers[..i + 1], "y") == CountAnswer(answers[..i], "y") + (if answers[i] == "y" then 1 else 0)
    ensures CountAnswer(answers[..i + 1], "n") == CountAnswer(answers[..i], "n") + (if answers[i] == "n" then 1 else 0)
  {
    assert answers[..i + 1] == answers[..i] + [answers[i]];
    CountAnswerAppend(answers[..i], answers[i], "y");
    CountAnswerAppend(answers[..i], answers[i], "n");
  }

  /** "y" and "n" never both count the same answer. */
  lemma {:induction false} CountYesNoBound(answers: seq<string>)
    ensures CountAnswer(answers, "y") + CountAnswer(answers, "n") <= |answers|
    decreases |answers|
  {
    if |answers| > 0 {
      CountYesNoBound(answers[1..]);
    }
  }

  /** The decision the reviewer's answer gives a potential duplicate. */
  function Labelled(answer: string): Decision
  {
    if answer == "y" then Duplicate
    else if answer == "n" then NoDuplicate
    else PotentialDuplicate
  }

  /** Whether the reloaded records hold one with this ID, so that its row can be looked up. */
  predicate Stored(reloaded: seq<Record>, id: string)
  {
    FindById(reloaded, id).Some?
  }

  /** The index of the first pair with a record the reloaded store no longer holds (|pairs| if none). */
  function FirstUnstored(pairs: seq<MergeResult>, reloaded: seq<Record>): (k: nat)
    ensures k <= |pairs|
    ensures forall j :: 0 <= j < k ==> Stored(reloaded, pairs[j].id1) && Stored(reloaded, pairs[j].id2)
    ensures k < |pairs| ==> !Stored(reloaded, pairs[k].id1) || !Stored(reloaded, pairs[k].id2)
  {
    if |pairs| == 0 then 0
    else if !Stored(reloaded, pairs[0].id1) || !Stored(reloaded, pairs[0].id2) then 0
    else 1 + FirstUnstored(pairs[1..], reloaded)
  }

  /** The relabelled potential duplicates with the numbers of "y" and "n" answers. */
  datatype Labelling = Labelling(labelled: seq<MergeResult>, nMatch: nat, nDistinct: nat)

  /**
   * What the labelling loop of __process_potential_duplicates gives for these pairs, reloaded
   * records and answers. Pair k is looked up first (rec1.to_dict("records")[0] raises
   * IndexError when an ID has no row) and only then answered (the input raises EOFError when
   * the answers have run out). When every pair is found and answered, each takes the
   * decision of its own answer and the counts are those of the "y" and "n" answers.
   */
  predicate LabelsAnswers(pairs: seq<MergeResult>, reloaded: seq<Record>, answers: seq<string>,
                          r: Result<Labelling>)
  {
    var k := FirstUnstored(pairs, reloaded);
    && (k < |pairs| && k <= |answers| ==> r == Err(IndexError))
    && (|answers| < |pairs| && |answers| < k ==> r == Err(EOFError))
    && (k == |pairs| && |pairs| <= |answers| ==>
          && r.Ok?
          && |r.value.labelled| == |pairs|
          && (forall j :: 0 <= j < |pairs| ==>
                r.value.labelled[j] == pairs[j].(decision := Labelled(answers[j])))
          && r.value.nMatch == CountAnswer(answers[..|pairs|], "y")
          && r.value.nDistinct == CountAnswer(answers[..|pairs|], "n")
          && r.value.nMatch + r.value.nDistinct <= |pairs|)
  }

  /** A pair whose records are both found lies before the first one with a missing record. */
  lemma FoundPairPassed(pairs: seq<MergeResult>, reloaded: seq<Record>, i: nat)
    requires i < |pairs| && i <= FirstUnstored(pairs, reloaded)
    requires Stored(reloaded, pairs[i].id1) && Stored(reloaded, pairs[i].id2)
    ensures i + 1 <= FirstUnstored(pairs, reloaded)
  {
  }

  /** The labelling stops with IndexError at the first pair with a record that has no row. */
  lemma LabelsAtMissingPair(pairs: seq<MergeResult>, reloaded: seq<Record>, answers: seq<string>, i: nat)
    requires i < |pairs| && i <= |answers| && i <= FirstUnstored(pairs, reloaded)
    requires !Stored(reloaded, pairs[i].id1) || !Stored(reloaded, pairs[i].id2)
    ensures LabelsAnswers(pairs, reloaded, answers, Err(IndexError))
  {
    assert FirstUnstored(pairs, reloaded) == i;
  }

  /** The labelling stops with EOFError at the first pair found but left without an answer. */
  lemma LabelsAtMissingAnswer(pairs: seq<MergeResult>, reloaded: seq<Record>, answers: seq<string>, i: nat)
    requires i < |pairs| && i == |answers| && i <= FirstUnstored(pairs, reloaded)
    requires Stored(reloaded, pairs[i].id1) && Stored(reloaded, pairs[i].id2)
    ensures LabelsAnswers(pairs, reloaded, answers, Err(EOFError))
  {
    FoundPairPassed(pairs, reloaded, i);
  }

  /** The body of the labelling loop for one pair and its answer. */
  method LabelPair(p: MergeResult, userInput: string, nMatch: nat, nDistinct: nat)
    returns (q: MergeResult, nMatch': nat, nDistinct': nat)
    requires p.decision == PotentialDuplicate
    ensures q == p.(decision := Labelled(userInput))
    ensures nMatch' == nMatch + (if userInput == "y" then 1 else 0)
    ensures nDistinct' == nDistinct + (if userInput == "n" then 1 else 0)
  {
    q, nMatch', nDistinct' := p, nMatch, nDistinct;
    if userInput == "y" {
      q := q.(decision := Duplicate);
      nMatch' := nMatch' + 1;
    }
    if userInput == "n" {
      assert userInput != "y" by { assert userInput[0] != "y"[0]; }
      q := q.(decision := NoDuplicate);
      nDistinct' := nDistinct' + 1;
    }
  }

  /** The loop of __process_potential_duplicates over the potential duplicates. */
  method LabelPairs(pairs: seq<MergeResult>, reloaded: seq<Record>, answers: seq<string>)
    returns (r: Result<Labelling>)
    requires forall k :: 0 <= k < |pairs| ==> pairs[k].decision == PotentialDuplicate
    ensures LabelsAnswers(pairs, reloaded, answers, r)
  {
    var labelled := [];
    var nMatch, nDistinct := 0, 0;
    var i := 0;
    while i < |pairs|
      invariant 0 <= i <= |pairs|
      invariant i <= |answers|
      invariant i <= FirstUnstored(pairs, reloaded)
      invariant |labelled| == i
      invariant forall k :: 0 <= k < i ==> labelled[k] == pairs[k].(decision := Labelled(answers[k]))
      invariant nMatch == CountAnswer(answers[..i], "y")
      invariant nDistinct == CountAnswer(answers[..i], "n")
    {
      var p := pairs[i];
      if !Stored(reloaded, p.id1) || !Stored(reloaded, p.id2) {
        LabelsAtMissingPair(pairs, reloaded, answers, i);
        return Err(IndexError);
      }
      if i >= |answers| {
        LabelsAtMissingAnswer(pairs, reloaded, answers, i);
        return Err(EOFError);
      }
      p, nMatch, nDistinct := LabelPair(p, answers[i], nMatch, nDistinct);
      labelled := labelled + [p];
      CountAnswerStep(answers, i);
      FoundPairPassed(pairs, reloaded, i);
      i := i + 1;
    }
    CountYesNoBound(answers[..i]);
    return Ok(Labelling(labelled, nMatch, nDistinct));
  }

  /**
   * __process_potential_duplicates: every potential duplicate is looked up in the reloaded
   * records and shown to the reviewer in turn; "y" makes it a duplicate, "n" a non-duplicate,
   * any other answer leaves it. reloaded stands for the records load_records_dict returns
   * (after prep_records); answers for what the console input returns, in order.
   */
  method ProcessPotentialDuplicates(results: seq<MergeResult>, reloaded: seq<Record>, answers: seq<string>)
    returns (r: Result<Labelling>)
    ensures LabelsAnswers(Potentials(results), reloaded, answers, r)
  {
    r := LabelPairs(Potentials(results), reloaded, answers);
  }

  /** A pair whose record is missing from the reloaded store stops the labelling with IndexError, answers or not. */
  lemma MissingRecordRaisesIndexError(pairs: seq<MergeResult>, reloaded: seq<Record>, answers: seq<string>,
                                      r: Result<Labelling>, j: nat)
    requires LabelsAnswers(pairs, reloaded, answers, r)
    requires j < |pairs| && FindById(reloaded, pairs[j].id1).None?
    requires j <= |answers|
    ensures r == Err(IndexError)
  {
    assert !Stored(reloaded, pairs[j].id1);
  }

  // ---------------------------------------------------------------------------
  // The whole run

  /** The results of deciding each batch item in turn. */
  function Decided(s: Settings, batch: seq<BatchItem>, score: (Record, Record) -> real): (r: seq<MergeResult>)
    ensures |r| == |batch|
  {
    seq(|batch|, k requires 0 <= k < |batch| => AppendMerges(s, batch[k], score))
  }

  /** The loop of run_dedupe that decides every batch item in turn. */
  method DecideBatch(s: Settings, batch: seq<BatchItem>, score: (Record, Record) -> real)
    returns (results: seq<MergeResult>)
    ensures |results| == |batch|
    ensures forall k :: 0 <= k < |batch| ==> results[k] == AppendMerges(s, batch[k], score)
  {
    results := [];
    var i := 0;
    while i < |batch|
      invariant 0 <= i <= |batch|
      invariant |results| == i
      invariant forall k :: 0 <= k < i ==> results[k] == AppendMerges(s, batch[k], score)
    {
      results := results + [AppendMerges(s, batch[i], score)];
      i := i + 1;
    }
  }

  datatype DedupeOutcome = DedupeOutcome(batchResults: seq<MergeResult>, labelling: Labelling)

  /**
   * What run_dedupe gives for a batch: the batch results are those of deciding each item,
   * and the labelling is that of __process_potential_duplicates over them.
   */
  predicate RunsBatch(s: Settings, batch: seq<BatchItem>, score: (Record, Record) -> real,
                      reloaded: seq<Record>, answers: seq<string>, r: Result<DedupeOutcome>)
  {
    var results := Decided(s, batch, score);
    && (r.Ok? ==> r.value.batchResults == results && LabelsAnswers(Potentials(results), reloaded, answers, Ok(r.value.labelling)))
    && (r.Err? ==> LabelsAnswers(Potentials(results), reloaded, answers, Err(r.error)))
  }

  /** The part of run_dedupe after the batch is built: decide every item, then label the potential duplicates. */
  method DecideAndLabel(s: Settings, batch: seq<BatchItem>, score: (Record, Record) -> real,
                        reloaded: seq<Record>, answers: seq<string>)
    returns (r: Result<DedupeOutcome>)
    ensures RunsBatch(s, batch, score, reloaded, answers, r)
  {
    var results := DecideBatch(s, batch, score);
    assert results == Decided(s, batch, score);
    var labelling := ProcessPotentialDuplicates(results, reloaded, answers);
    if labelling.Err? {
      return Err(labelling.error);
    }
    return Ok(DedupeOutcome(results, labelling.value));
  }

  /**
   * run_dedupe as written: build the queue and the batch (rows in store order), decide
   * every item, then label the potential duplicates against the reloaded records.
   * reloaded stands for the store after apply_merges; the merges themselves, the commits
   * and the display of the pairs are not part of the model.
   */
  method RunDedupe(headers: seq<Record>, store: seq<Record>, forceMode: bool, s: Settings,
                   score: (Record, Record) -> real, prep: seq<Record> -> seq<Record>,
                   reloaded: seq<Record>, answers: seq<string>)
    returns (r: Result<DedupeOutcome>)
    ensures GetDedupeData(headers, forceMode).Err? ==> r == Err(GetDedupeData(headers, forceMode).error)
    ensures GetDedupeData(headers, forceMode).Ok? ==>
      var data := GetDedupeData(headers, forceMode).value;
      RunsBatch(s, Batch(prep(QueueRows(store, data.queue)), data), score, reloaded, answers, r)
    ensures r.Ok? ==> |r.value.batchResults| == GetDedupeData(headers, forceMode).value.nrTasks
  {
    var data := GetDedupeData(headers, forceMode);
    if data.Err? {
      return Err(data.error);
    }
    var batch := GetRecordBatch(store, data.value, prep);
    r := DecideAndLabel(s, batch, score, reloaded, answers);
  }

  /** run_dedupe with the batch rows in queue order, so that each batch ends with its own record. */
  method RunDedupeCorrected(headers: seq<Record>, store: seq<Record>, forceMode: bool, s: Settings,
                            score: (Record, Record) -> real, prep: seq<Record> -> seq<Record>,
                            reloaded: seq<Record>, answers: seq<string>)
    returns (r: Result<DedupeOutcome>)
    ensures GetDedupeData(headers, forceMode).Err? ==> r == Err(GetDedupeData(headers, forceMode).error)
    ensures GetDedupeData(headers, forceMode).Ok? ==>
      var data := GetDedupeData(headers, forceMode).value;
      RunsBatch(s, Batch(prep(RowsInQueueOrder(store, data.queue)), data), score, reloaded, answers, r)
    ensures r.Ok? ==> |r.value.batchResults| == GetDedupeData(headers, forceMode).value.nrTasks
  {
    var data := GetDedupeData(headers, forceMode);
    if data.Err? {
      return Err(data.error);
    }
    var batch := GetRecordBatchInQueueOrder(store, data.value, prep);
    r := DecideAndLabel(s, batch, score, reloaded, answers);
  }
}
