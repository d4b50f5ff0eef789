/**
 * Merging two branches of a review whose records file conflicts: changes other
 * than colrev_status abort the merge; status conflicts are reconciled record by
 * record, one user choice per conflicting record.
 */
module Merge {
  import opened Common

  /** One entry of the non-status report (the field diff text is not modelled). */
  datatype NonStatusChange =
    | MissingInCurrent(ids: seq<string>)
    | MissingInOther(ids: seq<string>)
    | ChangedFields(ids: seq<string>)

  /** The IDs of store a, in its order, that store b lacks. */
  function MissingFrom(a: seq<Record>, b: seq<Record>): (r: seq<string>)
    ensures forall id :: id in r <==> id in Ids(a) && id !in Ids(b)
    ensures r == [] <==> forall id :: id in Ids(a) ==> id in Ids(b)
  {
    if |a| == 0 then []
    else
      assert Ids(a) == [Id(a[0])] + Ids(a[1..]);
      (if Id(a[0]) in Ids(b) then [] else [Id(a[0])]) + MissingFrom(a[1..], b)
  }

  predicate HasStatus(r: Record)
  {
    "colrev_status" in r.fields
  }

  /** The copy of a record compared by the merge: without colrev_status. */
  function WithoutStatus(r: Record): Record
  {
    r.(fields := r.fields - {"colrev_status"})
  }

  /**
   * The IDs, in current-branch order, of shared records that differ apart from their
   * status; KeyError when a compared record has no status.
   */
  function ChangedIds(cur: seq<Record>, other: seq<Record>): Result<seq<string>>
    decreases |cur|
  {
    if |cur| == 0 then Ok([])
    else
      var rest := ChangedIds(cur[1..], other);
      match FindById(other, Id(cur[0]))
      case None => rest
      case Some(o) =>
        if !HasStatus(cur[0]) || !HasStatus(o) then Err(KeyError("colrev_status"))
        else if rest.Err? then rest
        else if WithoutStatus(cur[0]) != WithoutStatus(o) then Ok([Id(cur[0])] + rest.value)
        else rest
  }

  /** A shared record pair is compared without its status. */
  predicate AgreesApartFromStatus(r: Record, other: seq<Record>)
  {
    FindById(other, Id(r)).Some? ==> WithoutStatus(r) == WithoutStatus(FindById(other, Id(r)).value)
  }

  predicate BothHaveStatus(r: Record, other: seq<Record>)
  {
    FindById(other, Id(r)).Some? ==> HasStatus(r) && HasStatus(FindById(other, Id(r)).value)
  }

  /** Every shared record pair of the two branches carries a status. */
  predicate StatusesPresent(cur: seq<Record>, other: seq<Record>)
  {
    forall k :: 0 <= k < |cur| ==> BothHaveStatus(cur[k], other)
  }

  /** With all statuses present nothing raises, and the report is empty iff every pair agrees. */
  lemma {:induction false} ChangedIdsOk(cur: seq<Record>, other: seq<Record>)
    requires StatusesPresent(cur, other)
    ensures ChangedIds(cur, other).Ok?
    ensures ChangedIds(cur, other).value == [] <==> forall k :: 0 <= k < |cur| ==> AgreesApartFromStatus(cur[k], other)
    decreases |cur|
  {
    if |cur| > 0 {
      assert forall k :: 0 <= k < |cur| - 1 ==> cur[1..][k] == cur[k + 1];
      ChangedIdsOk(cur[1..], other);
    }
  }

  /** Every pair that differs apart from the status is reported. */
  lemma {:induction false} ChangedIdsComplete(cur: seq<Record>, other: seq<Record>, k: nat)
    requires StatusesPresent(cur, other)
    requires k < |cur| && !AgreesApartFromStatus(cur[k], other)
    ensures ChangedIds(cur, other).Ok? && Id(cur[k]) in ChangedIds(cur, other).value
    decreases |cur|
  {
    ChangedIdsOk(cur, other);
    if k > 0 {
      assert forall j :: 0 <= j < |cur| - 1 ==> cur[1..][j] == cur[j + 1];
      ChangedIdsComplete(cur[1..], other, k - 1);
      ChangedIdsTail(cur, other, Id(cur[k]));
    } else {
      ChangedIdsHead(cur, other);
    }
  }

  /** A first record that differs apart from its status is reported. */
  lemma ChangedIdsHead(cur: seq<Record>, other: seq<Record>)
    requires |cur| > 0 && ChangedIds(cur, other).Ok? && !AgreesApartFromStatus(cur[0], other)
    ensures Id(cur[0]) in ChangedIds(cur, other).value
  {
  }

  /** What the later records report is reported for the whole list. */
  lemma ChangedIdsTail(cur: seq<Record>, other: seq<Record>, id: string)
    requires |cur| > 0 && ChangedIds(cur, other).Ok?
    requires ChangedIds(cur[1..], other).Ok? && id in ChangedIds(cur[1..], other).value
    ensures id in ChangedIds(cur, other).value
  {
  }

  /** Only pairs that differ apart from the status are reported. */
  lemma {:induction false} ChangedIdsSound(cur: seq<Record>, other: seq<Record>, id: string)
    requires StatusesPresent(cur, other)
    requires ChangedIds(cur, other).Ok? && id in ChangedIds(cur, other).value
    ensures exists k :: 0 <= k < |cur| && Id(cur[k]) == id && !AgreesApartFromStatus(cur[k], other)
    decreases |cur|
  {
    assert forall j :: 0 <= j < |cur| - 1 ==> cur[1..][j] == cur[j + 1];
    ChangedIdsOk(cur[1..], other);
    if id in ChangedIds(cur[1..], other).value {
      ChangedIdsSound(cur[1..], other, id);
      var k :| 0 <= k < |cur[1..]| && Id(cur[1..][k]) == id && !AgreesApartFromStatus(cur[1..][k], other);
      assert cur[k + 1] == cur[1..][k];
    } else {
      assert Id(cur[0]) == id && !AgreesApartFromStatus(cur[0], other);
    }
  }

  /** A status difference alone is never reported. */
  lemma StatusOnlyDifferenceNotReported(cur: seq<Record>, other: seq<Record>, k: nat)
    requires StatusesPresent(cur, other) && DistinctIds(cur)
    requires k < |cur| && FindById(other, Id(cur[k])).Some?
    requires cur[k].origin == FindById(other, Id(cur[k])).value.origin
    requires cur[k].dataProvenance == FindById(other, Id(cur[k])).value.dataProvenance
    requires cur[k].fields - {"colrev_status"} == FindById(other, Id(cur[k])).value.fields - {"colrev_status"}
    ensures ChangedIds(cur, other).Ok? && Id(cur[k]) !in ChangedIds(cur, other).value
  {
    ChangedIdsOk(cur, other);
    assert AgreesApartFromStatus(cur[k], other);
    forall id | id in ChangedIds(cur, other).value
      ensures id != Id(cur[k])
    {
      ChangedIdsSound(cur, other, id);
    }
  }

  /** Where an entry kind stands in the report. */
  function Rank(c: NonStatusChange): nat
  {
    match c
    case MissingInCurrent(_) => 0
    case MissingInOther(_) => 1
    case ChangedFields(_) => 2
  }

  /** The one-entry list when the entry carries IDs, else nothing. */
  function Entry(c: NonStatusChange): (r: seq<NonStatusChange>)
    ensures c in r <==> c.ids != []
    ensures forall d :: d in r ==> d == c
  {
    if c.ids != [] then [c] else []
  }

  /**
   * The report of __get_non_status_changes: records missing in the current branch, then
   * records missing in the other branch, then changed shared records; empty lists are omitted.
   */
  function Report(missingInCurrent: seq<string>, missingInOther: seq<string>, changed: seq<string>)
    : (r: seq<NonStatusChange>)
    ensures MissingInCurrent(missingInCurrent) in r <==> missingInCurrent != []
    ensures MissingInOther(missingInOther) in r <==> missingInOther != []
    ensures ChangedFields(changed) in r <==> changed != []
    ensures forall c :: c in r ==> c.ids != []
  {
    var first := Entry(MissingInCurrent(missingInCurrent));
    var second := Entry(MissingInOther(missingInOther));
    var third := Entry(ChangedFields(changed));
    assert forall c :: c in first + second + third <==> c in first || c in second || c in third;
    first + second + third
  }

  /** The report holds nothing but the three kinds of entry, in the order the merge prints them. */
  lemma ReportShape(missingInCurrent: seq<string>, missingInOther: seq<string>, changed: seq<string>)
    ensures var r := Report(missingInCurrent, missingInOther, changed);
      && (forall i, j :: 0 <= i < j < |r| ==> Rank(r[i]) < Rank(r[j]))
      && forall c :: c in r ==> c in [MissingInCurrent(missingInCurrent), MissingInOther(missingInOther), ChangedFields(changed)]
  {
    var first := Entry(MissingInCurrent(missingInCurrent));
    var second := Entry(MissingInOther(missingInOther));
    var third := Entry(ChangedFields(changed));
    var r := first + second + third;
    assert forall i :: 0 <= i < |r| ==> r[i] in first || r[i] in second || r[i] in third;
    assert forall c :: c in r ==> c in first || c in second || c in third;
  }

  /** __get_non_status_changes, raising KeyError as the comparison of shared records does. */
  function NonStatusChanges(cur: seq<Record>, other: seq<Record>): (r: Result<seq<NonStatusChange>>)
    ensures r.Err? <==> ChangedIds(cur, other).Err?
    ensures r.Ok? ==> r.value == Report(MissingFrom(other, cur), MissingFrom(cur, other), ChangedIds(cur, other).value)
  {
    match ChangedIds(cur, other)
    case Err(e) => Err(e)
    case Ok(changed) => Ok(Report(MissingFrom(other, cur), MissingFrom(cur, other), changed))
  }

  /** The two branches hold the same IDs and every shared pair agrees apart from its status. */
  ghost predicate SameApartFromStatus(cur: seq<Record>, other: seq<Record>)
  {
    (forall id :: id in Ids(cur) <==> id in Ids(other))
    && forall k :: 0 <= k < |cur| ==> AgreesApartFromStatus(cur[k], other)
  }

  /** A comparison that does not raise found every shared pair carrying a status. */
  lemma {:induction false} ChangedIdsOkHasStatuses(cur: seq<Record>, other: seq<Record>)
    requires ChangedIds(cur, other).Ok?
    ensures StatusesPresent(cur, other)
    decreases |cur|
  {
    if |cur| > 0 {
      ChangedIdsOkHasStatuses(cur[1..], other);
      assert forall k :: 1 <= k < |cur| ==> cur[k] == cur[1..][k - 1];
    }
  }

  /** The report is empty iff the branches agree on everything but statuses. */
  lemma NonStatusChangesEmptyIff(cur: seq<Record>, other: seq<Record>)
    requires StatusesPresent(cur, other)
    ensures NonStatusChanges(cur, other) == Ok([]) <==> SameApartFromStatus(cur, other)
  {
    ChangedIdsOk(cur, other);
    ReportEmpty(MissingFrom(other, cur), MissingFrom(cur, other), ChangedIds(cur, other).value);
  }

  /** The report is empty iff none of its three lists has an ID. */
  lemma ReportEmpty(missingInCurrent: seq<string>, missingInOther: seq<string>, changed: seq<string>)
    ensures Report(missingInCurrent, missingInOther, changed) == [] <==>
      missingInCurrent == [] && missingInOther == [] && changed == []
  {
    var r := Report(missingInCurrent, missingInOther, changed);
    if r != [] {
      assert r[0] in r;
      assert r[0] in [MissingInCurrent(missingInCurrent), MissingInOther(missingInOther), ChangedFields(changed)];
    }
  }

  // ---------------------------------------------------------------------------
  // Status reconciliation

  /** The record's counterpart exists in the other branch, and both carry a status. */
  predicate HasCounterpart(r: Record, other: seq<Record>)
  {
    FindById(other, Id(r)).Some? && HasStatus(r) && HasStatus(FindById(other, Id(r)).value)
  }

  /** Every current record has a counterpart: the reconciliation loop never raises KeyError. */
  predicate Reconcilable(cur: seq<Record>, other: seq<Record>)
    decreases |cur|
  {
    |cur| == 0 || (HasCounterpart(cur[0], other) && Reconcilable(cur[1..], other))
  }

  lemma {:induction false} CounterpartAt(cur: seq<Record>, other: seq<Record>, k: nat)
    requires Reconcilable(cur, other) && k < |cur|
    ensures HasCounterpart(cur[k], other)
    decreases k
  {
    if k > 0 {
      CounterpartAt(cur[1..], other, k - 1);
    }
  }

  lemma {:induction false} ReconcilableFromAll(cur: seq<Record>, other: seq<Record>)
    requires forall k :: 0 <= k < |cur| ==> HasCounterpart(cur[k], other)
    ensures Reconcilable(cur, other)
    decreases |cur|
  {
    if |cur| > 0 {
      assert forall k :: 0 <= k < |cur| - 1 ==> cur[1..][k] == cur[k + 1];
      ReconcilableFromAll(cur[1..], other);
    }
  }

  /** An empty report is what lets the reconciliation loop look every record up. */
  lemma EmptyReportMakesReconcilable(cur: seq<Record>, other: seq<Record>)
    requires NonStatusChanges(cur, other) == Ok([])
    ensures Reconcilable(cur, other)
  {
    ChangedIdsOkHasStatuses(cur, other);
    NonStatusChangesEmptyIff(cur, other);
    forall k | 0 <= k < |cur|
      ensures HasCounterpart(cur[k], other)
    {
      assert Id(cur[k]) in Ids(cur);
      FindByIdPresent(other, Id(cur[k]));
      assert BothHaveStatus(cur[k], other);
    }
    ReconcilableFromAll(cur, other);
  }

  function MyStatus(r: Record): string
    requires HasStatus(r)
  {
    r.fields["colrev_status"]
  }

  function TheirStatus(r: Record, other: seq<Record>): string
    requires HasCounterpart(r, other)
  {
    FindById(other, Id(r)).value.fields["colrev_status"]
  }

  predicate StatusDiffers(r: Record, other: seq<Record>)
    requires HasCounterpart(r, other)
  {
    MyStatus(r) != TheirStatus(r, other)
  }

  /** The statuses of the k-th current record and its counterpart differ. */
  predicate ConflictAt(cur: seq<Record>, other: seq<Record>, k: nat)
    requires Reconcilable(cur, other) && k < |cur|
  {
    CounterpartAt(cur, other, k);
    StatusDiffers(cur[k], other)
  }

  /** The number of records before position k whose statuses differ between the branches. */
  function NrConflictsBefore(cur: seq<Record>, other: seq<Record>, k: nat): (n: nat)
    requires Reconcilable(cur, other) && k <= |cur|
    ensures n <= k
  {
    if k == 0 then 0
    else NrConflictsBefore(cur, other, k - 1) + (if ConflictAt(cur, other, k - 1) then 1 else 0)
  }

  /** nr_to_reconcile: the records whose statuses differ between the branches. */
  function NrToReconcile(cur: seq<Record>, other: seq<Record>): nat
    requires Reconcilable(cur, other)
  {
    NrConflictsBefore(cur, other, |cur|)
  }

  lemma {:induction false} NrConflictsMonotone(cur: seq<Record>, other: seq<Record>, j: nat, k: nat)
    requires Reconcilable(cur, other) && j <= k <= |cur|
    ensures NrConflictsBefore(cur, other, j) <= NrConflictsBefore(cur, other, k)
    decreases k - j
  {
    if j < k {
      NrConflictsMonotone(cur, other, j, k - 1);
      var before := NrConflictsBefore(cur, other, k - 1);
      assert NrConflictsBefore(cur, other, j) <= before;
      NrConflictsStep(cur, other, k);
      assert before <= NrConflictsBefore(cur, other, k);
    }
  }

  /** One more record adds at most one conflict and never removes one. */
  lemma NrConflictsStep(cur: seq<Record>, other: seq<Record>, k: nat)
    requires Reconcilable(cur, other) && 0 < k <= |cur|
    ensures NrConflictsBefore(cur, other, k - 1) <= NrConflictsBefore(cur, other, k) <= NrConflictsBefore(cur, other, k - 1) + 1
  {
  }

  /** Answer "1" keeps the current branch's status; anything else takes the other's. */
  function Resolution(choice: string, mine: string, theirs: string): (s: string)
    ensures choice == "1" ==> s == mine
    ensures choice != "1" ==> s == theirs
  {
    if choice == "1" then mine else theirs
  }

  function WithStatus(r: Record, s: string): Record
  {
    r.(fields := r.fields["colrev_status" := s])
  }

  /** The k-th record after the loop: a conflict is resolved by the choice numbered by the conflicts before it. */
  function ReconciledAt(cur: seq<Record>, other: seq<Record>, choices: seq<string>, k: nat): Record
    requires Reconcilable(cur, other) && k < |cur|
  {
    CounterpartAt(cur, other, k);
    var next := NrConflictsBefore(cur, other, k);
    if StatusDiffers(cur[k], other) && next < |choices|
    then WithStatus(cur[k], Resolution(choices[next], MyStatus(cur[k]), TheirStatus(cur[k], other)))
    else cur[k]
  }

  /** The current records after the reconciliation loop. */
  function Reconciled(cur: seq<Record>, other: seq<Record>, choices: seq<string>): (r: seq<Record>)
    requires Reconcilable(cur, other)
  {
    seq(|cur|, j requires 0 <= j < |cur| => ReconciledAt(cur, other, choices, j))
  }

  /**
   * A reconciled record differs from the current one at most in its status, which it
   * still carries; a record whose statuses agree is kept as it is.
   */
  lemma ReconciledChangesOnlyStatus(cur: seq<Record>, other: seq<Record>, choices: seq<string>, k: nat)
    requires Reconcilable(cur, other) && k < |cur|
    ensures HasCounterpart(cur[k], other)
    ensures WithoutStatus(ReconciledAt(cur, other, choices, k)) == WithoutStatus(cur[k])
    ensures HasStatus(ReconciledAt(cur, other, choices, k))
    ensures !StatusDiffers(cur[k], other) ==> ReconciledAt(cur, other, choices, k) == cur[k]
  {
    CounterpartAt(cur, other, k);
    var r := ReconciledAt(cur, other, choices, k);
    assert r.fields - {"colrev_status"} == cur[k].fields - {"colrev_status"};
  }

  /**
   * When there are answers for every conflict, a conflicting record takes its own
   * status on answer "1" and the other branch's status otherwise.
   */
  lemma ReconciledTakesChoice(cur: seq<Record>, other: seq<Record>, choices: seq<string>, k: nat)
    requires Reconcilable(cur, other) && NrToReconcile(cur, other) <= |choices| && k < |cur|
    requires HasCounterpart(cur[k], other) && StatusDiffers(cur[k], other)
    ensures NrConflictsBefore(cur, other, k) < |choices|
    ensures MyStatus(ReconciledAt(cur, other, choices, k))
      == (if choices[NrConflictsBefore(cur, other, k)] == "1" then MyStatus(cur[k]) else TheirStatus(cur[k], other))
  {
    NrConflictsMonotone(cur, other, k + 1, |cur|);
  }

  /** The records once the loop has handled the first k of them. */
  function ReconciledUpTo(cur: seq<Record>, other: seq<Record>, choices: seq<string>, k: nat): (r: seq<Record>)
    requires Reconcilable(cur, other) && k <= |cur|
  {
    seq(|cur|, j requires 0 <= j < |cur| => if j < k then ReconciledAt(cur, other, choices, j) else cur[j])
  }

  /** A conflict found once every choice is used up leaves more conflicts than choices. */
  lemma ChoicesRunOut(cur: seq<Record>, other: seq<Record>, choices: seq<string>, k: nat)
    requires Reconcilable(cur, other) && k < |cur|
    requires ConflictAt(cur, other, k) && NrConflictsBefore(cur, other, k) >= |choices|
    ensures NrToReconcile(cur, other) > |choices|
  {
    NrConflictsMonotone(cur, other, k + 1, |cur|);
  }

  /**
   * Handling record k: a conflict counts and takes the next choice, an agreement keeps
   * the record; either way only position k changes.
   */
  lemma ReconcileStep(cur: seq<Record>, other: seq<Record>, choices: seq<string>, k: nat)
    requires Reconcilable(cur, other) && k < |cur|
    ensures HasCounterpart(cur[k], other)
    ensures NrConflictsBefore(cur, other, k + 1)
      == NrConflictsBefore(cur, other, k) + (if StatusDiffers(cur[k], other) then 1 else 0)
    ensures StatusDiffers(cur[k], other) && NrConflictsBefore(cur, other, k) < |choices| ==>
      ReconciledAt(cur, other, choices, k)
      == WithStatus(cur[k], Resolution(choices[NrConflictsBefore(cur, other, k)], MyStatus(cur[k]), TheirStatus(cur[k], other)))
    ensures !StatusDiffers(cur[k], other) ==> ReconciledAt(cur, other, choices, k) == cur[k]
    ensures ReconciledUpTo(cur, other, choices, k + 1)
      == ReconciledUpTo(cur, other, choices, k)[k := ReconciledAt(cur, other, choices, k)]
  {
    CounterpartAt(cur, other, k);
  }

  /** Once every record is handled, the records are the reconciled ones. */
  lemma ReconciledUpToAll(cur: seq<Record>, other: seq<Record>, choices: seq<string>)
    requires Reconcilable(cur, other)
    ensures ReconciledUpTo(cur, other, choices, |cur|) == Reconciled(cur, other, choices)
  {
  }

  /**
   * The reconciliation loop of main: each record whose statuses differ consumes the next
   * choice; input running out is an EOFError. Returns the counter i.
   */
  method ReconcileStatuses(current: array<Record>, other: seq<Record>, choices: seq<string>)
    returns (r: Result<nat>)
    requires Reconcilable(current[..], other)
    modifies current
    ensures r.Ok? <==> NrToReconcile(old(current[..]), other) <= |choices|
    ensures r.Err? ==> r.error == EOFError
    ensures r.Ok? ==> (r.value == NrToReconcile(old(current[..]), other)
      && current[..] == Reconciled(old(current[..]), other, choices))
  {
    ghost var original := current[..];
    var i := 0;
    var k := 0;
    while k < current.Length
      invariant 0 <= k <= current.Length == |original|
      invariant i == NrConflictsBefore(original, other, k) && i <= |choices|
      invariant current[..] == ReconciledUpTo(original, other, choices, k)
    {
      var step := ResolveRecord(current, other, choices, k, i, original);
      if step.None? {
        return Err(EOFError);
      }
      i := step.value;
      k := k + 1;
    }
    ReconciledUpToAll(original, other, choices);
    return Ok(i);
  }

  /**
   * One pass of the reconciliation loop: a record whose statuses differ takes the next
   * answer; None when no answer is left.
   */
  method ResolveRecord(current: array<Record>, other: seq<Record>, choices: seq<string>, k: nat, i: nat,
                       ghost original: seq<Record>)
    returns (next: Option<nat>)
    requires k < current.Length == |original| && Reconcilable(original, other)
    requires i == NrConflictsBefore(original, other, k) && i <= |choices|
    requires current[..] == ReconciledUpTo(original, other, choices, k)
    modifies current
    ensures next.None? ==> NrToReconcile(original, other) > |choices|
    ensures next.Some? ==>
      && next.value == NrConflictsBefore(original, other, k + 1) && next.value <= |choices|
      && current[..] == ReconciledUpTo(original, other, choices, k + 1)
  {
    var rec := current[k];
    ReconcileStep(original, other, choices, k);
    assert rec == original[k];
    if StatusDiffers(rec, other) {
      if i >= |choices| {
        ChoicesRunOut(original, other, choices, k);
        return None;
      }
      current[k] := WithStatus(rec, Resolution(choices[i], MyStatus(rec), TheirStatus(rec, other)));
      return Some(i + 1);
    }
    return Some(i);
  }

  datatype MergeOutcome = Aborted(changes: seq<NonStatusChange>) | StatusesReconciled(count: nat)

  /**
   * main once git reports a conflict in the records file: report non-status changes and
   * stop, or reconcile the statuses.
   */
  method ReconcileBranches(current: array<Record>, other: seq<Record>, choices: seq<string>)
    returns (r: Result<MergeOutcome>)
    modifies current
    ensures NonStatusChanges(old(current[..]), other).Err? ==>
      r == Err(NonStatusChanges(old(current[..]), other).error) && current[..] == old(current[..])
    ensures NonStatusChanges(old(current[..]), other).Ok? && NonStatusChanges(old(current[..]), other).value != [] ==>
      r == Ok(Aborted(NonStatusChanges(old(current[..]), other).value)) && current[..] == old(current[..])
    ensures NonStatusChanges(old(current[..]), other) == Ok([]) ==>
      Reconcilable(old(current[..]), other)
      && (r.Ok? <==> NrToReconcile(old(current[..]), other) <= |choices|)
      && (r.Ok? ==> r.value == StatusesReconciled(NrToReconcile(old(current[..]), other))
                    && current[..] == Reconciled(old(current[..]), other, choices))
  {
    var changes := NonStatusChanges(current[..], other);
    if changes.Err? {
      return Err(changes.error);
    }
    if changes.value != [] {
      return Ok(Aborted(changes.value));
    }
    EmptyReportMakesReconcilable(current[..], other);
    var n := ReconcileStatuses(current, other, choices);
    if n.Err? {
      return Err(n.error);
    }
    return Ok(StatusesReconciled(n.value));
  }
}
