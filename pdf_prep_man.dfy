/**
 * The pdf_prep_man operation (colrev/ops/pdf_prep_man.py): the records whose PDF needs
 * manual preparation are counted and listed (get_data), summarised by ENTRYTYPE and by
 * the hints GROBID noted for the file (pdf_prep_man_stats), exported as a CSV projection
 * (extract_needs_pdf_prep_man), and the edited export is merged back into the stored
 * records, matched by their origins (apply_pdf_prep_man).
 */
module PdfPrepMan {
  import opened Common

  /** PAD never exceeds 40 characters here. */
  const PadCap := 40

  predicate InState(r: Record)
  {
    Status(r) == PdfNeedsManualPreparation
  }

  /** The records in pdf_needs_manual_preparation, in store order. */
  function Pending(records: seq<Record>): (r: seq<Record>)
    ensures |r| <= |records|
    ensures forall x :: x in r <==> x in records && InState(x)
  {
    if |records| == 0 then []
    else
      var init := Pending(records[..|records| - 1]);
      var last := records[|records| - 1];
      assert records == records[..|records| - 1] + [last];
      if InState(last) then init + [last] else init
  }

  // ---------------------------------------------------------------------------
  // get_data

  datatype PrepData = PrepData(nrTasks: nat, pad: nat, items: seq<Record>)

  /**
   * get_data: the number of records to prepare, the PAD and the records to prepare
   * (read_next_record with the state as condition); ValueError for an empty store.
   */
  function GetData(records: seq<Record>): (r: Result<PrepData>)
    ensures r.Err? <==> |records| == 0
    ensures r.Ok? ==> r.value.nrTasks == |r.value.items|
    ensures r.Ok? ==> forall x :: x in r.value.items <==> x in records && InState(x)
    ensures r.Ok? ==> r.value.pad <= PadCap
    ensures r.Ok? ==> forall i :: 0 <= i < |records| ==> |Id(records[i])| + 2 <= r.value.pad || r.value.pad == PadCap
    ensures r.Ok? ==>
      (exists i :: 0 <= i < |records| &&
        (|Id(records[i])| + 2 == r.value.pad || (r.value.pad == PadCap && |Id(records[i])| + 2 >= PadCap)))
    ensures r.Ok? ==> r.value.pad == PadWidth(Ids(records), PadCap).value
  {
    match PadWidth(Ids(records), PadCap)
    case Err(e) => Err(e)
    case Ok(pad) => Ok(PrepData(|Pending(records)|, pad, Pending(records)))
  }

  // ---------------------------------------------------------------------------
  // pdf_prep_man_stats

  /** The ENTRYTYPE counts, the hints collected and the (journal, hint) rows of the crosstab. */
  datatype Stats = Stats(entryTypes: map<string, nat>, hints: seq<string>, crosstab: seq<(string, string)>)

  /** Each piece left-stripped. */
  function LStripAll(parts: seq<string>): (r: seq<string>)
    ensures |r| == |parts| && forall i :: 0 <= i < |parts| ==> r[i] == LStrip(parts[i], Whitespace)
  {
    seq(|parts|, i requires 0 <= i < |parts| => LStrip(parts[i], Whitespace))
  }

  /** The hints of a record: the ","-pieces of a non-empty note on its file, left-stripped. */
  function FileHints(r: Record): seq<string>
  {
    if "file" in r.dataProvenance && r.dataProvenance["file"].note != "" then
      LStripAll(Split(r.dataProvenance["file"].note, ','))
    else []
  }

  /** One crosstab row per hint, under the record's journal. */
  function Rows(journal: string, hints: seq<string>): (r: seq<(string, string)>)
    ensures |r| == |hints|
    ensures forall i :: 0 <= i < |hints| ==> r[i] == (journal, LStrip(hints[i], Whitespace))
  {
    seq(|hints|, i requires 0 <= i < |hints| => (journal, LStrip(hints[i], Whitespace)))
  }

  /**
   * pdf_prep_man_stats as written: the crosstab rows of a record are built from every hint
   * collected so far, its own and those of the records before it.
   */
  function StatsOf(records: seq<Record>): Result<Stats>
  {
    if |records| == 0 then Ok(Stats(map[], [], []))
    else
      match StatsOf(records[..|records| - 1])
      case Err(e) => Err(e)
      case Ok(st) =>
        var r := records[|records| - 1];
        if !InState(r) then Ok(st)
        else if "ENTRYTYPE" !in r.fields then Err(KeyError("ENTRYTYPE"))
        else
          var hints := st.hints + FileHints(r);
          if |hints| > 0 && "journal" !in r.fields then Err(KeyError("journal"))
          else Ok(Stats(Bump(st.entryTypes, r.fields["ENTRYTYPE"]), hints,
                        st.crosstab + Rows(Get(r.fields, "journal", ""), hints)))
  }

  /** pdf_prep_man_stats with each record's crosstab rows built from its own hints. */
  function StatsPerRecord(records: seq<Record>): Result<Stats>
  {
    if |records| == 0 then Ok(Stats(map[], [], []))
    else
      match StatsPerRecord(records[..|records| - 1])
      case Err(e) => Err(e)
      case Ok(st) =>
        var r := records[|records| - 1];
        if !InState(r) then Ok(st)
        else if "ENTRYTYPE" !in r.fields then Err(KeyError("ENTRYTYPE"))
        else
          var own := FileHints(r);
          if |own| > 0 && "journal" !in r.fields then Err(KeyError("journal"))
          else Ok(Stats(Bump(st.entryTypes, r.fields["ENTRYTYPE"]), st.hints + own,
                        st.crosstab + Rows(Get(r.fields, "journal", ""), own)))
  }

  /** The records in the state with the given ENTRYTYPE. */
  function CountType(records: seq<Record>, t: string): nat
  {
    if |records| == 0 then 0
    else
      var r := records[|records| - 1];
      CountType(records[..|records| - 1], t)
        + (if InState(r) && "ENTRYTYPE" in r.fields && r.fields["ENTRYTYPE"] == t then 1 else 0)
  }

  /** The ENTRYTYPE counts count exactly the records in pdf_needs_manual_preparation, per type. */
  lemma {:induction false} EntryTypeCounts(records: seq<Record>, t: string)
    requires StatsOf(records).Ok?
    ensures var counts := StatsOf(records).value.entryTypes;
      (t in counts <==> CountType(records, t) > 0) && (t in counts ==> counts[t] == CountType(records, t))
  {
    if |records| > 0 {
      EntryTypeCounts(records[..|records| - 1], t);
    }
  }

  /** Every hint of every record in the state, in store order. */
  function AllHints(records: seq<Record>): seq<string>
  {
    if |records| == 0 then []
    else
      var r := records[|records| - 1];
      AllHints(records[..|records| - 1]) + (if InState(r) then FileHints(r) else [])
  }

  /** The hint list accumulates the hints of all records in the state. */
  lemma {:induction false} HintsAccumulate(records: seq<Record>)
    requires StatsOf(records).Ok?
    ensures StatsOf(records).value.hints == AllHints(records)
  {
    if |records| > 0 {
      HintsAccumulate(records[..|records| - 1]);
    }
  }

  /** The rows each record in the state contributes: its journal with each of its own hints. */
  function OwnRows(records: seq<Record>): seq<(string, string)>
  {
    if |records| == 0 then []
    else
      var r := records[|records| - 1];
      OwnRows(records[..|records| - 1]) + (if InState(r) then Rows(Get(r.fields, "journal", ""), FileHints(r)) else [])
  }

  /** In the corrected statistics every crosstab row pairs a record's journal with one of its own hints. */
  lemma {:induction false} StatsPerRecordRows(records: seq<Record>)
    requires StatsPerRecord(records).Ok?
    ensures StatsPerRecord(records).value.crosstab == OwnRows(records)
    ensures StatsPerRecord(records).value.hints == AllHints(records)
  {
    if |records| > 0 {
      StatsPerRecordRows(records[..|records| - 1]);
    }
  }

  /** Both versions count the types alike and fail alike on a missing ENTRYTYPE. */
  lemma {:induction false} StatsVersionsAgreeOnTypes(records: seq<Record>)
    requires StatsOf(records).Ok? && StatsPerRecord(records).Ok?
    ensures StatsOf(records).value.entryTypes == StatsPerRecord(records).value.entryTypes
  {
    if |records| > 0 {
      StatsVersionsAgreeOnTypes(records[..|records| - 1]);
    }
  }

  /** A record to prepare with one hint on its file. */
  function Example(id: string, journal: string, hint: char): Record
  {
    Record(map["ID" := id, "ENTRYTYPE" := "article", "colrev_status" := PdfNeedsManualPreparation, "journal" := journal],
           [], map["file" := Provenance("grobid", [hint])])
  }

  /** A one-letter note is one hint. */
  lemma ExampleHints(id: string, journal: string, hint: char)
    requires hint != ',' && hint !in Whitespace
    ensures InState(Example(id, journal, hint))
    ensures FileHints(Example(id, journal, hint)) == [[hint]]
    ensures "ENTRYTYPE" in Example(id, journal, hint).fields && Example(id, journal, hint).fields["journal"] == journal
  {
    var note := [hint];
    assert note[1..] == [];
    var rest := Split(note[1..], ',');
    assert rest == [""] && rest[1..] == [] && [note[0]] + rest[0] == note;
    assert Split(note, ',') == [note];
    assert LStrip(note, Whitespace) == note;
  }

  /** One more record to prepare, with ENTRYTYPE and journal, as the statistics take it in. */
  lemma StatsStep(records: seq<Record>, r: Record)
    requires StatsOf(records).Ok? && InState(r) && "ENTRYTYPE" in r.fields && "journal" in r.fields
    ensures var st := StatsOf(records).value;
      var h := st.hints + FileHints(r);
      StatsOf(records + [r]) == Ok(Stats(Bump(st.entryTypes, r.fields["ENTRYTYPE"]), h, st.crosstab + Rows(r.fields["journal"], h)))
  {
    assert (records + [r])[..|records|] == records;
  }

  lemma StatsPerRecordStep(records: seq<Record>, r: Record)
    requires StatsPerRecord(records).Ok? && InState(r) && "ENTRYTYPE" in r.fields && "journal" in r.fields
    ensures var st := StatsPerRecord(records).value;
      StatsPerRecord(records + [r])
        == Ok(Stats(Bump(st.entryTypes, r.fields["ENTRYTYPE"]), st.hints + FileHints(r),
                    st.crosstab + Rows(r.fields["journal"], FileHints(r))))
  {
    assert (records + [r])[..|records|] == records;
  }

  /**
   * Two records to prepare with one-letter hints a and b: the crosstab as written gives the
   * second record the first record's hint as well.
   */
  lemma AccumulatedHintsCounterexample(j1: string, j2: string, a: char, b: char)
    requires a != ',' && a !in Whitespace && b != ',' && b !in Whitespace
    ensures var records := [Example("r1", j1, a), Example("r2", j2, b)];
      && StatsOf(records).Ok?
      && StatsOf(records).value.crosstab == [(j1, [a]), (j2, [a]), (j2, [b])]
  {
    var r1 := Example("r1", j1, a);
    var r2 := Example("r2", j2, b);
    ExampleHints("r1", j1, a);
    ExampleHints("r2", j2, b);
    var none: seq<Record> := [];
    assert none + [r1] == [r1] && [r1] + [r2] == [r1, r2];
    StatsStep(none, r1);
    StatsStep([r1], r2);
    assert Rows(j1, [[a]]) == [(j1, [a])];
    assert Rows(j2, [[a], [b]]) == [(j2, [a]), (j2, [b])];
  }

  /** The same two records in the corrected statistics: each record's rows carry its own hint only. */
  lemma PerRecordHintsOnSameInput(j1: string, j2: string, a: char, b: char)
    requires a != ',' && a !in Whitespace && b != ',' && b !in Whitespace
    ensures var records := [Example("r1", j1, a), Example("r2", j2, b)];
      && StatsPerRecord(records).Ok?
      && StatsPerRecord(records).value.crosstab == [(j1, [a]), (j2, [b])]
  {
    var r1 := Example("r1", j1, a);
    var r2 := Example("r2", j2, b);
    ExampleHints("r1", j1, a);
    ExampleHints("r2", j2, b);
    var none: seq<Record> := [];
    assert none + [r1] == [r1] && [r1] + [r2] == [r1, r2];
    StatsPerRecordStep(none, r1);
    StatsPerRecordStep([r1], r2);
    assert Rows(j1, [[a]]) == [(j1, [a])];
    assert Rows(j2, [[b]]) == [(j2, [b])];
  }

  lemma LStripAllSnoc(parts: seq<string>, j: nat)
    requires j < |parts|
    ensures LStripAll(parts[..j + 1]) == LStripAll(parts[..j]) + [LStrip(parts[j], Whitespace)]
  {
    assert parts[..j + 1] == parts[..j] + [parts[j]];
    assert forall i :: 0 <= i < j ==> parts[..j + 1][i] == parts[..j][i];
  }

  lemma RowsSnoc(journal: string, hints: seq<string>, j: nat)
    requires j < |hints|
    ensures Rows(journal, hints[..j + 1]) == Rows(journal, hints[..j]) + [(journal, LStrip(hints[j], Whitespace))]
  {
    assert hints[..j + 1] == hints[..j] + [hints[j]];
    assert forall i :: 0 <= i < j ==> hints[..j + 1][i] == hints[..j][i];
  }

  /** The hints of a record, as the loop over the ","-pieces of the file's note appends them. */
  method NoteHints(record: Record) returns (h: seq<string>)
    ensures h == FileHints(record)
  {
    h := [];
    if "file" in record.dataProvenance && record.dataProvenance["file"].note != "" {
      var pieces := Split(record.dataProvenance["file"].note, ',');
      for j := 0 to |pieces|
        invariant h == LStripAll(pieces[..j])
      {
        LStripAllSnoc(pieces, j);
        h := h + [LStrip(pieces[j], Whitespace)];
      }
      assert pieces[..|pieces|] == pieces;
    }
  }

  /** The crosstab rows appended for one record, one per hint. */
  method AppendRows(crosstab: seq<(string, string)>, journal: string, hints: seq<string>)
    returns (c: seq<(string, string)>)
    ensures c == crosstab + Rows(journal, hints)
  {
    c := crosstab;
    for j := 0 to |hints|
      invariant c == crosstab + Rows(journal, hints[..j])
    {
      RowsSnoc(journal, hints, j);
      c := c + [(journal, LStrip(hints[j], Whitespace))];
    }
    assert hints[..|hints|] == hints;
  }

  /** The stats loop as written. */
  method PdfPrepManStats(records: seq<Record>) returns (r: Result<Stats>)
    ensures r == StatsOf(records)
  {
    var types: map<string, nat> := map[];
    var hints: seq<string> := [];
    var crosstab: seq<(string, string)> := [];
    for i := 0 to |records|
      invariant StatsOf(records[..i]) == Ok(Stats(types, hints, crosstab))
    {
      assert records[..i + 1][..i] == records[..i];
      var record := records[i];
      if !InState(record) {
        continue;
      }
      if "ENTRYTYPE" !in record.fields {
        StatsStops(records, i + 1);
        return Err(KeyError("ENTRYTYPE"));
      }
      types := Bump(types, record.fields["ENTRYTYPE"]);
      var own := NoteHints(record);
      hints := hints + own;
      if |hints| > 0 && "journal" !in record.fields {
        StatsStops(records, i + 1);
        return Err(KeyError("journal"));
      }
      crosstab := AppendRows(crosstab, Get(record.fields, "journal", ""), hints);
    }
    assert records[..|records|] == records;
    r := Ok(Stats(types, hints, crosstab));
  }

  /** An error stops the statistics. */
  lemma {:induction false} StatsStops(records: seq<Record>, k: nat)
    requires k <= |records| && StatsOf(records[..k]).Err?
    ensures StatsOf(records) == StatsOf(records[..k])
    decreases |records| - k
  {
    if k < |records| {
      assert records[..k + 1][..k] == records[..k];
      StatsStops(records, k + 1);
    } else {
      assert records[..k] == records;
    }
  }

  // ---------------------------------------------------------------------------
  // extract_needs_pdf_prep_man

  /** A cell of the exported or re-imported table. */
  datatype Cell = Nan | Text(text: string) | List(list: seq<string>)

  /** The columns of the CSV export, in order. */
  const ColNames := ["ID", "colrev_origin", "author", "title", "year", "journal", "volume", "number", "pages", "doi"]

  /** The outcome of the export: refused because an output file exists, or the records and the CSV rows. */
  datatype Export = Refused | Exported(records: seq<Record>, rows: seq<seq<Cell>>)

  /** Some record has the column (the data frame then has it). */
  predicate HasColumn(records: seq<Record>, col: string)
  {
    col == "colrev_origin" || exists i :: 0 <= i < |records| && col in records[i].fields
  }

  /** A record's cell in a column: its value, NaN where others have the column, "NA" where nobody has it. */
  function CellOf(records: seq<Record>, r: Record, col: string): Cell
  {
    if col == "colrev_origin" then List(r.origin)
    else if col in r.fields then Text(r.fields[col])
    else if HasColumn(records, col) then Nan
    else Text("NA")
  }

  /** extract_needs_pdf_prep_man: nothing is written over an existing csv or bib export. */
  function Extract(csvExists: bool, bibExists: bool, records: seq<Record>): (r: Export)
    ensures r.Refused? <==> csvExists || bibExists
    ensures r.Exported? ==> forall x :: x in r.records <==> x in records && InState(x)
    ensures r.Exported? ==> |r.rows| == |r.records|
    ensures r.Exported? ==> forall i :: 0 <= i < |r.rows| ==> |r.rows[i]| == |ColNames|
  {
    if csvExists || bibExists then Refused
    else
      var selected := Pending(records);
      Exported(selected, seq(|selected|, i requires 0 <= i < |selected| =>
        seq(|ColNames|, j requires 0 <= j < |ColNames| => CellOf(selected, selected[i], ColNames[j]))))
  }

  /** A column is filled with "NA" exactly when no exported record has it. */
  lemma ExtractNa(records: seq<Record>, i: nat, j: nat)
    requires var e := Extract(false, false, records); i < |e.rows| && j < |ColNames|
    ensures var e := Extract(false, false, records);
      (e.rows[i][j] == Text("NA") && ColNames[j] !in e.records[i].fields) <==> !HasColumn(e.records, ColNames[j])
    ensures var e := Extract(false, false, records);
      ColNames[j] in e.records[i].fields && ColNames[j] != "colrev_origin" ==> e.rows[i][j] == Text(e.records[i].fields[ColNames[j]])
  {
    var e := Extract(false, false, records);
    if !HasColumn(e.records, ColNames[j]) {
      assert ColNames[j] !in e.records[i].fields;
    }
  }

  // ---------------------------------------------------------------------------
  // apply_pdf_prep_man

  /** str(value) == "nan" (a missing CSV cell, or the text "nan") or the empty text: the key is deleted. */
  predicate Deletes(c: Cell)
  {
    c == Nan || c == Text("nan") || c == Text("")
  }

  /**
   * A matched record after its edited row is applied: keys with a deleting value are
   * removed, keys with a text value are set, keys the row does not have are kept. The
   * row's colrev_origin equals the record's origin (that is how it was matched), so
   * setting it changes nothing.
   */
  function UpdatedFields(fields: map<string, string>, row: map<string, Cell>): map<string, string>
  {
    map k | k in fields.Keys + row.Keys && k != "colrev_origin" && !(k in row && Deletes(row[k]))
            && (k in row ==> row[k].Text? || k in fields)
      :: if k in row && row[k].Text? then row[k].text else fields[k]
  }

  /** Per key: a deleting value removes it, a text value sets it, an absent key keeps its value. */
  lemma UpdatedFieldsEffect(fields: map<string, string>, row: map<string, Cell>, k: string)
    requires k != "colrev_origin" && "colrev_origin" !in fields
    ensures var u := UpdatedFields(fields, row);
      && (k in row && Deletes(row[k]) ==> k !in u)
      && (k in row && row[k].Text? && !Deletes(row[k]) ==> k in u && u[k] == row[k].text)
      && (k !in row ==> (k in u <==> k in fields) && (k in fields ==> u[k] == fields[k]))
  {
  }

  /** The edited rows whose colrev_origin is the record's origin; KeyError for a row without one. */
  function Matching(changed: seq<map<string, Cell>>, origin: seq<string>): (r: Result<seq<map<string, Cell>>>)
    ensures r.Err? <==> exists i :: 0 <= i < |changed| && "colrev_origin" !in changed[i]
    ensures r.Err? ==> r.error == KeyError("colrev_origin")
    ensures r.Ok? ==> forall x :: x in r.value <==> x in changed && x["colrev_origin"] == List(origin)
  {
    if |changed| == 0 then Ok([])
    else
      var last := changed[|changed| - 1];
      assert changed == changed[..|changed| - 1] + [last];
      match Matching(changed[..|changed| - 1], origin)
      case Err(e) => Err(e)
      case Ok(m) =>
        if "colrev_origin" !in last then Err(KeyError("colrev_origin"))
        else Ok(if last["colrev_origin"] == List(origin) then m + [last] else m)
  }

  /** The record after the edits: changed only when exactly one edited row has its origin. */
  function Applied(r: Record, changed: seq<map<string, Cell>>): Record
  {
    match Matching(changed, r.origin)
    case Err(_) => r
    case Ok(m) => if |m| == 1 then r.(fields := UpdatedFields(r.fields, m[0])) else r
  }

  /** A record is changed only by a unique match. */
  lemma AppliedNeedsUniqueMatch(r: Record, changed: seq<map<string, Cell>>)
    requires Applied(r, changed) != r
    ensures Matching(changed, r.origin).Ok? && |Matching(changed, r.origin).value| == 1
  {
  }

  /** Rows read back from the CSV export carry their origin as text, so they never match a record. */
  lemma {:induction false} CsvRowsNeverMatch(changed: seq<map<string, Cell>>, origin: seq<string>)
    requires forall i :: 0 <= i < |changed| ==> "colrev_origin" in changed[i] && changed[i]["colrev_origin"].Text?
    ensures Matching(changed, origin) == Ok([])
  {
    if |changed| > 0 {
      CsvRowsNeverMatch(changed[..|changed| - 1], origin);
    }
  }

  /** So a record is never changed from the CSV export. */
  lemma CsvRowsChangeNothing(r: Record, changed: seq<map<string, Cell>>)
    requires forall i :: 0 <= i < |changed| ==> "colrev_origin" in changed[i] && changed[i]["colrev_origin"].Text?
    ensures Applied(r, changed) == r
  {
    CsvRowsNeverMatch(changed, r.origin);
  }

  /**
   * Where the edited rows come from: the bib export wins over the csv. With neither, the
   * variable is unbound: the error is raised where the loop over the records first reads it.
   */
  function ChangedRows(csvRows: Option<seq<map<string, Cell>>>, bibRows: Option<seq<map<string, Cell>>>)
    : (r: Result<seq<map<string, Cell>>>)
    ensures r.Err? <==> csvRows.None? && bibRows.None?
  {
    if bibRows.Some? then Ok(bibRows.value)
    else if csvRows.Some? then Ok(csvRows.value)
    else Err(UnboundLocalError("records_changed"))
  }

  /** The loop over the edited row's items, one key at a time. */
  method ApplyRow(fields: map<string, string>, row: map<string, Cell>) returns (r: map<string, string>)
    requires "colrev_origin" !in fields
    ensures r == UpdatedFields(fields, row)
  {
    r := fields;
    var todo := row.Keys;
    while todo != {}
      invariant todo <= row.Keys
      invariant forall k :: k !in todo ==> (k in r <==> k in UpdatedFields(fields, row))
      invariant forall k :: k !in todo && k in r ==> r[k] == UpdatedFields(fields, row)[k]
      invariant forall k :: k in todo ==> (k in r <==> k in fields) && (k in r ==> r[k] == fields[k])
      decreases todo
    {
      var k :| k in todo;
      var value := row[k];
      if k == "colrev_origin" {
      } else if Deletes(value) {
        r := r - {k};
      } else if value.Text? {
        r := r[k := value.text];
      }
      todo := todo - {k};
    }
    assert r == UpdatedFields(fields, row);
  }

  /** The edited rows with the record's origin, as the list comprehension collects them. */
  method FindMatching(changed: seq<map<string, Cell>>, origin: seq<string>) returns (r: Result<seq<map<string, Cell>>>)
    ensures r == Matching(changed, origin)
  {
    var m: seq<map<string, Cell>> := [];
    for i := 0 to |changed|
      invariant Matching(changed[..i], origin) == Ok(m)
    {
      assert changed[..i + 1][..i] == changed[..i];
      if "colrev_origin" !in changed[i] {
        MatchingStops(changed, origin, i + 1);
        return Err(KeyError("colrev_origin"));
      }
      if changed[i]["colrev_origin"] == List(origin) {
        m := m + [changed[i]];
      }
    }
    assert changed[..|changed|] == changed;
    r := Ok(m);
  }

  lemma {:induction false} MatchingStops(changed: seq<map<string, Cell>>, origin: seq<string>, k: nat)
    requires k <= |changed| && Matching(changed[..k], origin).Err?
    ensures Matching(changed, origin) == Matching(changed[..k], origin)
    decreases |changed| - k
  {
    if k < |changed| {
      assert changed[..k + 1][..k] == changed[..k];
      MatchingStops(changed, origin, k + 1);
    } else {
      assert changed[..k] == changed;
    }
  }

  /** Stored records keep their origin outside their plain fields. */
  predicate PlainFields(records: seq<Record>)
  {
    forall i :: 0 <= i < |records| ==> "colrev_origin" !in records[i].fields
  }

  /**
   * apply_pdf_prep_man: every stored record is updated in place from its unique match
   * among the edited rows. The rows are first read at the first record, so an unbound
   * records_changed or a row without colrev_origin raises there, and an empty store raises nothing.
   */
  method ApplyPdfPrepMan(records: array<Record>, csvRows: Option<seq<map<string, Cell>>>,
                         bibRows: Option<seq<map<string, Cell>>>) returns (r: Result<Unit>)
    requires PlainFields(records[..])
    modifies records
    ensures var changed := ChangedRows(csvRows, bibRows);
      && (changed.Err? && records.Length > 0 ==> r == Err(changed.error) && records[..] == old(records[..]))
      && (changed.Err? && records.Length == 0 ==> r == Ok(()))
      && (changed.Ok? && records.Length > 0 && Matching(changed.value, []).Err? ==>
            r == Err(KeyError("colrev_origin")) && records[..] == old(records[..]))
      && (changed.Ok? && (records.Length == 0 || Matching(changed.value, []).Ok?) ==>
            r == Ok(()) && forall j :: 0 <= j < records.Length ==> records[j] == Applied(old(records[j]), changed.value))
  {
    var changed := ChangedRows(csvRows, bibRows);
    if changed.Err? {
      if records.Length > 0 {
        return Err(changed.error);
      }
      return Ok(());
    }
    var rows := changed.value;
    ghost var original := records[..];
    ghost var f := x => Applied(x, rows);
    AppliedUpToEnds(original, f);
    for i := 0 to records.Length
      invariant records[..] == AppliedUpTo(original, f, i)
      invariant i > 0 ==> Matching(rows, []).Ok?
    {
      var record := records[i];
      assert record == original[i];
      var m := FindMatching(rows, record.origin);
      MatchingErrAnyOrigin(rows, record.origin);
      if m.Err? {
        return Err(m.error);
      }
      AppliedUpToStep(original, f, i);
      if |m.value| == 1 {
        var fields := ApplyRow(record.fields, m.value[0]);
        records[i] := record.(fields := fields);
      } else {
        records[i] := record;
      }
    }
    AppliedUpToEnds(original, f);
    r := Ok(());
  }

  /** Whether matching fails does not depend on the origin looked for. */
  lemma MatchingErrAnyOrigin(changed: seq<map<string, Cell>>, origin: seq<string>)
    ensures Matching(changed, origin).Err? <==> Matching(changed, []).Err?
  {
  }
}
