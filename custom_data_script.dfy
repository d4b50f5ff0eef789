/**
 * The template of a custom data endpoint: its default setup and how it marks every record
 * of the synthesized-record status matrix as synthesized by this endpoint.
 */
module CustomDataScript {

  /** The setup a new custom data endpoint starts from. */
  datatype Setup = Setup(endpoint: string, customDataFormatVersion: string, config: map<string, string>)

  function GetDefaultSetup(): (r: Setup)
    ensures r.endpoint == "CustomDataFormat" && r.customDataFormatVersion == "0.1" && r.config == map[]
  {
    Setup("CustomDataFormat", "0.1", map[])
  }

  /** The synthesized-record status matrix: record ID -> endpoint -> synthesized. */
  class StatusMatrix {
    var rows: map<string, map<string, bool>>

    constructor(rows: map<string, map<string, bool>>)
      ensures this.rows == rows
    {
      this.rows := rows;
    }
  }

  /**
   * Every row marked as synthesized by the endpoint: the same rows, in each the endpoint
   * true and every other endpoint keeping its entry.
   */
  function Synthesized(rows: map<string, map<string, bool>>, endpoint: string): (r: map<string, map<string, bool>>)
    ensures r.Keys == rows.Keys
    ensures forall id :: id in r ==> endpoint in r[id] && r[id][endpoint]
    ensures forall id, e :: id in r && e != endpoint ==> (e in r[id] <==> e in rows[id])
    ensures forall id, e :: id in r && e != endpoint && e in rows[id] ==> r[id][e] == rows[id][e]
  {
    map id | id in rows :: rows[id][endpoint := true]
  }

  /** Marking twice is marking once. */
  lemma SynthesizedIdempotent(rows: map<string, map<string, bool>>, endpoint: string)
    ensures Synthesized(Synthesized(rows, endpoint), endpoint) == Synthesized(rows, endpoint)
  {
    var once := Synthesized(rows, endpoint);
    forall id | id in once
      ensures once[id][endpoint := true] == once[id]
    {
      assert once[id][endpoint := true].Keys == once[id].Keys;
    }
  }

  /** update_record_status_matrix: every row of the matrix, one after the other, gets the endpoint set to True. */
  method UpdateRecordStatusMatrix(matrix: StatusMatrix, endpoint: string)
    modifies matrix
    ensures matrix.rows == Synthesized(old(matrix.rows), endpoint)
  {
    ghost var original := matrix.rows;
    var todo := matrix.rows.Keys;
    while todo != {}
      invariant todo <= original.Keys
      invariant matrix.rows.Keys == original.Keys
      invariant forall id :: id in todo ==> matrix.rows[id] == original[id]
      invariant forall id :: id in original && id !in todo ==> matrix.rows[id] == original[id][endpoint := true]
      decreases todo
    {
      var id :| id in todo;
      matrix.rows := matrix.rows[id := matrix.rows[id][endpoint := true]];
      todo := todo - {id};
    }
  }
}
