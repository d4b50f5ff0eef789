/**
 * RIS entries as the RIS loader hands them to the source-specific fixes: a dict from
 * field name to a text value or a list of texts (authors, keywords, …).
 */
module Ris {
  import opened Common

  datatype RisValue = Text(text: string) | Items(items: seq<string>)

  type Entry = map<string, RisValue>

  const TypeKey := "type_of_reference"

  /** entry[to] = entry.pop(from) */
  function Move(e: Entry, from: string, to: string): (r: Entry)
    requires from in e
    ensures to in r && r[to] == e[from]
    ensures from != to ==> from !in r
    ensures forall k :: k != from && k != to ==> (k in r <==> k in e)
    ensures forall k :: k != from && k != to && k in e ==> r[k] == e[k]
  {
    (e - {from})[to := e[from]]
  }

  /** Moving a value to a key the entry lacks renames the key: no value is lost or added. */
  lemma MoveToAbsentRenames(e: Entry, from: string, to: string)
    requires from in e && to !in e
    ensures |Move(e, from, to).Keys| == |e.Keys|
    ensures Move(e, from, to).Values == e.Values
  {
    var r := Move(e, from, to);
    assert r.Keys == e.Keys - {from} + {to};
    forall v | v in e.Values
      ensures v in r.Values
    {
      var k :| k in e && e[k] == v;
      if k == from {
        assert r[to] == v;
      } else {
        assert r[k] == v;
      }
    }
    forall v | v in r.Values
      ensures v in e.Values
    {
      var k :| k in r && r[k] == v;
      if k == to {
        assert e[from] == v;
      } else {
        assert e[k] == v;
      }
    }
  }

  /** The index of the first entry satisfying p, or the number of entries if none does. */
  function FirstWhere(s: seq<Entry>, p: Entry -> bool): (r: nat)
    ensures r <= |s|
    ensures forall j :: 0 <= j < r ==> !p(s[j])
    ensures r < |s| ==> p(s[r])
  {
    if |s| == 0 then 0
    else if p(s[0]) then 0
    else
      var k := FirstWhere(s[1..], p);
      assert forall j :: 1 <= j < k + 1 ==> s[j] == s[1..][j - 1];
      k + 1
  }

  /** validate_source of the RIS-file sources: a query_file parameter naming an existing file. */
  function ValidateQueryFile(params: map<string, string>, isFile: string -> bool): (r: Result<Unit>)
    ensures r.Ok? <==> "query_file" in params && isFile(params["query_file"])
    ensures r.Err? ==> r.error.InvalidQueryException?
  {
    if "query_file" !in params then Err(InvalidQueryException("Source missing query_file search_parameter"))
    else if !isFile(params["query_file"]) then Err(InvalidQueryException("File does not exist: query_file"))
    else Ok(())
  }

  /** A missing parameter is reported before the file system is consulted. */
  lemma MissingQueryFileFirst(params: map<string, string>, isFile: string -> bool)
    requires "query_file" !in params
    ensures ValidateQueryFile(params, isFile) == Err(InvalidQueryException("Source missing query_file search_parameter"))
  {
  }
}
