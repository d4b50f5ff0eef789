/**
 * The EBSCOHost search source: the heuristic that recognises its BibTeX exports, and the
 * operations it leaves as they are.
 */
module EbscoHost {
  import opened Common

  const EntryStart := "\n@"
  const Host := "search.ebscohost.com"

  /**
   * heuristic: 1.0 when the data holds more than one entry start "\n@" and the EBSCOHost
   * address occurs at least as often as entry starts; 0.0 otherwise.
   */
  function Heuristic(data: string): (r: real)
    ensures r == 0.0 || r == 1.0
    ensures r == 1.0 <==> CountOcc(data, EntryStart) > 1 && CountOcc(data, Host) >= CountOcc(data, EntryStart)
  {
    if CountOcc(data, EntryStart) > 1 && CountOcc(data, Host) >= CountOcc(data, EntryStart) then 1.0 else 0.0
  }

  /** A text that never starts an entry on a new line is not recognised. */
  lemma HeuristicWithoutEntries(data: string)
    requires !Contains(data, EntryStart)
    ensures Heuristic(data) == 0.0
  {
    CountOccAbsent(data, EntryStart);
  }

  /** A recognised text names the EBSCOHost address. */
  lemma RecognisedNamesHost(data: string)
    requires Heuristic(data) == 1.0
    ensures Contains(data, Host)
  {
    CountOccPresent(data, Host);
  }

  /** A text that never names the EBSCOHost address is not recognised. */
  lemma HeuristicWithoutHost(data: string)
    requires !Contains(data, Host)
    ensures Heuristic(data) == 0.0
  {
    CountOccAbsent(data, Host);
  }

  /** get_masterdata, load_fixes and prepare of this source return their input. */
  function GetMasterdata(record: Record): (r: Record)
    ensures r == record
  {
    record
  }

  function LoadFixes(records: map<string, Record>): (r: map<string, Record>)
    ensures r == records
  {
    records
  }

  function Prepare(record: Record): (r: Record)
    ensures r == record
  {
    record
  }
}
