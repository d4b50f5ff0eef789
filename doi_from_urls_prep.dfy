/**
 * The DOI-from-URLs preparation: a record without a doi but with a url (or a fulltext link)
 * gets the DOI that occurs most often on that page, provided the metadata registered for
 * that DOI is similar enough to the record.
 */
module DoiFromUrlsPrep {
  import opened Common

  // ---------------------------------------------------------------------------
  // collections.Counter(matches).most_common()[0]

  /** The position of the first occurrence of x. */
  function FirstIndex(s: seq<string>, x: string): (i: nat)
    requires x in s
    ensures i < |s| && s[i] == x
    ensures forall j :: 0 <= j < i ==> s[j] != x
  {
    if s[0] == x then 0
    else
      var k := FirstIndex(s[1..], x);
      assert forall j :: 1 <= j < k + 1 ==> s[j] == s[1..][j - 1];
      k + 1
  }

  /** Scanning from i on with the most frequent match among s[..i] so far. */
  function MostCommonFrom(s: seq<string>, i: nat, best: string): string
    requires i <= |s|
    decreases |s| - i
  {
    if i == |s| then best
    else MostCommonFrom(s, i + 1, if multiset(s)[s[i]] > multiset(s)[best] then s[i] else best)
  }

  /** The most frequent match; among equally frequent ones, the one seen first. */
  function MostCommon(s: seq<string>): string
    requires |s| > 0
  {
    MostCommonFrom(s, 1, s[0])
  }

  /** best is the answer for the prefix s[..i]. */
  predicate MostCommonUpTo(s: seq<string>, i: nat, best: string)
    requires i <= |s|
  {
    && best in s[..i]
    && (forall j :: 0 <= j < i ==> multiset(s)[s[j]] <= multiset(s)[best])
    && (forall j :: 0 <= j < FirstIndex(s, best) ==> multiset(s)[s[j]] < multiset(s)[best])
  }

  lemma {:induction false} MostCommonFromIsMostCommon(s: seq<string>, i: nat, best: string)
    requires i <= |s| && MostCommonUpTo(s, i, best)
    ensures MostCommonUpTo(s, |s|, MostCommonFrom(s, i, best))
    decreases |s| - i
  {
    if i < |s| {
      assert s[..i + 1] == s[..i] + [s[i]];
      if multiset(s)[s[i]] > multiset(s)[best] {
        assert FirstIndex(s, s[i]) == i;
        assert MostCommonUpTo(s, i + 1, s[i]);
        MostCommonFromIsMostCommon(s, i + 1, s[i]);
      } else {
        assert MostCommonUpTo(s, i + 1, best);
        MostCommonFromIsMostCommon(s, i + 1, best);
      }
    }
  }

  /**
   * The chosen DOI is a match that occurs at least as often as any other, and every match
   * seen before its first occurrence occurs strictly less often (ties go to the first seen).
   */
  lemma MostCommonIsFirstMostFrequent(s: seq<string>)
    requires |s| > 0
    ensures var d := MostCommon(s);
      && d in s
      && (forall x :: x in s ==> multiset(s)[x] <= multiset(s)[d])
      && (forall j :: 0 <= j < FirstIndex(s, d) ==> multiset(s)[s[j]] < multiset(s)[d])
  {
    assert s[..1] == [s[0]];
    assert FirstIndex(s, s[0]) == 0;
    MostCommonFromIsMostCommon(s, 1, s[0]);
    assert s[..|s|] == s;
    var d := MostCommon(s);
    forall x | x in s
      ensures multiset(s)[x] <= multiset(s)[d]
    {
      var j :| 0 <= j < |s| && s[j] == x;
    }
  }

  /** The DOI the page yields: none without matches, the only one, or the most common one. */
  function ChosenDoi(matches: seq<string>): (r: Option<string>)
    ensures r.None? <==> |matches| == 0
    ensures r.Some? ==> r.value in matches
  {
    if |matches| == 0 then None
    else if |matches| == 1 then Some(matches[0])
    else
      MostCommonIsFirstMostFrequent(matches);
      Some(MostCommon(matches))
  }

  /** A single match and the most common match agree: the shortcut changes nothing. */
  lemma ChosenDoiIsMostCommon(matches: seq<string>)
    requires |matches| > 0
    ensures ChosenDoi(matches) == Some(MostCommon(matches))
  {
    if |matches| == 1 {
      assert MostCommon(matches) == MostCommonFrom(matches, 1, matches[0]);
    }
  }

  // ---------------------------------------------------------------------------
  // prepare

  /** The guard: nothing to look up without a url or fulltext, nothing to do with a doi. */
  predicate Skipped(record: Record)
  {
    ("url" !in record.fields && "fulltext" !in record.fields) || "doi" in record.fields
  }

  /** record.data.get("url", record.data.get("fulltext", "NA")) */
  function RequestUrl(record: Record): (url: string)
    ensures "url" in record.fields ==> url == record.fields["url"]
    ensures "url" !in record.fields && "fulltext" in record.fields ==> url == record.fields["fulltext"]
  {
    Get(record.fields, "url", Get(record.fields, "fulltext", "NA"))
  }

  /** The record to look the DOI up with: the DOI in upper case and the record's ID. */
  function Candidate(doi: string, id: string): (r: Record)
    ensures r.fields.Keys == {"doi", "ID"}
    ensures r.fields["doi"] == Upper(doi) && r.fields["ID"] == id
  {
    Record(map["doi" := Upper(doi), "ID" := id], [], map[])
  }

  /**
   * prepare. `page(url)` is the list of DOI-pattern matches in the page the url points to,
   * None when the request fails; `retrieve` completes a candidate from the DOI registry
   * (None when it cannot be parsed); `merge` merges the candidate into the record (None on
   * an invalid merge). Those three errors leave the record as it is; a record without an ID
   * raises KeyError once a DOI is chosen.
   */
  function Prepare(record: Record, page: string -> Option<seq<string>>, retrieve: Record -> Option<Record>,
                   similarity: (Record, Record) -> real, threshold: real,
                   merge: (Record, Record, string) -> Option<Record>): (r: Result<Record>)
    ensures Skipped(record) ==> r == Ok(record)
    ensures r.Err? <==>
      !Skipped(record) && page(RequestUrl(record)).Some? && |page(RequestUrl(record)).value| > 0
      && "ID" !in record.fields
    ensures r.Err? ==> r.error == KeyError("ID")
    ensures r.Ok? && r.value != record ==>
      && !Skipped(record) && page(RequestUrl(record)).Some?
      && var doi := ChosenDoi(page(RequestUrl(record)).value);
      && doi.Some? && "ID" in record.fields
      && var found := retrieve(Candidate(doi.value, record.fields["ID"]));
      && found.Some? && similarity(record, found.value) >= threshold
      && merge(record, found.value, RequestUrl(record)) == Some(r.value)
    ensures !Skipped(record) && page(RequestUrl(record)).Some? ==>
      var doi := ChosenDoi(page(RequestUrl(record)).value);
      doi.Some? && "ID" in record.fields ==>
      var found := retrieve(Candidate(doi.value, record.fields["ID"]));
      found.Some? && similarity(record, found.value) >= threshold
      && merge(record, found.value, RequestUrl(record)).Some?
      ==> r == Ok(merge(record, found.value, RequestUrl(record)).value)
  {
    if Skipped(record) then Ok(record)
    else
      var url := RequestUrl(record);
      match page(url)
      case None => Ok(record)
      case Some(matches) =>
        match ChosenDoi(matches)
        case None => Ok(record)
        case Some(doi) =>
          if "ID" !in record.fields then Err(KeyError("ID"))
          else
            match retrieve(Candidate(doi, record.fields["ID"]))
            case None => Ok(record)
            case Some(found) =>
              if similarity(record, found) < threshold then Ok(record)
              else
                match merge(record, found, url)
                case None => Ok(record)
                case Some(merged) => Ok(merged)
  }

  /** A url is looked up instead of the fulltext link whenever the record has both. */
  lemma UrlBeforeFulltext(record: Record, page: string -> Option<seq<string>>, retrieve: Record -> Option<Record>,
                          similarity: (Record, Record) -> real, threshold: real,
                          merge: (Record, Record, string) -> Option<Record>)
    requires "url" in record.fields && "fulltext" in record.fields
    requires page(record.fields["url"]) == None
    ensures Prepare(record, page, retrieve, similarity, threshold, merge) == Ok(record)
  {
  }
}
