/**
 * The Europe PMC search source: the conversion of a search result (an XML element) into a
 * record, the selection of the most similar result, the guards of get_masterdata, the
 * heuristic, add_endpoint, validate_source and prepare.
 */
module EuropePmc {
  import opened Common

  const SourceUrl := "https://www.ebi.ac.uk/europepmc/webservices/rest/article/"
  const RestSearchUrl := "https://www.ebi.ac.uk/europepmc/webservices/rest/search?query="
  const WebSearchUrl := "https://europepmc.org/search?query="

  // ---------------------------------------------------------------------------
  // A search result

  /** A child element of a result: its tag and its text. */
  datatype Node = Node(tag: string, text: string)

  /** The text of the last child with the given tag, "" when there is none. */
  function LastText(item: seq<Node>, tag: string): (r: string)
    ensures r == "" || exists i :: 0 <= i < |item| && item[i].tag == tag && item[i].text == r
    ensures (forall i :: 0 <= i < |item| ==> item[i].tag != tag) ==> r == ""
  {
    if |item| == 0 then ""
    else if item[|item| - 1].tag == tag then item[|item| - 1].text
    else LastText(item[..|item| - 1], tag)
  }

  /** No child after the position found carries the tag. */
  lemma {:induction false} LastTextIsLast(item: seq<Node>, tag: string, i: nat)
    requires i < |item| && item[i].tag == tag
    requires forall j :: i < j < |item| ==> item[j].tag != tag
    ensures LastText(item, tag) == item[i].text
    decreases |item|
  {
    if i < |item| - 1 {
      LastTextIsLast(item[..|item| - 1], tag, i);
    }
  }

  /** __get_string_from_item: the loop overwrites the result with the text of every matching child. */
  method GetStringFromItem(item: seq<Node>, tag: string) returns (r: string)
    ensures r == LastText(item, tag)
  {
    r := "";
    var i := 0;
    while i < |item|
      invariant 0 <= i <= |item|
      invariant r == LastText(item[..i], tag)
    {
      if item[i].tag == tag {
        r := item[i].text;
      }
      assert item[..i + 1][..i] == item[..i];
      i := i + 1;
    }
    assert item[..i] == item;
  }

  /** The dict __europe_pmc_xml_to_record fills before the comprehension filters it. */
  function RawRecord(item: seq<Node>): (r: map<string, string>)
    ensures "ENTRYTYPE" in r && "europe_pmc_id" in r && "ID" in r
  {
    var source := LastText(item, "source");
    var id := LastText(item, "id");
    map[
      "ENTRYTYPE" := "article",
      "author" := LastText(item, "authorString"),
      "journal" := LastText(item, "journalTitle"),
      "doi" := LastText(item, "doi"),
      "title" := LastText(item, "title"),
      "year" := LastText(item, "pubYear"),
      "volume" := LastText(item, "journalVolume"),
      "number" := LastText(item, "issue"),
      "pmid" := LastText(item, "pmid"),
      "epmc_source" := source,
      "epmc_id" := id,
      "europe_pmc_id" := source + "/" + id,
      "ID" := source + "/" + id
    ]
  }

  /** __europe_pmc_xml_to_record: the filled dict without epmc_id, epmc_source and empty values. */
  function XmlToRecord(item: seq<Node>): (r: map<string, string>)
    ensures "epmc_id" !in r && "epmc_source" !in r
    ensures forall k :: k in r ==> r[k] != ""
  {
    var raw := RawRecord(item);
    map k | k in raw && k != "epmc_id" && k != "epmc_source" && raw[k] != "" :: raw[k]
  }

  /** Every result is an article whose ID is its Europe PMC id, source "/" id. */
  lemma XmlToRecordIds(item: seq<Node>)
    ensures var r := XmlToRecord(item);
      var id := LastText(item, "source") + "/" + LastText(item, "id");
      && "ENTRYTYPE" in r && r["ENTRYTYPE"] == "article"
      && "europe_pmc_id" in r && r["europe_pmc_id"] == id
      && "ID" in r && r["ID"] == id
  {
    var raw := RawRecord(item);
    assert raw["ENTRYTYPE"] == "article";
    assert raw["europe_pmc_id"] == raw["ID"] == LastText(item, "source") + "/" + LastText(item, "id");
    assert raw["europe_pmc_id"] != "";
  }

  /** A result has a title exactly when its last title element has a non-empty text. */
  lemma XmlToRecordTitle(item: seq<Node>)
    ensures "title" in XmlToRecord(item) <==> LastText(item, "title") != ""
    ensures "title" in XmlToRecord(item) ==> XmlToRecord(item)["title"] == LastText(item, "title")
  {
    assert RawRecord(item)["title"] == LastText(item, "title");
  }

  // ---------------------------------------------------------------------------
  // The most similar result

  /** The records of the results, in order. */
  function ConvertAll(results: seq<seq<Node>>): (r: seq<map<string, string>>)
    ensures |r| == |results|
  {
    if |results| == 0 then [] else [XmlToRecord(results[0])] + ConvertAll(results[1..])
  }

  lemma {:induction false} ConvertAllAt(results: seq<seq<Node>>, i: nat)
    requires i < |results|
    ensures ConvertAll(results)[i] == XmlToRecord(results[i])
  {
    if i > 0 {
      ConvertAllAt(results[1..], i - 1);
    }
  }

  /** The candidate at i is the one kept: titled, with that similarity, and strictly above every titled candidate before it. */
  predicate SelectedAt(record: Record, cands: seq<map<string, string>>, similarity: (Record, map<string, string>) -> real,
                       i: nat, best: real, bestRecord: map<string, string>)
    requires i < |cands|
  {
    && "title" in cands[i] && bestRecord == cands[i] && best == similarity(record, bestRecord)
    && (forall j :: 0 <= j < i && "title" in cands[j] ==> similarity(record, cands[j]) < best)
  }

  /**
   * The loop of __europe_pmc_query in most-similar mode, over the records of the results
   * (ConvertAll): results without a title are skipped, and a result replaces the best so far
   * only when it is strictly more similar, starting from 0.0. `similarity` is the weighted
   * title and container similarity.
   */
  method MostSimilar(record: Record, cands: seq<map<string, string>>, similarity: (Record, map<string, string>) -> real)
    returns (best: real, bestRecord: map<string, string>)
    ensures bestRecord == map[] <==> forall i :: 0 <= i < |cands| && "title" in cands[i] ==> similarity(record, cands[i]) <= 0.0
    ensures bestRecord == map[] ==> best == 0.0
    ensures bestRecord != map[] ==> exists i :: 0 <= i < |cands| && SelectedAt(record, cands, similarity, i, best, bestRecord)
    ensures forall i :: 0 <= i < |cands| && "title" in cands[i] ==> similarity(record, cands[i]) <= best
  {
    ghost var k := 0;
    best, bestRecord := 0.0, map[];
    var i := 0;
    while i < |cands|
      invariant 0 <= i <= |cands|
      invariant bestRecord == map[] <==> forall j :: 0 <= j < i && "title" in cands[j] ==> similarity(record, cands[j]) <= 0.0
      invariant bestRecord == map[] ==> best == 0.0
      invariant bestRecord != map[] ==> 0 <= k < i && SelectedAt(record, cands, similarity, k, best, bestRecord)
      invariant forall j :: 0 <= j < i && "title" in cands[j] ==> similarity(record, cands[j]) <= best
    {
      var retrieved := cands[i];
      if "title" in retrieved {
        var s := similarity(record, retrieved);
        if best < s {
          best, bestRecord, k := s, retrieved, i;
        }
      }
      i := i + 1;
    }
    if bestRecord != map[] {
      assert SelectedAt(record, cands, similarity, k, best, bestRecord);
    }
  }


  // ---------------------------------------------------------------------------
  // get_masterdata

  /**
   * The query result of the retries: attempt k (from 0) yields the most similar record, or
   * None when its request fails; the first attempt with a result stops the retries.
   */
  function FirstResult(attempt: nat -> Option<map<string, string>>, from: nat, maxRetries: nat): (r: Option<map<string, string>>)
    ensures r.Some? ==> exists k :: from <= k < maxRetries && attempt(k) == r
    ensures r.None? ==> forall k :: from <= k < maxRetries ==> attempt(k).None?
    decreases maxRetries - from
  {
    if from >= maxRetries then None
    else if attempt(from).Some? then attempt(from)
    else FirstResult(attempt, from + 1, maxRetries)
  }

  /**
   * get_masterdata: only records with a title longer than 35 characters are looked up; an
   * empty result, a failed lookup, or a similarity not above the threshold leave the record
   * as it is; otherwise `merge` (None when the feed cannot identify the record or the merge
   * is invalid) gives the prepared record. Without any retry the result list is never bound.
   */
  function GetMasterdata(record: Record, attempt: nat -> Option<map<string, string>>, maxRetries: nat,
                         similarity: (Record, map<string, string>) -> real, threshold: real,
                         merge: (Record, map<string, string>) -> Option<Record>): (r: Result<Record>)
    ensures |Get(record.fields, "title", "")| <= 35 ==> r == Ok(record)
    ensures r.Err? <==> |Get(record.fields, "title", "")| > 35 && maxRetries == 0
    ensures r.Err? ==> r.error == UnboundLocalError("retrieved_records")
    ensures r.Ok? && r.value != record ==>
      && |Get(record.fields, "title", "")| > 35
      && var found := FirstResult(attempt, 0, maxRetries);
      && found.Some? && found.value != map[]
      && similarity(record, found.value) > threshold
      && merge(record, found.value) == Some(r.value)
    ensures var found := FirstResult(attempt, 0, maxRetries);
      && |Get(record.fields, "title", "")| > 35 && maxRetries > 0
      && found.Some? && found.value != map[]
      && similarity(record, found.value) > threshold
      && merge(record, found.value).Some?
      ==> r == Ok(merge(record, found.value).value)
  {
    if |Get(record.fields, "title", "")| <= 35 then Ok(record)
    else if maxRetries == 0 then Err(UnboundLocalError("retrieved_records"))
    else
      match FirstResult(attempt, 0, maxRetries)
      case None => Ok(record)
      case Some(found) =>
        if found == map[] then Ok(record)
        else if similarity(record, found) > threshold then
          match merge(record, found)
          case None => Ok(record)
          case Some(merged) => Ok(merged)
        else Ok(record)
  }

  /** When no result scores above 0 the query yields an empty record, and the record stays as it is. */
  lemma NothingSimilarKeepsRecord(record: Record, attempt: nat -> Option<map<string, string>>, maxRetries: nat,
                                  similarity: (Record, map<string, string>) -> real, threshold: real,
                                  merge: (Record, map<string, string>) -> Option<Record>)
    requires maxRetries > 0 && attempt(0) == Some(map[])
    ensures GetMasterdata(record, attempt, maxRetries, similarity, threshold, merge) == Ok(record)
      || GetMasterdata(record, attempt, maxRetries, similarity, threshold, merge) == Err(UnboundLocalError("retrieved_records"))
  {
  }

  // ---------------------------------------------------------------------------
  // heuristic, add_endpoint, validate_source, prepare

  /** heuristic: 1.0 for data naming europe_pmc_id, or linking europepmc.org at least once per entry. */
  function Heuristic(data: string): (r: real)
    ensures r == 0.0 || r == 1.0
    ensures r == 1.0 <==> (Contains(data, "europe_pmc_id")
      || (Contains(data, "https://europepmc.org") && CountOcc(data, "https://europepmc.org") >= CountOcc(data, "\n@")))
  {
    var byId := if Contains(data, "europe_pmc_id") then 1.0 else 0.0;
    if Contains(data, "https://europepmc.org") && CountOcc(data, "https://europepmc.org") >= CountOcc(data, "\n@") then 1.0
    else byId
  }

  /** Data without any entry start and with a europepmc.org link is recognised. */
  lemma LinkWithoutEntriesIsRecognised(data: string)
    requires Contains(data, "https://europepmc.org") && !Contains(data, "\n@")
    ensures Heuristic(data) == 1.0
  {
    CountOccAbsent(data, "\n@");
  }

  /** A Europe PMC search source: its endpoint, its file and its search parameters. */
  datatype SearchSource = SearchSource(endpoint: string, filename: string, searchParameters: map<string, string>)

  /**
   * add_endpoint: a europepmc.org search url becomes a REST search url. `host` is the host
   * name urlparse finds in the query, `filename` the unique file name the search operation
   * gives.
   */
  function AddEndpoint(query: string, host: Option<string>, filename: string): (r: Result<SearchSource>)
    ensures r.Err? <==> !(host.Some? && EndsWith(host.value, "europepmc.org"))
    ensures r.Err? ==> r.error == NotImplementedError
    ensures r.Ok? ==> (r.value.endpoint == "colrev.europe_pmc" && r.value.filename == filename
      && r.value.searchParameters == map["query" := RestSearchUrl + Replace(query, WebSearchUrl, "")])
  {
    if host.Some? && EndsWith(host.value, "europepmc.org") then
      Ok(SearchSource("colrev.europe_pmc", filename, map["query" := RestSearchUrl + Replace(query, WebSearchUrl, "")]))
    else Err(NotImplementedError)
  }

  /** A web search url without the prefix elsewhere becomes the REST url with the same query. */
  lemma AddEndpointSwapsPrefix(q: string, filename: string)
    requires !Contains(q, WebSearchUrl)
    ensures AddEndpoint(WebSearchUrl + q, Some("europepmc.org"), filename).Ok?
    ensures AddEndpoint(WebSearchUrl + q, Some("europepmc.org"), filename).value.searchParameters["query"] == RestSearchUrl + q
  {
    ReplaceAtStart(WebSearchUrl, q, "");
    ReplaceAbsent(q, WebSearchUrl, "");
    assert "" + q == q;
  }

  /** validate_source: a query parameter is required. */
  function ValidateSource(source: SearchSource): (r: Result<Unit>)
    ensures r.Ok? <==> "query" in source.searchParameters
    ensures r.Err? ==> r.error == InvalidQueryException("Query required in search_parameters")
  {
    if "query" !in source.searchParameters then Err(InvalidQueryException("Query required in search_parameters"))
    else Ok(())
  }

  /** prepare reads author and title (the stripped values are discarded): the record comes back unchanged. */
  function Prepare(record: Record): (r: Result<Record>)
    ensures r.Ok? <==> "author" in record.fields && "title" in record.fields
    ensures r.Ok? ==> r.value == record
    ensures "author" !in record.fields ==> r == Err(KeyError("author"))
  {
    if "author" !in record.fields then Err(KeyError("author"))
    else if "title" !in record.fields then Err(KeyError("title"))
    else Ok(record)
  }
}
