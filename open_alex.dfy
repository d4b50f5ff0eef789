/**
 * The OpenAlex metadata source: how a work returned by the OpenAlex API becomes a record
 * (identifier, title, entry type, journal, bibliographic fields, the author list), the
 * corrections applied to it, and the guard of get_masterdata.
 */
module OpenAlex {
  import opened Common

  const SourceIdentifier := "openalex_id"
  const IdPrefix := "https://openalex.org/"
  const DoiPrefix := "HTTPS://DOI.ORG/"

  /** A JSON value that may be absent, null or a text. */
  datatype JsonText = Missing | Null | Text(value: string)

  /** An entry of authorships: one without an "author" key, or an author with its display_name (None when absent or null). */
  datatype Authorship = NoAuthor | Author(displayName: Option<string>)

  /** The biblio object of a work; None stands for a key that is absent or null. */
  datatype Biblio = Biblio(volume: Option<string>, issue: Option<string>, firstPage: Option<string>, lastPage: Option<string>)

  /**
   * A work as the API returns it. `sourceName` is the display_name of primary_location.source
   * when both primary_location and its source are present and not null; the optional keys are
   * None when absent or null.
   */
  datatype Item = Item(id: string, title: JsonText, kind: string, sourceName: Option<string>,
                       publicationYear: Option<int>, language: Option<string>, isRetracted: Option<bool>,
                       doi: Option<string>, citedByCount: int, biblio: Biblio, authorships: seq<Authorship>)

  /**
   * The services the conversion calls: format_author_field, and the language service, which
   * maps a language to its ISO 639-3 code or fails (None) for an unknown language.
   */
  datatype Services = Services(formatAuthor: string -> string, unifyLanguage: string -> Option<string>)

  // ---------------------------------------------------------------------------
  // Authors

  /** One step of the author loop: the first name found starts the text, later ones follow " and ". */
  function AddAuthor(acc: string, name: string): string
  {
    if acc == "" then name else acc + " and " + name
  }

  /** The authorship counts: it has an author with a display name. */
  predicate Named(a: Authorship)
  {
    a.Author? && a.displayName.Some?
  }

  /** The text the author loop builds over the authorships. */
  function AuthorString(s: seq<Authorship>, formatAuthor: string -> string): string
    decreases |s|
  {
    if |s| == 0 then ""
    else
      var acc := AuthorString(s[..|s| - 1], formatAuthor);
      var a := s[|s| - 1];
      if Named(a) then AddAuthor(acc, formatAuthor(a.displayName.value)) else acc
  }

  /** The formatted names of the authorships that count, in order. */
  function FormattedNames(s: seq<Authorship>, formatAuthor: string -> string): (r: seq<string>)
    ensures |r| <= |s|
    decreases |s|
  {
    if |s| == 0 then []
    else
      var names := FormattedNames(s[..|s| - 1], formatAuthor);
      var a := s[|s| - 1];
      if Named(a) then names + [formatAuthor(a.displayName.value)] else names
  }

  /**
   * When no formatted name is empty, the loop joins the formatted names of the authorships
   * that count with " and ", so the text is empty exactly when none counts.
   */
  lemma {:induction false} AuthorStringIsJoin(s: seq<Authorship>, formatAuthor: string -> string)
    requires forall i :: 0 <= i < |s| && Named(s[i]) ==> formatAuthor(s[i].displayName.value) != ""
    ensures AuthorString(s, formatAuthor) == Join(" and ", FormattedNames(s, formatAuthor))
    ensures AuthorString(s, formatAuthor) == "" <==> forall i :: 0 <= i < |s| ==> !Named(s[i])
    ensures FormattedNames(s, formatAuthor) == [] <==> forall i :: 0 <= i < |s| ==> !Named(s[i])
    decreases |s|
  {
    if |s| > 0 {
      var init := s[..|s| - 1];
      assert forall i :: 0 <= i < |init| ==> init[i] == s[i];
      AuthorStringIsJoin(init, formatAuthor);
      var names := FormattedNames(init, formatAuthor);
      var acc := AuthorString(init, formatAuthor);
      var a := s[|s| - 1];
      if Named(a) {
        var x := formatAuthor(a.displayName.value);
        assert x != "";
        JoinSnoc(" and ", names, x);
        assert (acc == "") == (|names| == 0);
        assert !(forall i :: 0 <= i < |s| ==> !Named(s[i])) by {
          assert Named(s[|s| - 1]);
        }
      } else {
        assert (forall i :: 0 <= i < |s| ==> !Named(s[i])) <==> (forall i :: 0 <= i < |init| ==> !Named(init[i]));
      }
    }
  }

  /** The record with the author text set, when the text is not empty. */
  function WithAuthor(d: map<string, string>, s: seq<Authorship>, formatAuthor: string -> string): (r: map<string, string>)
  {
    var a := AuthorString(s, formatAuthor);
    if a == "" then d else d["author" := a]
  }

  /**
   * __set_author_from_item: the loop over the authorships skips those without an author or
   * without a display name and accumulates the formatted names; a non-empty result is stored
   * as author.
   */
  method SetAuthorFromItem(d: map<string, string>, authorships: seq<Authorship>, formatAuthor: string -> string)
    returns (r: map<string, string>)
    ensures r == WithAuthor(d, authorships, formatAuthor)
  {
    var retStr := "";
    for i := 0 to |authorships|
      invariant retStr == AuthorString(authorships[..i], formatAuthor)
    {
      assert authorships[..i + 1][..i] == authorships[..i];
      var author := authorships[i];
      if author.Author? && author.displayName.Some? {
        var authorString := formatAuthor(author.displayName.value);
        if retStr == "" {
          retStr := authorString;
        } else {
          retStr := retStr + " and " + authorString;
        }
      }
    }
    assert authorships[..|authorships|] == authorships;
    r := d;
    if retStr != "" {
      r := r["author" := retStr];
    }
  }

  // ---------------------------------------------------------------------------
  // A work as a record

  /** The identifier, the title, the entry type and the journal. */
  function Header(item: Item): map<string, string>
  {
    var d := map[SourceIdentifier := Replace(item.id, IdPrefix, "")];
    var d := match item.title
      case Missing => d["title" := ""]
      case Null => d
      case Text(t) => d["title" := t];
    if item.kind == "journal-article" then
      var d := d["ENTRYTYPE" := "article"];
      if item.sourceName.Some? then d["journal" := item.sourceName.value] else d
    else d["ENTRYTYPE" := "misc"]
  }

  /** The year, the language, the retraction flag, the doi and the citation count. */
  function Details(d: map<string, string>, item: Item): map<string, string>
  {
    var d := if item.publicationYear.Some? then d["year" := IntString(item.publicationYear.value)] else d;
    var d := if item.language.Some? then d["language" := item.language.value] else d;
    var d := if item.isRetracted == Some(true) then d["retracted" := "True"] else d;
    var d := if item.doi.Some? then d["doi" := Replace(Upper(item.doi.value), DoiPrefix, "")] else d;
    d["cited_by" := IntString(item.citedByCount)]
  }

  /** Volume, number and pages; a last page is appended to the pages, which must be there already. */
  function BiblioFields(d: map<string, string>, b: Biblio): Result<map<string, string>>
  {
    var d := if b.volume.Some? then d["volume" := b.volume.value] else d;
    var d := if b.issue.Some? then d["number" := b.issue.value] else d;
    var d := if b.firstPage.Some? then d["pages" := b.firstPage.value] else d;
    if b.lastPage.None? then Ok(d)
    else if "pages" in d then Ok(d["pages" := d["pages"] + "--" + b.lastPage.value])
    else Err(KeyError("pages"))
  }

  /** __fix_errors: a PubMed journal is removed; the language is unified, or removed when it is not a known language. */
  function FixErrors(d: map<string, string>, unifyLanguage: string -> Option<string>): map<string, string>
  {
    var d := if Get(d, "journal", "") == "PubMed" then d - {"journal"} else d;
    if "language" in d then
      match unifyLanguage(d["language"])
      case None => d - {"language"}
      case Some(code) => d["language" := code]
    else d
  }

  /** The record __parse_item_to_record makes of a work, or the KeyError it raises. */
  function Parsed(item: Item, svc: Services): Result<map<string, string>>
  {
    match BiblioFields(Details(Header(item), item), item.biblio)
    case Err(e) => Err(e)
    case Ok(d) => Ok(FixErrors(WithAuthor(d, item.authorships, svc.formatAuthor), svc.unifyLanguage))
  }

  /**
   * __parse_item_to_record: the record dict is filled field by field, the authors are added
   * and the errors are fixed.
   */
  method ParseItemToRecord(item: Item, svc: Services) returns (r: Result<map<string, string>>)
    ensures r == Parsed(item, svc)
  {
    var d := map[SourceIdentifier := Replace(item.id, IdPrefix, "")];
    match item.title {
      case Missing => d := d["title" := ""];
      case Null =>
      case Text(t) => d := d["title" := t];
    }
    if item.kind == "journal-article" {
      d := d["ENTRYTYPE" := "article"];
      if item.sourceName.Some? {
        d := d["journal" := item.sourceName.value];
      }
    } else {
      d := d["ENTRYTYPE" := "misc"];
    }
    assert d == Header(item);
    if item.publicationYear.Some? {
      d := d["year" := IntString(item.publicationYear.value)];
    }
    if item.language.Some? {
      d := d["language" := item.language.value];
    }
    if item.isRetracted == Some(true) {
      d := d["retracted" := "True"];
    }
    if item.doi.Some? {
      d := d["doi" := Replace(Upper(item.doi.value), DoiPrefix, "")];
    }
    d := d["cited_by" := IntString(item.citedByCount)];
    assert d == Details(Header(item), item);
    var b := item.biblio;
    if b.volume.Some? {
      d := d["volume" := b.volume.value];
    }
    if b.issue.Some? {
      d := d["number" := b.issue.value];
    }
    if b.firstPage.Some? {
      d := d["pages" := b.firstPage.value];
    }
    if b.lastPage.Some? {
      if "pages" !in d {
        return Err(KeyError("pages"));
      }
      d := d["pages" := d["pages"] + "--" + b.lastPage.value];
    }
    assert BiblioFields(Details(Header(item), item), b) == Ok(d);
    d := SetAuthorFromItem(d, item.authorships, svc.formatAuthor);
    if Get(d, "journal", "") == "PubMed" {
      d := d - {"journal"};
    }
    if "language" in d {
      match svc.unifyLanguage(d["language"]) {
        case None => d := d - {"language"};
        case Some(code) => d := d["language" := code];
      }
    }
    r := Ok(d);
  }

  /** The conversion fails only for a work with a last page but no first page, with KeyError("pages"). */
  lemma ParsedFails(item: Item, svc: Services)
    ensures Parsed(item, svc).Err? <==> item.biblio.lastPage.Some? && item.biblio.firstPage.None?
    ensures Parsed(item, svc).Err? ==> Parsed(item, svc).error == KeyError("pages")
  {
    var h := Header(item);
    DetailsKeeps(h, item, "pages");
  }

  // Each stage keeps the keys it does not write.

  lemma DetailsKeeps(d: map<string, string>, item: Item, k: string)
    requires k != "year" && k != "language" && k != "retracted" && k != "doi" && k != "cited_by"
    ensures k in Details(d, item) <==> k in d
    ensures k in d ==> Details(d, item)[k] == d[k]
  {
  }

  lemma BiblioFieldsKeeps(d: map<string, string>, b: Biblio, r: map<string, string>, k: string)
    requires BiblioFields(d, b) == Ok(r)
    requires k != "volume" && k != "number" && k != "pages"
    ensures k in r <==> k in d
    ensures k in d ==> r[k] == d[k]
  {
  }

  lemma WithAuthorKeeps(d: map<string, string>, s: seq<Authorship>, formatAuthor: string -> string, k: string)
    requires k != "author"
    ensures k in WithAuthor(d, s, formatAuthor) <==> k in d
    ensures k in d ==> WithAuthor(d, s, formatAuthor)[k] == d[k]
  {
  }

  lemma FixErrorsKeeps(d: map<string, string>, unifyLanguage: string -> Option<string>, k: string)
    requires k != "journal" && k != "language"
    ensures k in FixErrors(d, unifyLanguage) <==> k in d
    ensures k in d ==> FixErrors(d, unifyLanguage)[k] == d[k]
  {
  }

  /** The keys the author stage and the fixes do not touch come out as the biblio stage left them. */
  lemma AfterBiblio(item: Item, svc: Services, d: map<string, string>, r: map<string, string>, k: string)
    requires BiblioFields(Details(Header(item), item), item.biblio) == Ok(d)
    requires Parsed(item, svc) == Ok(r)
    requires k != "author" && k != "journal" && k != "language"
    ensures k in r <==> k in d
    ensures k in d ==> r[k] == d[k]
  {
    var w := WithAuthor(d, item.authorships, svc.formatAuthor);
    assert r == FixErrors(w, svc.unifyLanguage);
    WithAuthorKeeps(d, item.authorships, svc.formatAuthor, k);
    FixErrorsKeeps(w, svc.unifyLanguage, k);
  }

  /** The keys no later stage touches come out as the header stage made them. */
  lemma FromHeader(item: Item, svc: Services, r: map<string, string>, k: string)
    requires Parsed(item, svc) == Ok(r)
    requires k == SourceIdentifier || k == "title" || k == "ENTRYTYPE"
    ensures k in r <==> k in Header(item)
    ensures k in r ==> r[k] == Header(item)[k]
  {
    var h := Header(item);
    var t := Details(h, item);
    var d := BiblioFields(t, item.biblio).value;
    DetailsKeeps(h, item, k);
    BiblioFieldsKeeps(t, item.biblio, d, k);
    AfterBiblio(item, svc, d, r, k);
  }

  /** The identifier without the OpenAlex prefix, and the title: "" when absent, no title when null. */
  lemma ParsedIdAndTitle(item: Item, svc: Services, r: map<string, string>)
    requires Parsed(item, svc) == Ok(r)
    ensures SourceIdentifier in r && r[SourceIdentifier] == Replace(item.id, IdPrefix, "")
    ensures "title" in r <==> !item.title.Null?
    ensures item.title.Missing? ==> r["title"] == ""
    ensures item.title.Text? ==> r["title"] == item.title.value
  {
    FromHeader(item, svc, r, SourceIdentifier);
    FromHeader(item, svc, r, "title");
  }

  /** An article for a journal article, misc otherwise; a journal only for articles with a source other than PubMed. */
  lemma ParsedTypeAndJournal(item: Item, svc: Services, r: map<string, string>)
    requires Parsed(item, svc) == Ok(r)
    ensures "ENTRYTYPE" in r && (r["ENTRYTYPE"] == "article" <==> item.kind == "journal-article")
    ensures r["ENTRYTYPE"] == "article" || r["ENTRYTYPE"] == "misc"
    ensures "journal" in r <==> item.kind == "journal-article" && item.sourceName.Some? && item.sourceName.value != "PubMed"
    ensures "journal" in r ==> r["journal"] == item.sourceName.value
  {
    FromHeader(item, svc, r, "ENTRYTYPE");
    var h := Header(item);
    var t := Details(h, item);
    var d := BiblioFields(t, item.biblio).value;
    var w := WithAuthor(d, item.authorships, svc.formatAuthor);
    DetailsKeeps(h, item, "journal");
    BiblioFieldsKeeps(t, item.biblio, d, "journal");
    WithAuthorKeeps(d, item.authorships, svc.formatAuthor, "journal");
    assert r == FixErrors(w, svc.unifyLanguage);
  }

  /** The doi upper-cased without the resolver prefix; retracted only for a retracted work. */
  lemma ParsedDoi(item: Item, svc: Services, r: map<string, string>)
    requires Parsed(item, svc) == Ok(r)
    ensures "doi" in r <==> item.doi.Some?
    ensures "doi" in r ==> r["doi"] == Replace(Upper(item.doi.value), DoiPrefix, "")
    ensures "retracted" in r <==> item.isRetracted == Some(true)
  {
    var t := Details(Header(item), item);
    var d := BiblioFields(t, item.biblio).value;
    BiblioFieldsKeeps(t, item.biblio, d, "doi");
    BiblioFieldsKeeps(t, item.biblio, d, "retracted");
    AfterBiblio(item, svc, d, r, "doi");
    AfterBiblio(item, svc, d, r, "retracted");
  }

  /** The year and the citation count as decimal text. */
  lemma ParsedYearCitations(item: Item, svc: Services, r: map<string, string>)
    requires Parsed(item, svc) == Ok(r)
    ensures "year" in r <==> item.publicationYear.Some?
    ensures "year" in r ==> r["year"] == IntString(item.publicationYear.value)
    ensures "cited_by" in r && r["cited_by"] == IntString(item.citedByCount)
  {
    var t := Details(Header(item), item);
    var d := BiblioFields(t, item.biblio).value;
    BiblioFieldsKeeps(t, item.biblio, d, "year");
    BiblioFieldsKeeps(t, item.biblio, d, "cited_by");
    AfterBiblio(item, svc, d, r, "year");
    AfterBiblio(item, svc, d, r, "cited_by");
  }

  /** pages is the first page, followed by "--" and the last page when there is one. */
  lemma ParsedPages(item: Item, svc: Services, r: map<string, string>)
    requires Parsed(item, svc) == Ok(r)
    ensures "pages" in r <==> item.biblio.firstPage.Some?
    ensures "pages" in r && item.biblio.lastPage.None? ==> r["pages"] == item.biblio.firstPage.value
    ensures "pages" in r && item.biblio.lastPage.Some? ==>
      r["pages"] == item.biblio.firstPage.value + "--" + item.biblio.lastPage.value
    ensures "volume" in r <==> item.biblio.volume.Some?
    ensures "number" in r <==> item.biblio.issue.Some?
  {
    var h := Header(item);
    var t := Details(h, item);
    var d := BiblioFields(t, item.biblio).value;
    DetailsKeeps(h, item, "pages");
    DetailsKeeps(h, item, "volume");
    DetailsKeeps(h, item, "number");
    AfterBiblio(item, svc, d, r, "pages");
    AfterBiblio(item, svc, d, r, "volume");
    AfterBiblio(item, svc, d, r, "number");
  }

  /** The author text is set exactly when the author loop produced one. */
  lemma ParsedAuthor(item: Item, svc: Services, r: map<string, string>)
    requires Parsed(item, svc) == Ok(r)
    ensures "author" in r <==> AuthorString(item.authorships, svc.formatAuthor) != ""
    ensures "author" in r ==> r["author"] == AuthorString(item.authorships, svc.formatAuthor)
  {
    var h := Header(item);
    var t := Details(h, item);
    var d := BiblioFields(t, item.biblio).value;
    var w := WithAuthor(d, item.authorships, svc.formatAuthor);
    DetailsKeeps(h, item, "author");
    BiblioFieldsKeeps(t, item.biblio, d, "author");
    FixErrorsKeeps(w, svc.unifyLanguage, "author");
  }

  /** The language is kept as its unified code, or removed when the language service rejects it. */
  lemma ParsedLanguage(item: Item, svc: Services, r: map<string, string>)
    requires Parsed(item, svc) == Ok(r)
    ensures "language" in r <==> item.language.Some? && svc.unifyLanguage(item.language.value).Some?
    ensures "language" in r ==> r["language"] == svc.unifyLanguage(item.language.value).value
  {
    var h := Header(item);
    var t := Details(h, item);
    var d := BiblioFields(t, item.biblio).value;
    var w := WithAuthor(d, item.authorships, svc.formatAuthor);
    BiblioFieldsKeeps(t, item.biblio, d, "language");
    WithAuthorKeeps(d, item.authorships, svc.formatAuthor, "language");
    assert r == FixErrors(w, svc.unifyLanguage);
  }

  // ---------------------------------------------------------------------------
  // get_masterdata

  /**
   * get_masterdata: a record without openalex_id is returned as it is. Otherwise the work with
   * that id (`works` stands for the API) is converted, and the record is merged with it; a merge
   * that fails (None, InvalidMerge) keeps the record. The conversion runs before the lock is
   * acquired, so when it raises, the finally clause releases a multiprocessing Lock nobody holds,
   * and the ValueError of that release replaces the KeyError of the conversion.
   */
  function GetMasterdata(record: Record, works: string -> Item, svc: Services,
                         merge: (Record, map<string, string>) -> Option<Record>): (r: Result<Record>)
    ensures SourceIdentifier !in record.fields ==> r == Ok(record)
    ensures r.Err? <==> SourceIdentifier in record.fields && Parsed(works(record.fields[SourceIdentifier]), svc).Err?
    ensures r.Err? <==>
      (&& SourceIdentifier in record.fields
       && works(record.fields[SourceIdentifier]).biblio.lastPage.Some?
       && works(record.fields[SourceIdentifier]).biblio.firstPage.None?)
    ensures r.Err? ==> r.error == ValueError
    ensures r.Ok? && r.value != record ==>
      && SourceIdentifier in record.fields
      && var parsed := Parsed(works(record.fields[SourceIdentifier]), svc);
      && parsed.Ok? && merge(record, parsed.value) == Some(r.value)
    ensures SourceIdentifier in record.fields ==>
      var parsed := Parsed(works(record.fields[SourceIdentifier]), svc);
      parsed.Ok? && merge(record, parsed.value).Some? ==> r == Ok(merge(record, parsed.value).value)
  {
    if SourceIdentifier !in record.fields then Ok(record)
    else
      var item := works(record.fields[SourceIdentifier]);
      ParsedFails(item, svc);
      match Parsed(item, svc)
      case Err(_) => Err(ValueError)
      case Ok(retrieved) =>
        match merge(record, retrieved)
        case None => Ok(record)
        case Some(merged) => Ok(merged)
  }

  /** heuristic: OpenAlex never recognises a file. */
  function Heuristic(data: string): (r: real)
    ensures r == 0.0
  {
    0.0
  }

  /** add_endpoint: OpenAlex cannot be added from a query. */
  function AddEndpoint(query: string): (r: Result<Unit>)
    ensures r.Err? && r.error.PackageParameterError?
  {
    Err(PackageParameterError("Cannot add OpenAlex endpoint with query " + query))
  }
}
