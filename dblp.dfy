/**
 * The DBLP search source: the conversion of a DBLP search-API hit into a record, the
 * normalisation of a query into an API url, the retrieval post-processing, the validation
 * of a DBLP search source and the heuristic that recognises DBLP BibTeX exports.
 */
module Dblp {
  import opened Common

  const ApiUrl := "https://dblp.org/search/publ/api?q="
  const SourceIdentifier := "{{dblp_key}}"
  const JournalArticles := "Journal Articles"
  const ConferencePapers := "Conference and Workshop Papers"
  const WithdrawnItems := "Withdrawn Items"
  const WithdrawalWarning := "Withdrawn (according to DBLP)"
  const RecUrl := "https://dblp.org/rec/"

  // ---------------------------------------------------------------------------
  // A hit of the search API

  /** An element of the list under authors/author: a dict or anything else. */
  datatype AuthorEntry = AuthorDict(entry: map<string, string>) | NotADict

  /** authors/author holds one author dict or a list of entries. */
  datatype AuthorNode = OneAuthor(node: map<string, string>) | AuthorList(entries: seq<AuthorEntry>)

  /**
   * The "info" dict of a hit: its plain fields (type, key, title, year, volume, number,
   * pages, doi, ee) and its authors dict, absent (None), without "author" (Some(None)) or
   * with it.
   */
  datatype Item = Item(fields: map<string, string>, authors: Option<Option<AuthorNode>>)

  /** The venue key: the part of the DBLP key between its first and its last "/". */
  function VenueKey(key: string): string
  {
    Slice(key, Find(key, "/") + 1, RFind(key, "/"))
  }

  /** For keys like journals/misq/Smith20, the venue key is the middle component. */
  lemma VenueKeyIsMiddle(kind: string, venue: string, name: string)
    requires '/' !in kind && '/' !in name
    ensures VenueKey(kind + "/" + venue + "/" + name) == venue
  {
    var key := kind + "/" + venue + "/" + name;
    assert key[..|kind|] == kind;
    FindCharAt(key, '/', |kind|);
    assert key[|kind| + |venue| + 2..] == name;
    RFindCharAt(key, '/', |kind| + |venue| + 1);
    assert key[|kind| + 1..|kind| + |venue| + 1] == venue;
  }

  /** A withdrawn item is retyped by the prefix of its key. */
  function RetypeWithdrawn(key: string): (t: string)
    ensures StartsWith(key, "journals") ==> t == JournalArticles
    ensures StartsWith(key, "conf") ==> t == ConferencePapers
    ensures !StartsWith(key, "journals") && !StartsWith(key, "conf") ==> t == WithdrawnItems
  {
    assert StartsWith(key, "journals") ==> key[0] == key[..8][0] == 'j';
    assert StartsWith(key, "conf") ==> key[0] == key[..4][0] == 'c';
    if StartsWith(key, "journals") then JournalArticles
    else if StartsWith(key, "conf") then ConferencePapers
    else WithdrawnItems
  }

  /** The author string before formatting: the text of one dict, or the texts of the listed dicts that have one. */
  function AuthorString(node: AuthorNode): (r: Result<string>)
    ensures r.Err? <==> node.OneAuthor? && "text" !in node.node
    ensures r.Err? ==> r.error == KeyError("text")
    ensures node.OneAuthor? && r.Ok? ==> r.value == node.node["text"]
    ensures node.AuthorList? ==> r == Ok(Join(" and ", AuthorTexts(node.entries)))
  {
    match node
    case OneAuthor(m) => if "text" in m then Ok(m["text"]) else Err(KeyError("text"))
    case AuthorList(entries) => Ok(Join(" and ", AuthorTexts(entries)))
  }

  /** The texts of the entries that are dicts with a text, in list order. */
  function AuthorTexts(entries: seq<AuthorEntry>): (r: seq<string>)
    ensures |r| <= |entries|
  {
    if |entries| == 0 then []
    else
      var e := entries[0];
      (if e.AuthorDict? && "text" in e.entry then [e.entry["text"]] else []) + AuthorTexts(entries[1..])
  }

  /** The entry is a dict whose text is t. */
  predicate HasText(e: AuthorEntry, t: string)
  {
    e.AuthorDict? && "text" in e.entry && e.entry["text"] == t
  }

  /** Every text taken comes from a dict entry that has it, and every such entry contributes. */
  lemma {:induction false} AuthorTextsAreTheTexts(entries: seq<AuthorEntry>)
    ensures forall t :: t in AuthorTexts(entries) <==> exists i :: 0 <= i < |entries| && HasText(entries[i], t)
  {
    if |entries| > 0 {
      AuthorTextsAreTheTexts(entries[1..]);
      forall t | exists i :: 0 <= i < |entries| && HasText(entries[i], t)
        ensures t in AuthorTexts(entries)
      {
        var i :| 0 <= i < |entries| && HasText(entries[i], t);
        if i > 0 {
          assert HasText(entries[1..][i - 1], t);
        }
      }
      forall t | t in AuthorTexts(entries[1..])
        ensures exists i :: 0 <= i < |entries| && HasText(entries[i], t)
      {
        var i :| 0 <= i < |entries[1..]| && HasText(entries[1..][i], t);
        assert HasText(entries[i + 1], t);
      }
    }
  }

  /** The title without trailing dots, then without trailing whitespace. */
  function CleanTitle(title: string): (r: string)
    ensures |r| <= |title| && r == title[..|r|]
  {
    RStrip(RStrip(title, {'.'}), Whitespace)
  }

  /** The cleaned title never ends in whitespace; it ends in a dot only if whitespace followed it. */
  lemma CleanTitleEnd(title: string)
    ensures var r := CleanTitle(title);
      && (|r| > 0 ==> r[|r| - 1] !in Whitespace)
      && (|r| > 0 && r[|r| - 1] == '.' ==> exists i :: |r| <= i < |title| && title[i] in Whitespace)
  {
    var d := RStrip(title, {'.'});
    var r := CleanTitle(title);
    RStripRemovesRun(title, {'.'});
    RStripRemovesRun(d, Whitespace);
    if |r| > 0 && r[|r| - 1] == '.' {
      assert |r| < |d|;
      assert d[|r|] in Whitespace && d[|r|] == title[|r|];
    }
  }

  /** The order of the two strips keeps a dot that whitespace follows. */
  lemma CleanTitleKeepsDotBeforeSpace()
    ensures CleanTitle("Title. ") == "Title."
  {
    assert RStrip("Title. ", {'.'}) == "Title. ";
    assert "Title. "[..6] == "Title.";
    assert RStrip("Title.", Whitespace) == "Title.";
  }

  /**
   * The services the conversion calls and that are not modelled: the venue lookup
   * `venue(venueKey, venueType)`, the author formatting of the record module and
   * html.unescape.
   */
  datatype Services = Services(venue: (string, string) -> string, formatAuthors: string -> string,
                               unescape: string -> string)

  /** The item types whose conversion reads the key. */
  const KeyedTypes: set<string> := {WithdrawnItems, JournalArticles, ConferencePapers}

  /** The type after a withdrawn item is retyped. */
  function EffectiveType(f: map<string, string>): string
    requires "type" in f && (f["type"] in KeyedTypes ==> "key" in f)
  {
    if f["type"] == WithdrawnItems then RetypeWithdrawn(f["key"]) else f["type"]
  }

  /** The withdrawal warning, the ENTRYTYPE and the venue, as the item type decides. */
  function TypeFields(f: map<string, string>, venue: (string, string) -> string): (r: map<string, string>)
    requires "type" in f && (f["type"] in KeyedTypes ==> "key" in f)
    ensures "warning" in r <==> f["type"] == WithdrawnItems
    ensures "warning" in r ==> r["warning"] == WithdrawalWarning
    ensures EffectiveType(f) == JournalArticles ==>
      "ENTRYTYPE" in r && r["ENTRYTYPE"] == "article" && "journal" in r && r["journal"] == venue(VenueKey(f["key"]), "Journal")
    ensures EffectiveType(f) == ConferencePapers ==>
      "ENTRYTYPE" in r && r["ENTRYTYPE"] == "inproceedings" && "booktitle" in r
      && r["booktitle"] == venue(VenueKey(f["key"]), "Conference or Workshop")
    ensures EffectiveType(f) != JournalArticles && EffectiveType(f) != ConferencePapers ==> "ENTRYTYPE" !in r
  {
    var t := EffectiveType(f);
    var r0: map<string, string> := if f["type"] == WithdrawnItems then map["warning" := WithdrawalWarning] else map[];
    if t == JournalArticles then r0["ENTRYTYPE" := "article"]["journal" := venue(VenueKey(f["key"]), "Journal")]
    else if t == ConferencePapers then
      r0["ENTRYTYPE" := "inproceedings"]["booktitle" := venue(VenueKey(f["key"]), "Conference or Workshop")]
    else r0
  }

  /** The type stage sets nothing but the warning, the ENTRYTYPE and the venue. */
  lemma TypeFieldsOnly(f: map<string, string>, venue: (string, string) -> string, k: string)
    requires "type" in f && (f["type"] in KeyedTypes ==> "key" in f)
    requires k !in {"warning", "ENTRYTYPE", "journal", "booktitle"}
    ensures k !in TypeFields(f, venue)
  {
  }

  /** The fields copied from the item as they are. */
  const PlainFields: set<string> := {"year", "volume", "number"}

  /** The title without trailing dots and whitespace, year, volume and number, pages with "--". */
  function CopyFields(f: map<string, string>, rec: map<string, string>): (r: map<string, string>)
    ensures "title" in f ==> "title" in r && r["title"] == CleanTitle(f["title"])
    ensures "pages" in f ==> "pages" in r && r["pages"] == Replace(f["pages"], "-", "--")
  {
    var r0 := if "title" in f then rec["title" := CleanTitle(f["title"])] else rec;
    var r1 := if "year" in f then r0["year" := f["year"]] else r0;
    var r2 := if "volume" in f then r1["volume" := f["volume"]] else r1;
    var r3 := if "number" in f then r2["number" := f["number"]] else r2;
    if "pages" in f then r3["pages" := Replace(f["pages"], "-", "--")] else r3
  }

  /** year, volume and number are copied as they are. */
  lemma CopyFieldsPlain(f: map<string, string>, rec: map<string, string>, k: string)
    requires k in PlainFields && k in f
    ensures k in CopyFields(f, rec) && CopyFields(f, rec)[k] == f[k]
  {
  }

  /** The copy stage keeps every other field. */
  lemma CopyFieldsKeeps(f: map<string, string>, rec: map<string, string>, k: string)
    requires k !in {"title", "year", "volume", "number", "pages"}
    ensures k in CopyFields(f, rec) <==> k in rec
    ensures k in rec ==> CopyFields(f, rec)[k] == rec[k]
  {
  }

  /** The dblp_key from the key, the doi in upper case, and the url from ee unless ee is a DOI link. */
  function LinkFields(f: map<string, string>, rec: map<string, string>): (r: map<string, string>)
    ensures "key" in f ==> "dblp_key" in r && r["dblp_key"] == RecUrl + f["key"]
    ensures "doi" in f ==> "doi" in r && r["doi"] == Upper(f["doi"])
    ensures "ee" in f && !Contains(f["ee"], "https://doi.org") ==> "url" in r && r["url"] == f["ee"]
  {
    var r0 := if "key" in f then rec["dblp_key" := RecUrl + f["key"]] else rec;
    var r1 := if "doi" in f then r0["doi" := Upper(f["doi"])] else r0;
    if "ee" in f && !Contains(f["ee"], "https://doi.org") then r1["url" := f["ee"]] else r1
  }

  /** The link stage keeps every other field; dblp_key and url appear only as it sets them. */
  lemma LinkFieldsKeeps(f: map<string, string>, rec: map<string, string>, k: string)
    requires k !in {"dblp_key", "doi", "url"}
    ensures k in LinkFields(f, rec) <==> k in rec
    ensures k in rec ==> LinkFields(f, rec)[k] == rec[k]
  {
  }

  lemma LinkFieldsAdds(f: map<string, string>, rec: map<string, string>)
    requires "dblp_key" !in rec && "url" !in rec
    ensures "dblp_key" in LinkFields(f, rec) <==> "key" in f
    ensures "url" in LinkFields(f, rec) <==> "ee" in f && !Contains(f["ee"], "https://doi.org")
  {
  }

  /** The author field, when the item names authors. */
  function AuthorField(item: Item, formatAuthors: string -> string, rec: map<string, string>): (r: map<string, string>)
    requires item.authors.Some? && item.authors.value.Some? ==> AuthorString(item.authors.value.value).Ok?
    ensures "author" in r <==> "author" in rec || (item.authors.Some? && item.authors.value.Some?)
  {
    if item.authors.Some? && item.authors.value.Some? then
      rec["author" := formatAuthors(AuthorString(item.authors.value.value).value)]
    else rec
  }

  lemma AuthorFieldKeeps(item: Item, formatAuthors: string -> string, rec: map<string, string>, k: string)
    requires item.authors.Some? && item.authors.value.Some? ==> AuthorString(item.authors.value.value).Ok?
    requires k != "author"
    ensures k in AuthorField(item, formatAuthors, rec) <==> k in rec
    ensures k in rec ==> AuthorField(item, formatAuthors, rec)[k] == rec[k]
  {
  }

  /**
   * The record as __dblp_json_to_dict fills it, before every value is unescaped and loses
   * its braces: a missing type, a missing key where the type needs it, and a single author
   * without text are KeyErrors.
   */
  function Fill(item: Item, svc: Services): (r: Result<map<string, string>>)
  {
    var f := item.fields;
    if "type" !in f then Err(KeyError("type"))
    else if f["type"] in KeyedTypes && "key" !in f then Err(KeyError("key"))
    else if item.authors.Some? && item.authors.value.Some? && AuthorString(item.authors.value.value).Err? then
      Err(KeyError("text"))
    else
      Ok(LinkFields(f, AuthorField(item, svc.formatAuthors, CopyFields(f, TypeFields(f, svc.venue)))))
  }

  /** The conversion fails exactly on a missing type, a missing key the type needs, or an author without text. */
  lemma FillFails(item: Item, svc: Services)
    ensures Fill(item, svc).Err? <==>
      || "type" !in item.fields
      || (item.fields["type"] in KeyedTypes && "key" !in item.fields)
      || (item.authors.Some? && item.authors.value.Some? && item.authors.value.value.OneAuthor?
          && "text" !in item.authors.value.value.node)
  {
  }

  /** The warning, the type and the venue of a converted item. */
  lemma FillTypeFields(item: Item, svc: Services, r: map<string, string>)
    requires Fill(item, svc) == Ok(r)
    ensures "warning" in r <==> item.fields["type"] == WithdrawnItems
    ensures EffectiveType(item.fields) == JournalArticles ==>
      "ENTRYTYPE" in r && r["ENTRYTYPE"] == "article" && "journal" in r
      && r["journal"] == svc.venue(VenueKey(item.fields["key"]), "Journal")
    ensures EffectiveType(item.fields) == ConferencePapers ==>
      "ENTRYTYPE" in r && r["ENTRYTYPE"] == "inproceedings" && "booktitle" in r
      && r["booktitle"] == svc.venue(VenueKey(item.fields["key"]), "Conference or Workshop")
  {
    var f := item.fields;
    var t := TypeFields(f, svc.venue);
    var c := CopyFields(f, t);
    var a := AuthorField(item, svc.formatAuthors, c);
    forall k | k in {"warning", "ENTRYTYPE", "journal", "booktitle"}
      ensures (k in r <==> k in t) && (k in t ==> r[k] == t[k])
    {
      CopyFieldsKeeps(f, t, k);
      AuthorFieldKeeps(item, svc.formatAuthors, c, k);
      LinkFieldsKeeps(f, a, k);
    }
  }

  /** The copied fields of a converted item. */
  lemma FillCopiedFields(item: Item, svc: Services, r: map<string, string>)
    requires Fill(item, svc) == Ok(r)
    ensures "title" in item.fields ==> "title" in r && r["title"] == CleanTitle(item.fields["title"])
    ensures "pages" in item.fields ==> "pages" in r && r["pages"] == Replace(item.fields["pages"], "-", "--")
    ensures forall k :: k in PlainFields && k in item.fields ==> k in r && r[k] == item.fields[k]
  {
    var f := item.fields;
    var c := CopyFields(f, TypeFields(f, svc.venue));
    var a := AuthorField(item, svc.formatAuthors, c);
    forall k | k in {"title", "year", "volume", "number", "pages"} && k in c
      ensures k in r && r[k] == c[k]
    {
      AuthorFieldKeeps(item, svc.formatAuthors, c, k);
      LinkFieldsKeeps(f, a, k);
    }
    forall k | k in PlainFields && k in f
      ensures k in c && c[k] == f[k]
    {
      CopyFieldsPlain(f, TypeFields(f, svc.venue), k);
    }
  }

  /** The links and the author of a converted item; the key itself is never copied. */
  lemma FillLinkFields(item: Item, svc: Services, r: map<string, string>)
    requires Fill(item, svc) == Ok(r)
    ensures "key" !in r
    ensures "dblp_key" in r <==> "key" in item.fields
    ensures "key" in item.fields ==> r["dblp_key"] == RecUrl + item.fields["key"]
    ensures "doi" in item.fields ==> "doi" in r && r["doi"] == Upper(item.fields["doi"])
    ensures "url" in r <==> "ee" in item.fields && !Contains(item.fields["ee"], "https://doi.org")
    ensures "url" in r ==> r["url"] == item.fields["ee"]
    ensures "author" in r <==> item.authors.Some? && item.authors.value.Some?
  {
    var f := item.fields;
    var t := TypeFields(f, svc.venue);
    var c := CopyFields(f, t);
    var a := AuthorField(item, svc.formatAuthors, c);
    forall k | k in {"key", "dblp_key", "url", "author"}
      ensures k !in c
    {
      TypeFieldsOnly(f, svc.venue, k);
      CopyFieldsKeeps(f, t, k);
    }
    AuthorFieldKeeps(item, svc.formatAuthors, c, "key");
    AuthorFieldKeeps(item, svc.formatAuthors, c, "dblp_key");
    AuthorFieldKeeps(item, svc.formatAuthors, c, "url");
    LinkFieldsKeeps(f, a, "key");
    LinkFieldsKeeps(f, a, "author");
    LinkFieldsAdds(f, a);
  }

  /** The value after html.unescape (given as `unescape`) and the removal of "{" and "}". */
  function Clean(value: string, unescape: string -> string): string
  {
    Replace(Replace(unescape(value), "{", ""), "}", "")
  }

  /** Every value of the record cleaned. */
  function Cleaned(rec: map<string, string>, unescape: string -> string): (r: map<string, string>)
    ensures r.Keys == rec.Keys
  {
    map k | k in rec :: Clean(rec[k], unescape)
  }

  /** No value of a cleaned record contains a brace. */
  lemma CleanedHasNoBraces(rec: map<string, string>, unescape: string -> string)
    ensures forall k :: k in Cleaned(rec, unescape) ==>
      '{' !in Cleaned(rec, unescape)[k] && '}' !in Cleaned(rec, unescape)[k]
  {
    forall k | k in rec
      ensures '{' !in Clean(rec[k], unescape) && '}' !in Clean(rec[k], unescape)
    {
      var u := unescape(rec[k]);
      ReplaceCharIsRemove(u, '{');
      ReplaceCharIsRemove(RemoveChar(u, '{'), '}');
    }
  }

  /** The loop over the items of the record, rewriting each value in place. */
  method CleanValues(rec: map<string, string>, unescape: string -> string) returns (r: map<string, string>)
    ensures r == Cleaned(rec, unescape)
  {
    r := rec;
    var todo := rec.Keys;
    while todo != {}
      invariant todo <= rec.Keys && r.Keys == rec.Keys
      invariant forall k :: k in todo ==> r[k] == rec[k]
      invariant forall k :: k in rec && k !in todo ==> r[k] == Clean(rec[k], unescape)
      decreases todo
    {
      var k :| k in todo;
      r := r[k := Clean(r[k], unescape)];
      todo := todo - {k};
    }
  }

  /** The whole conversion: the filled record with every value cleaned. */
  function Converted(item: Item, svc: Services): Result<map<string, string>>
  {
    match Fill(item, svc)
    case Err(e) => Err(e)
    case Ok(rec) => Ok(Cleaned(rec, svc.unescape))
  }

  /** __dblp_json_to_dict */
  method DblpJsonToDict(item: Item, svc: Services) returns (r: Result<map<string, string>>)
    ensures r == Converted(item, svc)
  {
    var filled := Fill(item, svc);
    if filled.Err? {
      return Err(filled.error);
    }
    var rec := CleanValues(filled.value, svc.unescape);
    return Ok(rec);
  }

  // ---------------------------------------------------------------------------
  // Retrieval

  /**
   * What a word character is, for re's \w on a str pattern: str.isalnum() or "_", over all of
   * Unicode. The Unicode tables are not written out: isWord stands for them, and the lemmas
   * use only that "_" is a word character and the space and "+" are not.
   */
  predicate WordSyntax(isWord: char -> bool)
  {
    isWord('_') && !isWord(' ') && !isWord('+')
  }

  /** The text from its first word character on. */
  function DropNonWord(s: string, isWord: char -> bool): (r: string)
    ensures |r| <= |s| && r == s[|s| - |r|..]
    ensures |r| > 0 ==> isWord(r[0])
    ensures forall i :: 0 <= i < |s| - |r| ==> !isWord(s[i])
  {
    if |s| == 0 || isWord(s[0]) then s
    else
      var r := DropNonWord(s[1..], isWord);
      assert forall i :: 1 <= i < |s| - |r| ==> s[i] == s[1..][i - 1];
      r
  }

  /** re.sub(r"[\W]+", " ", s): every run of non-word characters becomes one space. */
  function CollapseNonWord(s: string, isWord: char -> bool): (r: string)
    ensures |s| > 0 ==> |r| > 0 && (isWord(s[0]) ==> r[0] == s[0]) && (!isWord(s[0]) ==> r[0] == ' ')
    decreases |s|
  {
    if |s| == 0 then ""
    else if isWord(s[0]) then [s[0]] + CollapseNonWord(s[1..], isWord)
    else " " + CollapseNonWord(DropNonWord(s[1..], isWord), isWord)
  }

  /** The word characters of a text, in order. */
  function WordChars(s: string, isWord: char -> bool): string
  {
    if |s| == 0 then "" else (if isWord(s[0]) then [s[0]] else "") + WordChars(s[1..], isWord)
  }

  lemma {:induction false} WordCharsOfDropped(s: string, isWord: char -> bool)
    ensures WordChars(DropNonWord(s, isWord), isWord) == WordChars(s, isWord)
  {
    if |s| > 0 && !isWord(s[0]) {
      WordCharsOfDropped(s[1..], isWord);
    }
  }

  /** The collapsed text holds word characters and spaces only. */
  lemma {:induction false} CollapseNonWordChars(s: string, isWord: char -> bool)
    ensures var r := CollapseNonWord(s, isWord);
      forall i :: 0 <= i < |r| ==> isWord(r[i]) || r[i] == ' '
    decreases |s|
  {
    if |s| > 0 {
      var t := if isWord(s[0]) then s[1..] else DropNonWord(s[1..], isWord);
      CollapseNonWordChars(t, isWord);
      var r := CollapseNonWord(s, isWord);
      assert r[1..] == CollapseNonWord(t, isWord);
      assert forall i :: 1 <= i < |r| ==> r[i] == r[1..][i - 1];
    }
  }

  /** The collapsed text never holds two spaces in a row. */
  lemma {:induction false} CollapseNonWordSingleSpaces(s: string, isWord: char -> bool)
    ensures var r := CollapseNonWord(s, isWord);
      forall i :: 0 <= i < |r| - 1 ==> isWord(r[i]) || isWord(r[i + 1])
    decreases |s|
  {
    if |s| > 0 {
      var t := if isWord(s[0]) then s[1..] else DropNonWord(s[1..], isWord);
      CollapseNonWordSingleSpaces(t, isWord);
      var r := CollapseNonWord(s, isWord);
      assert r[1..] == CollapseNonWord(t, isWord);
      assert forall i :: 1 <= i < |r| ==> r[i] == r[1..][i - 1];
    }
  }

  /** Collapsing keeps the word characters, in order. */
  lemma {:induction false} CollapseNonWordKeepsWordChars(s: string, isWord: char -> bool)
    requires WordSyntax(isWord)
    ensures WordChars(CollapseNonWord(s, isWord), isWord) == WordChars(s, isWord)
    decreases |s|
  {
    if |s| > 0 {
      var r := CollapseNonWord(s, isWord);
      if isWord(s[0]) {
        CollapseNonWordKeepsWordChars(s[1..], isWord);
        assert r == [s[0]] + CollapseNonWord(s[1..], isWord) && r[1..] == CollapseNonWord(s[1..], isWord);
      } else {
        CollapseNonWordKeepsWordChars(DropNonWord(s[1..], isWord), isWord);
        WordCharsOfDropped(s[1..], isWord);
        assert r[1..] == CollapseNonWord(DropNonWord(s[1..], isWord), isWord);
      }
    }
  }

  /** A text of word characters only is left as it is. */
  lemma {:induction false} CollapseKeepsWords(s: string, isWord: char -> bool)
    requires forall i :: 0 <= i < |s| ==> isWord(s[i])
    ensures CollapseNonWord(s, isWord) == s
  {
    if |s| > 0 {
      CollapseKeepsWords(s[1..], isWord);
      assert [s[0]] + s[1..] == s;
    }
  }

  /** The query as the url takes it: spaces become "_", then runs of non-word characters one space. */
  function NormaliseQuery(query: string, isWord: char -> bool): string
  {
    CollapseNonWord(Replace(query, " ", "_"), isWord)
  }

  /** A query of words separated by spaces becomes the words joined by "_". */
  lemma QueryOfWords(query: string, isWord: char -> bool)
    requires WordSyntax(isWord)
    requires forall i :: 0 <= i < |query| ==> isWord(query[i]) || query[i] == ' '
    ensures NormaliseQuery(query, isWord) == MapChar(query, ' ', '_')
  {
    ReplaceCharByChar(query, ' ', '_');
    CollapseKeepsWords(MapChar(query, ' ', '_'), isWord);
  }

  /** The search url for a query: the api prefix, the normalised query with "+" for spaces, the json format. */
  function QueryUrl(query: string, isWord: char -> bool): (url: string)
    ensures StartsWith(url, ApiUrl) && EndsWith(url, "&format=json")
  {
    var u := ApiUrl + Replace(NormaliseQuery(query, isWord), " ", "+") + "&format=json";
    assert u[..|ApiUrl|] == ApiUrl;
    assert u[|u| - 12..] == "&format=json";
    u
  }

  /**
   * The query part of the url holds word characters and "+" only, never two "+" in a row, and
   * keeps the word characters of the query, with each space of the query counting as "_".
   */
  lemma QueryUrlPart(query: string, isWord: char -> bool)
    requires WordSyntax(isWord)
    ensures var q := Replace(NormaliseQuery(query, isWord), " ", "+");
      && (forall i :: 0 <= i < |q| ==> isWord(q[i]) || q[i] == '+')
      && (forall i :: 0 <= i < |q| - 1 ==> isWord(q[i]) || isWord(q[i + 1]))
      && WordChars(MapChar(q, '+', ' '), isWord) == WordChars(Replace(query, " ", "_"), isWord)
  {
    var n := NormaliseQuery(query, isWord);
    CollapseNonWordChars(Replace(query, " ", "_"), isWord);
    CollapseNonWordSingleSpaces(Replace(query, " ", "_"), isWord);
    CollapseNonWordKeepsWordChars(Replace(query, " ", "_"), isWord);
    assert n == CollapseNonWord(Replace(query, " ", "_"), isWord);
    ReplaceCharByChar(n, ' ', '+');
    assert " " == [' '] && "+" == ['+'];
    var q := MapChar(n, ' ', '+');
    assert Replace(n, " ", "+") == q;
    forall i | 0 <= i < |q|
      ensures (q[i] == '+' <==> n[i] == ' ') && (q[i] != '+' ==> q[i] == n[i])
    {
    }
    assert MapChar(q, '+', ' ') == n;
  }

  /** The answer of the search api: None when the request fails with status 500 or carries no hits. */
  type Hits = Option<seq<Item>>

  /** A retrieved record: the converted hit without pages (DBLP gives a page count, not a range). */
  function Retrieved(rec: map<string, string>): (r: map<string, string>)
    ensures "pages" !in r && r.Keys == rec.Keys - {"pages"}
    ensures forall k :: k in r ==> r[k] == rec[k]
  {
    rec - {"pages"}
  }

  /** The list comprehension converting every hit; the first failing conversion raises. */
  method ConvertItems(items: seq<Item>, svc: Services) returns (r: Result<seq<map<string, string>>>)
    ensures r.Ok? <==> forall i :: 0 <= i < |items| ==> Converted(items[i], svc).Ok?
    ensures r.Ok? ==> |r.value| == |items| && forall i :: 0 <= i < |items| ==> Ok(r.value[i]) == Converted(items[i], svc)
  {
    var dicts: seq<map<string, string>> := [];
    var i := 0;
    while i < |items|
      invariant 0 <= i <= |items| && |dicts| == i
      invariant forall j :: 0 <= j < i ==> Converted(items[j], svc) == Ok(dicts[j])
    {
      var d := DblpJsonToDict(items[i], svc);
      if d.Err? {
        return Err(d.error);
      }
      dicts := dicts + [d.value];
      i := i + 1;
    }
    return Ok(dicts);
  }

  /** The loop over the retrieved records: pages removed, dblp_key read for the provenance. */
  method DropPages(dicts: seq<map<string, string>>) returns (r: Result<seq<map<string, string>>>)
    ensures r.Ok? <==> forall i :: 0 <= i < |dicts| ==> "dblp_key" in dicts[i]
    ensures r.Err? ==> r.error == KeyError("dblp_key")
    ensures r.Ok? ==> |r.value| == |dicts| && forall i :: 0 <= i < |dicts| ==> r.value[i] == Retrieved(dicts[i])
  {
    var records: seq<map<string, string>> := [];
    var i := 0;
    while i < |dicts|
      invariant 0 <= i <= |dicts| && |records| == i
      invariant forall j :: 0 <= j < i ==> "dblp_key" in dicts[j] && records[j] == Retrieved(dicts[j])
    {
      if "dblp_key" !in dicts[i] {
        return Err(KeyError("dblp_key"));
      }
      records := records + [Retrieved(dicts[i])];
      i := i + 1;
    }
    return Ok(records);
  }

  /**
   * __retrieve_dblp_records after the request: every hit converted, then every record
   * without pages; a record without dblp_key fails when its provenance is set.
   */
  method RetrieveRecords(hits: Hits, svc: Services) returns (r: Result<seq<map<string, string>>>)
    ensures hits.None? ==> r == Ok([])
    ensures hits.Some? && r.Ok? ==>
      |r.value| == |hits.value|
      && forall i :: 0 <= i < |hits.value| ==>
        Converted(hits.value[i], svc).Ok? && r.value[i] == Retrieved(Converted(hits.value[i], svc).value)
    ensures hits.Some? && r.Err? ==>
      exists i :: 0 <= i < |hits.value| &&
        (Converted(hits.value[i], svc).Err? || "dblp_key" !in Converted(hits.value[i], svc).value)
  {
    if hits.None? {
      return Ok([]);
    }
    var dicts := ConvertItems(hits.value, svc);
    if dicts.Err? {
      return Err(dicts.error);
    }
    r := DropPages(dicts.value);
  }

  // ---------------------------------------------------------------------------
  // validate_source and heuristic

  /** A DBLP search source: its identifier, the keys of its scope (if any), its query (if any), and whether it is the metadata source. */
  datatype Source = Source(sourceIdentifier: string, scope: Option<set<string>>, query: Option<string>, isMdSource: bool)

  function ValidateSource(source: Source): (r: Result<Unit>)
    ensures r.Ok? <==>
      && source.sourceIdentifier == SourceIdentifier
      && (source.scope.Some? ==> "venue_key" in source.scope.value && "journal_abbreviated" in source.scope.value)
      && (source.scope.None? && source.query.Some? ==> StartsWith(source.query.value, ApiUrl))
      && (source.scope.None? && source.query.None? ==> source.isMdSource)
    ensures r.Err? && source.sourceIdentifier == SourceIdentifier && source.scope.None? && source.query.Some? ==>
      r.error == AssertionError
  {
    if source.sourceIdentifier != SourceIdentifier then Err(InvalidQueryException("Invalid source_identifier"))
    else if source.scope.Some? then
      if "venue_key" !in source.scope.value then Err(InvalidQueryException("venue_key required in search_parameters/scope"))
      else if "journal_abbreviated" !in source.scope.value then
        Err(InvalidQueryException("journal_abbreviated required in search_parameters/scope"))
      else Ok(())
    else if source.query.Some? then
      if StartsWith(source.query.value, ApiUrl) then Ok(()) else Err(AssertionError)
    else if source.isMdSource then Ok(())
    else Err(InvalidQueryException("scope or query required in search_parameters"))
  }

  /** A wrong identifier is reported first, whatever the parameters; a scope is checked before a query. */
  lemma ValidateSourceOrder(source: Source)
    ensures source.sourceIdentifier != SourceIdentifier ==>
      ValidateSource(source) == Err(InvalidQueryException("Invalid source_identifier"))
    ensures source.sourceIdentifier == SourceIdentifier && source.scope.Some? ==>
      ValidateSource(source) == ValidateSource(source.(query := None, isMdSource := false))
  {
  }

  const BibSource := "bibsource = {dblp computer scienc"

  /** heuristic: 1.0 iff the data holds the DBLP bibsource line, else 0.0. */
  function Heuristic(data: string): (r: real)
    ensures r == 1.0 <==> Contains(data, BibSource)
    ensures r == 0.0 <==> !Contains(data, BibSource)
  {
    if Contains(data, BibSource) then 1.0 else 0.0
  }
}
