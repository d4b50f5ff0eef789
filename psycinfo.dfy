/**
 * The PsycINFO search source: how its RIS lines are read (tag lines and their content),
 * the key fixes of its RIS entries, and the heuristic that recognises its exports.
 */
module PsycInfo {
  import opened Common
  import opened Ris

  // ---------------------------------------------------------------------------
  // RIS parser

  /** get_content: the text from two characters after the first " - ", stripped. */
  function GetContent(line: string): (r: string)
  {
    Strip(Slice(line, Find(line, " - ") + 2, |line|))
  }

  lemma StripLeadingSpace(x: string)
    ensures Strip([' '] + x) == Strip(x)
  {
    assert ([' '] + x)[1..] == x;
  }

  /** The content when find reports position k. */
  lemma GetContentAt(line: string, k: int)
    requires k == Find(line, " - ") && 0 <= k && k + 2 <= |line|
    ensures GetContent(line) == Strip(line[k + 2..])
  {
    SliceSuffix(line, k + 2);
  }

  /** After a " - " separator found at k, the content is the rest of the line, stripped. */
  lemma GetContentAfterSeparator(line: string, k: int)
    requires k == Find(line, " - ") && k >= 0
    ensures k + 3 <= |line| && GetContent(line) == Strip(line[k + 3..])
  {
    assert k + 3 <= |line| && line[k + 2] == ' ' by {
      assert line[k..k + 3] == " - ";
      assert line[k + 2] == line[k..k + 3][2];
    }
    GetContentAt(line, k);
    StripAfterSpace(line, k + 2);
  }

  /** Stripping the text from a space on is stripping the text after it. */
  lemma StripAfterSpace(s: string, i: nat)
    requires i < |s| && s[i] == ' '
    ensures Strip(s[i..]) == Strip(s[i + 1..])
  {
    assert s[i..] == [' '] + s[i + 1..];
    StripLeadingSpace(s[i + 1..]);
  }

  /** Without a separator, find gives -1 and the content is the line without its first character. */
  lemma GetContentWithoutSeparator(line: string)
    requires !Contains(line, " - ") && |line| > 0
    ensures GetContent(line) == Strip(line[1..])
  {
    assert Find(line, " - ") == -1;
    SliceSuffix(line, 1);
  }

  /** Letters and digits of a RIS tag. */
  const TagChars: set<char> := Uppers + Digits

  /** re.match("[A-Z0-9]+  - ", line): a tag, two spaces, a dash and a space at the start. */
  predicate TagLine(line: string)
  {
    var n := RunLength(line, 0, TagChars);
    n >= 1 && StartsWith(line[n..], "  - ")
  }

  /** is_header: every line that is not a tag line. */
  predicate IsHeader(line: string)
  {
    !TagLine(line)
  }

  /** The line starts with n tag characters followed by "  - ". */
  predicate TagSplit(line: string, n: nat)
  {
    1 <= n && n + 4 <= |line| && (forall j :: 0 <= j < n ==> line[j] in TagChars) && line[n..n + 4] == "  - "
  }

  /** A tag line is exactly a line that splits as the regular expression reads it. */
  lemma TagLineIsPattern(line: string)
    ensures TagLine(line) <==> exists n: nat :: TagSplit(line, n)
  {
    var n := RunLength(line, 0, TagChars);
    if TagLine(line) {
      assert line[n..][..4] == line[n..n + 4];
      assert TagSplit(line, n);
    }
    if exists m: nat :: TagSplit(line, m) {
      var m: nat :| TagSplit(line, m);
      assert line[m] == ' ' && ' ' !in TagChars;
      assert m == n;
      assert line[n..][..4] == line[n..n + 4];
    }
  }

  // ---------------------------------------------------------------------------
  // RIS fixes

  /** The first test reads type_of_reference only for entries with alternate_title3. */
  predicate RaisesKeyError(e: Entry)
  {
    "alternate_title3" in e && TypeKey !in e
  }

  /** Journal articles get alternate_title3 as secondary_title, replacing any there. */
  function AltTitleFix(e: Entry): Entry
    requires !RaisesKeyError(e)
  {
    if "alternate_title3" in e && e[TypeKey] == Text("JOUR") then Move(e, "alternate_title3", "secondary_title")
    else e
  }

  /** publication_year always becomes year, replacing any there. */
  function YearFix(e: Entry): Entry
  {
    if "publication_year" in e then Move(e, "publication_year", "year") else e
  }

  /** first_authors becomes authors only when there are no authors. */
  function AuthorsFix(e: Entry): Entry
  {
    if "first_authors" in e && "authors" !in e then Move(e, "first_authors", "authors") else e
  }

  /** The fixes of one entry, in the order the loop applies them (identity where the loop raises). */
  function RisFix(e: Entry): Entry
  {
    if RaisesKeyError(e) then e else AuthorsFix(YearFix(AltTitleFix(e)))
  }

  /** What the fixes do to the fields they name. */
  lemma RisFixFields(e: Entry)
    requires !RaisesKeyError(e)
    ensures var r := RisFix(e);
      && ("alternate_title3" in e && e[TypeKey] == Text("JOUR") ==>
            "alternate_title3" !in r && "secondary_title" in r && r["secondary_title"] == e["alternate_title3"])
      && ("publication_year" in e ==>
            "publication_year" !in r && "year" in r && r["year"] == e["publication_year"])
      && ("first_authors" in e && "authors" !in e ==>
            "first_authors" !in r && "authors" in r && r["authors"] == e["first_authors"])
      && ("authors" in e ==> "authors" in r && r["authors"] == e["authors"])
  {
  }

  /** Every field the fixes do not name keeps its value. */
  lemma RisFixOtherKeys(e: Entry, k: string)
    requires !RaisesKeyError(e)
    requires k !in {"alternate_title3", "secondary_title", "publication_year", "year", "first_authors", "authors"}
    ensures k in RisFix(e) <==> k in e
    ensures k in e ==> RisFix(e)[k] == e[k]
  {
  }

  /** On a fixed entry each of the three fixes is the identity. */
  lemma RisFixFixed(e: Entry)
    requires !RaisesKeyError(e)
    ensures var r := RisFix(e);
      !RaisesKeyError(r) && AltTitleFix(r) == r && YearFix(r) == r && AuthorsFix(r) == r
  {
    var r := RisFix(e);
    assert TypeKey in e ==> TypeKey in r && r[TypeKey] == e[TypeKey];
    assert "alternate_title3" in r ==> "alternate_title3" in e && TypeKey in e && e[TypeKey] != Text("JOUR");
    assert "publication_year" !in r;
    assert "first_authors" in r ==> "authors" in r;
  }

  /** Fixing an entry twice changes nothing more. */
  lemma RisFixIdempotent(e: Entry)
    ensures RisFix(RisFix(e)) == RisFix(e)
  {
    if !RaisesKeyError(e) {
      RisFixFixed(e);
    }
  }

  /**
   * __ris_fixes: the entries are fixed in place, in order, up to the first entry with
   * alternate_title3 but no type_of_reference, where the KeyError stops the loop.
   */
  method RisFixes(entries: array<Entry>) returns (r: Result<Unit>)
    modifies entries
    ensures r.Err? <==> FirstWhere(old(entries[..]), RaisesKeyError) < entries.Length
    ensures r.Err? ==> r.error == KeyError(TypeKey)
    ensures entries[..] == AppliedUpTo(old(entries[..]), RisFix, FirstWhere(old(entries[..]), RaisesKeyError))
  {
    ghost var original := entries[..];
    ghost var stop := FirstWhere(original, RaisesKeyError);
    AppliedUpToEnds(original, RisFix);
    var i := 0;
    while i < entries.Length
      invariant 0 <= i <= entries.Length == |original|
      invariant i <= stop
      invariant entries[..] == AppliedUpTo(original, RisFix, i)
    {
      var entry := entries[i];
      assert entry == original[i];
      if "alternate_title3" in entry && TypeKey !in entry {
        return Err(KeyError(TypeKey));
      }
      AppliedUpToStep(original, RisFix, i);
      var fixed := AuthorsFix(YearFix(AltTitleFix(entry)));
      assert fixed == RisFix(original[i]);
      entries[i] := fixed;
      i := i + 1;
    }
    return Ok(());
  }

  /** load: only a .ris file is read (the RIS reader and the conversion to records are not modelled). */
  method Load(filename: string, entries: array<Entry>) returns (r: Result<Unit>)
    modifies entries
    ensures PathSuffix(filename) != ".ris" ==> r == Err(NotImplementedError) && entries[..] == old(entries[..])
    ensures PathSuffix(filename) == ".ris" ==>
      (r.Err? <==> FirstWhere(old(entries[..]), RaisesKeyError) < entries.Length)
      && entries[..] == AppliedUpTo(old(entries[..]), RisFix, FirstWhere(old(entries[..]), RaisesKeyError))
  {
    if PathSuffix(filename) == ".ris" {
      r := RisFixes(entries);
    } else {
      r := Err(NotImplementedError);
    }
  }

  // ---------------------------------------------------------------------------
  // Heuristic

  const ProviderHeader := "Provider: American Psychological Association\nDatabase: PsycINFO"

  /** heuristic: 1.0 for an export that starts with the provider header, 0.1 otherwise. */
  function Heuristic(data: string): (r: real)
    ensures r == 1.0 <==> StartsWith(data, ProviderHeader)
    ensures r == 0.1 <==> !StartsWith(data, ProviderHeader)
  {
    if StartsWith(data, ProviderHeader) then 1.0 else 0.1
  }

  /** Only the beginning of the data decides: whatever follows the header keeps 1.0. */
  lemma HeuristicOnlyReadsHeader(data: string, rest: string)
    requires Heuristic(data) == 1.0
    ensures Heuristic(data + rest) == 1.0
  {
    assert (data + rest)[..|ProviderHeader|] == data[..|ProviderHeader|];
  }

  /** get_masterdata, prepare and load_fixes of this source leave the record as it is. */
  function GetMasterdata(record: Record): (r: Record)
    ensures r == record
  {
    record
  }

  function Prepare(record: Record): (r: Record)
    ensures r == record
  {
    record
  }
}
