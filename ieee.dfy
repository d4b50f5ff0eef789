/**
 * The IEEE Xplore search source: key fixes of its RIS entries, the heuristic that
 * recognises its exports, and the operations it leaves as they are.
 */
module Ieee {
  import opened Common
  import opened Ris

  /** Conference papers and journal articles get their title as primary_title. */
  predicate TitledType(e: Entry)
    requires TypeKey in e
  {
    e[TypeKey] == Text("CONF") || e[TypeKey] == Text("JOUR")
  }

  /** __ris_fixes reads type_of_reference of every entry: a missing one is a KeyError. */
  predicate RaisesKeyError(e: Entry)
  {
    TypeKey !in e
  }

  /** The title fix: CONF and JOUR entries get their title as primary_title when they have none. */
  function TitleFix(e: Entry): Entry
  {
    if TypeKey in e && TitledType(e) && "title" in e && "primary_title" !in e then Move(e, "title", "primary_title")
    else e
  }

  /** The year fix: publication_year becomes year when there is no year. */
  function YearFix(e: Entry): Entry
  {
    if "publication_year" in e && "year" !in e then Move(e, "publication_year", "year") else e
  }

  /** The fixes of one entry, in the order the loop applies them. */
  function RisFix(e: Entry): Entry
  {
    YearFix(TitleFix(e))
  }

  /** The fixes only rename keys: as many keys as before and the same values. */
  lemma RisFixRenamesOnly(e: Entry)
    ensures |RisFix(e).Keys| == |e.Keys| && RisFix(e).Values == e.Values
  {
    var t := TitleFix(e);
    if TypeKey in e && TitledType(e) && "title" in e && "primary_title" !in e {
      MoveToAbsentRenames(e, "title", "primary_title");
    }
    if "publication_year" in t && "year" !in t {
      MoveToAbsentRenames(t, "publication_year", "year");
    }
  }

  /** title moves to primary_title only for CONF and JOUR entries without a primary_title. */
  lemma RisFixTitle(e: Entry)
    ensures var r := RisFix(e);
      && (TypeKey in e && TitledType(e) && "title" in e && "primary_title" !in e ==>
            "title" !in r && "primary_title" in r && r["primary_title"] == e["title"])
      && (!(TypeKey in e && TitledType(e) && "primary_title" !in e) ==>
            ("title" in r <==> "title" in e) && ("primary_title" in r <==> "primary_title" in e)
            && ("title" in e ==> r["title"] == e["title"])
            && ("primary_title" in e ==> r["primary_title"] == e["primary_title"]))
  {
  }

  /** publication_year moves to year only when there is no year. */
  lemma RisFixYear(e: Entry)
    ensures var r := RisFix(e);
      && ("publication_year" in e && "year" !in e ==>
            "publication_year" !in r && "year" in r && r["year"] == e["publication_year"])
      && ("year" in e ==>
            "year" in r && r["year"] == e["year"] && ("publication_year" in r <==> "publication_year" in e))
  {
  }

  /** Every other key keeps its value. */
  lemma RisFixOtherKeys(e: Entry, k: string)
    requires k !in {"title", "primary_title", "publication_year", "year"}
    ensures k in RisFix(e) <==> k in e
    ensures k in e ==> RisFix(e)[k] == e[k]
  {
  }

  /** Fixing an entry twice changes nothing more. */
  lemma RisFixIdempotent(e: Entry)
    ensures RisFix(RisFix(e)) == RisFix(e)
  {
    var r := RisFix(e);
    var rr := RisFix(r);
    assert forall k :: k in rr <==> k in r;
  }

  /**
   * __ris_fixes: the entries are fixed in place, in order, up to the first one without
   * type_of_reference, where the KeyError stops the loop.
   */
  method RisFixes(entries: array<Entry>) returns (r: Result<Unit>)
    modifies entries
    ensures r.Err? <==> FirstWhere(old(entries[..]), RaisesKeyError) < entries.Length
    ensures r.Err? ==> r.error == KeyError(TypeKey)
    ensures entries[..] == AppliedUpTo(old(entries[..]), RisFix, FirstWhere(old(entries[..]), RaisesKeyError))
  {
    ghost var original := entries[..];
    ghost var stop := FirstWhere(original, RaisesKeyError);
    AppliedUpToEnds(original, RisFix);
    var i := 0;
    while i < entries.Length
      invariant 0 <= i <= entries.Length == |original|
      invariant i <= stop
      invariant entries[..] == AppliedUpTo(original, RisFix, i)
    {
      var entry := entries[i];
      assert entry == original[i];
      if TypeKey !in entry {
        return Err(KeyError(TypeKey));
      }
      AppliedUpToStep(original, RisFix, i);
      entries[i] := YearFix(TitleFix(entry));
      i := i + 1;
    }
    return Ok(());
  }

  /** load: only a .ris file is read (the RIS reader and the conversion to records are not modelled). */
  method Load(filename: string, entries: array<Entry>) returns (r: Result<Unit>)
    modifies entries
    ensures PathSuffix(filename) != ".ris" ==> r == Err(NotImplementedError) && entries[..] == old(entries[..])
    ensures PathSuffix(filename) == ".ris" ==>
      (r.Err? <==> FirstWhere(old(entries[..]), RaisesKeyError) < entries.Length)
      && entries[..] == AppliedUpTo(old(entries[..]), RisFix, FirstWhere(old(entries[..]), RaisesKeyError))
  {
    if PathSuffix(filename) == ".ris" {
      r := RisFixes(entries);
    } else {
      r := Err(NotImplementedError);
    }
  }

  // ---------------------------------------------------------------------------
  // Heuristic

  /** The end of the header @TYPE{digits,\n that the greedy match starting at i would find. */
  function HeaderEnd(s: string, i: nat): (b: nat)
    requires i < |s|
    ensures i < b <= |s|
  {
    var a := i + 1 + RunLength(s, i + 1, Uppers);
    if a < |s| then a + 1 + RunLength(s, a + 1, Digits) else |s|
  }

  /** Does the pattern @[A-Z]*\{[0-9]*,\n match at position i? (Greedy runs never need backtracking.) */
  predicate NumericHeaderAt(s: string, i: nat)
    requires i < |s|
  {
    var a := i + 1 + RunLength(s, i + 1, Uppers);
    var b := HeaderEnd(s, i);
    s[i] == '@' && a < |s| && s[a] == '{' && b + 1 < |s| && s[b] == ',' && s[b + 1] == '\n'
  }

  /** The text from i splits as "@", uppercase letters up to a, "{", digits up to b, ",\n". */
  predicate HeaderSplit(s: string, i: nat, a: nat, b: nat)
  {
    i < a < b + 1 < |s| && s[i] == '@' && s[a] == '{' && s[b] == ',' && s[b + 1] == '\n'
    && (forall j :: i < j < a ==> s[j] in Uppers)
    && (forall j :: a < j < b ==> s[j] in Digits)
  }

  /** The pattern as the regular expression reads it: some split of the text into its parts. */
  ghost predicate MatchesPattern(s: string, i: nat)
  {
    exists a: nat, b: nat :: HeaderSplit(s, i, a, b)
  }

  /** The greedy check finds a split the regular expression accepts. */
  lemma NumericHeaderAtMatches(s: string, i: nat)
    requires i < |s| && NumericHeaderAt(s, i)
    ensures MatchesPattern(s, i)
  {
    var a := i + 1 + RunLength(s, i + 1, Uppers);
    var b := HeaderEnd(s, i);
    assert HeaderSplit(s, i, a, b);
  }

  /** Any split the regular expression accepts is the greedy one. */
  lemma MatchesAreNumericHeaderAt(s: string, i: nat)
    requires i < |s| && MatchesPattern(s, i)
    ensures NumericHeaderAt(s, i)
  {
    var a', b' :| HeaderSplit(s, i, a', b');
    var a := i + 1 + RunLength(s, i + 1, Uppers);
    assert '{' !in Uppers && ',' !in Digits;
    assert a' == a;
    assert b' == a + 1 + RunLength(s, a + 1, Digits);
  }

  /** No header starts inside another: counting start positions counts re.findall's matches. */
  lemma HeadersDoNotOverlap(s: string, i: nat, j: nat)
    requires i < j < |s| && NumericHeaderAt(s, i) && j <= HeaderEnd(s, i) + 1
    ensures !NumericHeaderAt(s, j)
  {
    var a := i + 1 + RunLength(s, i + 1, Uppers);
    assert '@' !in Uppers && '@' !in Digits;
    if j < a {
      assert s[j] in Uppers;
    } else if j == a {
      assert s[j] == '{';
    } else if j < HeaderEnd(s, i) {
      assert s[j] in Digits;
    }
  }

  /** The number of positions from i on at which a numeric-key entry header starts. */
  function NumericHeadersFrom(s: string, i: nat): (n: nat)
    requires i <= |s|
    ensures n <= |s| - i
    decreases |s| - i
  {
    if i == |s| then 0
    else (if NumericHeaderAt(s, i) then 1 else 0) + NumericHeadersFrom(s, i + 1)
  }

  /** len(re.findall(r"@[A-Z]*\{[0-9]*,\n", data)) */
  function NumericHeaders(s: string): nat
  {
    NumericHeadersFrom(s, 0)
  }

  /**
   * heuristic: 1.0 for a BibTeX export with INPROCEEDINGS whose entries all have numeric
   * keys, or for a CSV export whose first line names the Xplore columns; 0.1 otherwise.
   * The first line of empty data does not exist: IndexError.
   */
  function Heuristic(data: string): (r: Result<real>)
    ensures r.Err? <==> data == ""
    ensures r.Err? ==> r.error == IndexError
    ensures r.Ok? ==> r.value == 0.1 || r.value == 1.0
    ensures data != "" && Contains(FirstLine(data), "Date Added To Xplore") && Contains(FirstLine(data), "IEEE Terms")
      ==> r == Ok(1.0)
    ensures data != "" && Contains(data, "INPROCEEDINGS") && NumericHeaders(data) >= CountOcc(data, "\n@")
      ==> r == Ok(1.0)
    ensures r.Ok? ==>
      (r.value == 1.0 <==>
        || (Contains(FirstLine(data), "Date Added To Xplore") && Contains(FirstLine(data), "IEEE Terms"))
        || (Contains(data, "INPROCEEDINGS") && NumericHeaders(data) >= CountOcc(data, "\n@")))
  {
    var bib := Contains(data, "INPROCEEDINGS") && NumericHeaders(data) >= CountOcc(data, "\n@");
    if data == "" then Err(IndexError)
    else if Contains(FirstLine(data), "Date Added To Xplore") && Contains(FirstLine(data), "IEEE Terms") then Ok(1.0)
    else if bib then Ok(1.0)
    else Ok(0.1)
  }

  /** A text without INPROCEEDINGS and without the Xplore column names keeps the default. */
  lemma HeuristicDefault(data: string)
    requires data != "" && !Contains(data, "INPROCEEDINGS") && !Contains(FirstLine(data), "IEEE Terms")
    ensures Heuristic(data) == Ok(0.1)
  {
  }

  /** get_masterdata, prepare and load_fixes of this source leave the record as it is. */
  function GetMasterdata(record: Record): (r: Record)
    ensures r == record
  {
    record
  }

  function Prepare(record: Record): (r: Record)
    ensures r == record
  {
    record
  }
}
