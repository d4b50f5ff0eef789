/**
 * The PDF directory search source: how the PDFs to index are batched and filtered, the
 * md_string used to spot duplicate PDFs, the pruning of origins of PDFs that disappeared,
 * the fields derived from the directory layout, the validation of its parameters, the
 * corrections of GROBID titles and authors in prepare, and its heuristic.
 */
module PdfsDir {
  import opened Common

  // ---------------------------------------------------------------------------
  // Batches of PDFs

  const BatchSize := 20

  /** __get_pdf_batches: slices of 20 paths, as many as (n + 19) // 20. */
  function Batches(pdfs: seq<string>): (r: seq<seq<string>>)
  {
    seq((|pdfs| + BatchSize - 1) / BatchSize,
        i requires 0 <= i < (|pdfs| + BatchSize - 1) / BatchSize =>
          pdfs[i * BatchSize .. if (i + 1) * BatchSize <= |pdfs| then (i + 1) * BatchSize else |pdfs|])
  }

  /** The batches one after the other. */
  function Concat(bs: seq<seq<string>>): seq<string>
    decreases |bs|
  {
    if |bs| == 0 then [] else Concat(bs[..|bs| - 1]) + bs[|bs| - 1]
  }

  /** Every batch has between 1 and 20 paths, and all but the last have exactly 20. */
  lemma BatchSizes(pdfs: seq<string>)
    ensures |Batches(pdfs)| == (|pdfs| + 19) / 20
    ensures forall i :: 0 <= i < |Batches(pdfs)| ==> 0 < |Batches(pdfs)[i]| <= 20
    ensures forall i :: 0 <= i < |Batches(pdfs)| - 1 ==> |Batches(pdfs)[i]| == 20
  {
  }

  /** The first k batches are the first 20 * k paths (or all of them). */
  lemma {:induction false} BatchesPrefix(pdfs: seq<string>, k: nat)
    requires k <= |Batches(pdfs)|
    ensures Concat(Batches(pdfs)[..k]) == pdfs[..if 20 * k <= |pdfs| then 20 * k else |pdfs|]
  {
    var bs := Batches(pdfs);
    if k > 0 {
      BatchesPrefix(pdfs, k - 1);
      assert bs[..k][..k - 1] == bs[..k - 1];
      assert 20 * (k - 1) <= |pdfs|;
      var hi := if 20 * k <= |pdfs| then 20 * k else |pdfs|;
      assert bs[k - 1] == pdfs[20 * (k - 1)..hi];
      assert pdfs[..20 * (k - 1)] + pdfs[20 * (k - 1)..hi] == pdfs[..hi];
    }
  }

  /** Indexing the batches one after the other indexes every path once, in order. */
  lemma BatchesConcat(pdfs: seq<string>)
    ensures Concat(Batches(pdfs)) == pdfs
  {
    var bs := Batches(pdfs);
    BatchesPrefix(pdfs, |bs|);
    assert bs[..|bs|] == bs;
    assert pdfs[..|pdfs|] == pdfs;
  }

  // ---------------------------------------------------------------------------
  // Broken paths

  /** str(path)[-n:]: the last n characters, or the whole text when it is shorter. */
  function LastChars(s: string, n: nat): (r: string)
    ensures |s| < n ==> r == s
  {
    if |s| <= n then s else s[|s| - n..]
  }

  /** Comparing the last characters with a suffix tests whether the text ends with it. */
  lemma LastCharsIsEndsWith(s: string, t: string)
    ensures LastChars(s, |t|) == t <==> EndsWith(s, t)
  {
  }

  /**
   * __is_broken_filepath: a path with ";" or one of the suffixes the PDF preparation leaves
   * behind (_ocr.pdf, _wo_cp.pdf, _wo_lp.pdf, _backup.pdf) is skipped.
   */
  function IsBrokenFilepath(path: string): (r: bool)
    ensures r <==> Contains(path, ";") || EndsWith(path, "_ocr.pdf") || EndsWith(path, "_wo_cp.pdf")
                   || EndsWith(path, "_wo_lp.pdf") || EndsWith(path, "_backup.pdf")
  {
    LastCharsIsEndsWith(path, "_ocr.pdf");
    LastCharsIsEndsWith(path, "_wo_cp.pdf");
    LastCharsIsEndsWith(path, "_wo_lp.pdf");
    LastCharsIsEndsWith(path, "_backup.pdf");
    if Contains(path, ";") then true
    else
      LastChars(path, 8) == "_ocr.pdf" || LastChars(path, 10) == "_wo_cp.pdf"
      || LastChars(path, 10) == "_wo_lp.pdf" || LastChars(path, 11) == "_backup.pdf"
  }

  // ---------------------------------------------------------------------------
  // validate_source

  /** A search parameter: a text, a list of texts, or a dict of texts. */
  datatype Param = Text(text: string) | Texts(items: seq<string>) | Dict(entries: map<string, string>)

  /** Python's `key in value`: a substring of a text, an element of a list, a key of a dict. */
  predicate HasKey(p: Param, key: string)
  {
    match p
    case Text(s) => Contains(s, key)
    case Texts(l) => key in l
    case Dict(m) => key in m
  }

  const SubdirPatterns := ["NA", "volume_number", "year", "volume"]

  const PatternMessage := "subdir_pattern not in [NA, volume_number, year, volume]"
  const DeprecatedMessage := "sub_dir_pattern: deprecated. use subdir_pattern"
  const ScopeMessage := "scope required in search_parameters"
  const PathMessage := "path required in search_parameters/scope"

  /** The checks after the subdir_pattern comparison, in their order. */
  function ValidateRest(params: map<string, Param>): Result<Unit>
  {
    if "sub_dir_pattern" in params then Err(InvalidQueryException(DeprecatedMessage))
    else if "scope" !in params then Err(InvalidQueryException(ScopeMessage))
    else if !HasKey(params["scope"], "path") then Err(InvalidQueryException(PathMessage))
    else Ok(())
  }

  /**
   * validate_source as written: the subdir_pattern parameter is compared with the whole list
   * of pattern names, so only that list itself passes.
   */
  function ValidateSource(params: map<string, Param>): (r: Result<Unit>)
    ensures r.Ok? <==> ("subdir_pattern" in params ==> params["subdir_pattern"] == Texts(SubdirPatterns))
                       && "sub_dir_pattern" !in params && "scope" in params && HasKey(params["scope"], "path")
    ensures r.Err? ==> r.error.InvalidQueryException?
    ensures "subdir_pattern" in params && params["subdir_pattern"] != Texts(SubdirPatterns) ==>
      r == Err(InvalidQueryException(PatternMessage))
  {
    if "subdir_pattern" in params && params["subdir_pattern"] != Texts(SubdirPatterns) then
      Err(InvalidQueryException(PatternMessage))
    else ValidateRest(params)
  }

  /** As written, every single pattern name is rejected, "year" included. */
  lemma ValidateSourceRejectsEveryPattern(params: map<string, Param>, name: string)
    requires "subdir_pattern" in params && params["subdir_pattern"] == Text(name)
    ensures ValidateSource(params) == Err(InvalidQueryException(PatternMessage))
  {
  }

  /** The check as intended: the pattern must be one of the listed names. */
  function ValidateSourceCorrected(params: map<string, Param>): (r: Result<Unit>)
    ensures r.Ok? <==> ("subdir_pattern" in params ==> params["subdir_pattern"].Text? && params["subdir_pattern"].text in SubdirPatterns)
                       && "sub_dir_pattern" !in params && "scope" in params && HasKey(params["scope"], "path")
    ensures r.Err? ==> r.error.InvalidQueryException?
  {
    if "subdir_pattern" in params && !(params["subdir_pattern"].Text? && params["subdir_pattern"].text in SubdirPatterns) then
      Err(InvalidQueryException(PatternMessage))
    else ValidateRest(params)
  }

  /** Corrected, a listed pattern passes, and the other checks run as before. */
  lemma ValidateSourceCorrectedAcceptsListed(params: map<string, Param>, name: string)
    requires "subdir_pattern" in params && params["subdir_pattern"] == Text(name) && name in SubdirPatterns
    ensures ValidateSourceCorrected(params) == ValidateRest(params)
  {
  }

  /** Without a subdir_pattern parameter both versions agree. */
  lemma ValidateSourceVersionsAgree(params: map<string, Param>)
    requires "subdir_pattern" !in params
    ensures ValidateSourceCorrected(params) == ValidateSource(params)
  {
  }

  // ---------------------------------------------------------------------------
  // heuristic

  /**
   * heuristic: 1.0 for a .pdf file when the backward-search heuristic gives an empty dict
   * (the result is tested for truth), 0.0 otherwise.
   */
  function Heuristic(filename: string, backwardSearch: map<string, real>): (r: real)
    ensures r == 1.0 <==> PathSuffix(filename) == ".pdf" && backwardSearch == map[]
    ensures r == 0.0 <==> !(PathSuffix(filename) == ".pdf" && backwardSearch == map[])
  {
    if PathSuffix(filename) == ".pdf" && backwardSearch == map[] then 1.0 else 0.0
  }

  // ---------------------------------------------------------------------------
  // md_string

  /** A record dict as its items in insertion order, the order md_string lists them in. */
  type Items = seq<(string, string)>

  /** The keys md_string leaves out. */
  const MdExcluded: set<string> := {"ID", "grobid-version", "file"}

  /** dict.get: the value of the first item with the key. */
  function Lookup(items: Items, k: string): Option<string>
    decreases |items|
  {
    if |items| == 0 then None
    else if items[0].0 == k then Some(items[0].1)
    else Lookup(items[1..], k)
  }

  /** d[k] = v: the value of an existing key is replaced where it stands, a new key goes last. */
  function SetItem(items: Items, k: string, v: string): (r: Items)
    decreases |items|
  {
    if |items| == 0 then [(k, v)]
    else if items[0].0 == k then [(k, v)] + items[1..]
    else [items[0]] + SetItem(items[1..], k, v)
  }

  lemma {:induction false} LookupSetItem(items: Items, k: string, v: string, k': string)
    ensures Lookup(SetItem(items, k, v), k') == if k' == k then Some(v) else Lookup(items, k')
    decreases |items|
  {
    if |items| > 0 && items[0].0 != k {
      LookupSetItem(items[1..], k, v, k');
    }
  }

  /** The "k:v" texts of the items md_string lists. */
  function MdParts(items: Items): seq<string>
    decreases |items|
  {
    if |items| == 0 then []
    else (if items[0].0 in MdExcluded then [] else [items[0].0 + ":" + items[0].1]) + MdParts(items[1..])
  }

  /** Setting an excluded key (another file, another ID) does not change the parts. */
  lemma {:induction false} MdPartsIgnoresExcluded(items: Items, k: string, v: string)
    requires k in MdExcluded
    ensures MdParts(SetItem(items, k, v)) == MdParts(items)
    decreases |items|
  {
    if |items| == 0 {
    } else if items[0].0 == k {
      assert SetItem(items, k, v)[1..] == items[1..];
    } else {
      MdPartsIgnoresExcluded(items[1..], k, v);
      assert SetItem(items, k, v)[1..] == SetItem(items[1..], k, v);
    }
  }

  /** The size part: the file size in bytes, or NOT_FOUND for a missing file. */
  function SizeText(size: Option<nat>): string
  {
    if size.Some? then NatString(size.value) else "NOT_FOUND"
  }

  /**
   * __add_md_string: md_string is the file size followed by the ","-join of "k:v" over every
   * other item; reading the file path of a record without one raises KeyError.
   */
  function AddMdString(items: Items, size: Option<nat>): (r: Result<Items>)
    ensures r.Err? <==> Lookup(items, "file").None?
    ensures r.Err? ==> r.error == KeyError("file")
  {
    if Lookup(items, "file").None? then Err(KeyError("file"))
    else Ok(SetItem(items, "md_string", SizeText(size) + Join(",", MdParts(items))))
  }

  /** The md_string set, and every other item as it was. */
  lemma AddMdStringSets(items: Items, size: Option<nat>, k: string)
    requires Lookup(items, "file").Some?
    ensures Lookup(AddMdString(items, size).value, "md_string") == Some(SizeText(size) + Join(",", MdParts(items)))
    ensures k != "md_string" ==> Lookup(AddMdString(items, size).value, k) == Lookup(items, k)
  {
    var md := SizeText(size) + Join(",", MdParts(items));
    LookupSetItem(items, "md_string", md, "md_string");
    LookupSetItem(items, "md_string", md, k);
  }

  /** Two copies of a PDF that differ only in path and ID get the same md_string: the duplicate test. */
  lemma MdStringIgnoresFileAndId(items: Items, size: Option<nat>, file: string, id: string)
    requires Lookup(items, "file").Some?
    ensures var other := SetItem(SetItem(items, "file", file), "ID", id);
      Lookup(other, "file").Some?
      && Lookup(AddMdString(other, size).value, "md_string") == Lookup(AddMdString(items, size).value, "md_string")
  {
    var withFile := SetItem(items, "file", file);
    var other := SetItem(withFile, "ID", id);
    LookupSetItem(items, "file", file, "file");
    LookupSetItem(withFile, "ID", id, "file");
    MdPartsIgnoresExcluded(items, "file", file);
    MdPartsIgnoresExcluded(withFile, "ID", id);
    AddMdStringSets(items, size, "md_string");
    AddMdStringSets(other, size, "md_string");
  }

  // ---------------------------------------------------------------------------
  // Pruning the origins of PDFs that no longer exist

  /** list.remove(x) for an x in the list: the first occurrence goes. */
  function RemoveFirst(s: seq<string>, x: string): (r: seq<string>)
    decreases |s|
  {
    if |s| == 0 then [] else if s[0] == x then s[1..] else [s[0]] + RemoveFirst(s[1..], x)
  }

  /** The inner loop: each origin to remove that the list holds is removed once, in order. */
  function Pruned(origin: seq<string>, toRemove: seq<string>): seq<string>
    decreases |toRemove|
  {
    if |toRemove| == 0 then origin
    else Pruned(if toRemove[0] in origin then RemoveFirst(origin, toRemove[0]) else origin, toRemove[1..])
  }

  /** The elements of s not in a, in order. */
  function Without(s: seq<string>, a: set<string>): seq<string>
    decreases |s|
  {
    if |s| == 0 then [] else (if s[0] in a then [] else [s[0]]) + Without(s[1..], a)
  }

  lemma {:induction false} WithoutElements(s: seq<string>, a: set<string>)
    ensures forall x :: x in Without(s, a) ==> x in s && x !in a
    decreases |s|
  {
    if |s| > 0 {
      WithoutElements(s[1..], a);
    }
  }

  predicate NoDup(s: seq<string>)
  {
    forall i, j :: 0 <= i < j < |s| ==> s[i] != s[j]
  }

  lemma {:induction false} WithoutNoDup(s: seq<string>, a: set<string>)
    requires NoDup(s)
    ensures NoDup(Without(s, a))
    decreases |s|
  {
    if |s| > 0 {
      assert NoDup(s[1..]);
      WithoutNoDup(s[1..], a);
      WithoutElements(s[1..], a);
      assert s[0] !in s[1..];
    }
  }

  lemma {:induction false} WithoutNothing(s: seq<string>, a: set<string>)
    requires forall x :: x in s ==> x !in a
    ensures Without(s, a) == s
    decreases |s|
  {
    if |s| > 0 {
      WithoutNothing(s[1..], a);
    }
  }

  lemma {:induction false} RemoveFirstIsWithout(s: seq<string>, x: string)
    requires NoDup(s) && x in s
    ensures RemoveFirst(s, x) == Without(s, {x})
    decreases |s|
  {
    if s[0] == x {
      assert x !in s[1..];
      WithoutNothing(s[1..], {x});
    } else {
      assert NoDup(s[1..]);
      RemoveFirstIsWithout(s[1..], x);
    }
  }

  lemma {:induction false} WithoutWithout(s: seq<string>, a: set<string>, b: set<string>)
    ensures Without(Without(s, a), b) == Without(s, a + b)
    decreases |s|
  {
    if |s| > 0 {
      WithoutWithout(s[1..], a, b);
      var rest := Without(s[1..], a);
      if s[0] in a {
        assert Without(s, a) == rest;
        assert Without(s, a + b) == Without(s[1..], a + b);
      } else {
        var w := [s[0]] + rest;
        assert Without(s, a) == w;
        assert w[1..] == rest;
        assert Without(w, b) == (if s[0] in b then [] else [s[0]]) + Without(rest, b);
      }
    }
  }

  /** When an origin list has no repeated entry, pruning keeps exactly the origins not to remove. */
  lemma {:induction false} PrunedIsWithout(origin: seq<string>, toRemove: seq<string>)
    requires NoDup(origin)
    ensures Pruned(origin, toRemove) == Without(origin, set x | x in toRemove)
    decreases |toRemove|
  {
    if |toRemove| == 0 {
      assert (set x | x in toRemove) == {};
      WithoutNothing(origin, {});
    } else {
      var x := toRemove[0];
      var next := if x in origin then RemoveFirst(origin, x) else origin;
      if x in origin {
        RemoveFirstIsWithout(origin, x);
      } else {
        WithoutNothing(origin, {x});
      }
      assert next == Without(origin, {x});
      WithoutNoDup(origin, {x});
      PrunedIsWithout(next, toRemove[1..]);
      WithoutWithout(origin, {x}, set y | y in toRemove[1..]);
      assert {x} + (set y | y in toRemove[1..]) == set y | y in toRemove;
    }
  }

  /** The records after pruning: the origins removed, and the records left without an origin dropped. */
  function PrunedRecords(records: map<string, Record>, toRemove: seq<string>): map<string, Record>
  {
    map k | k in records && |Pruned(records[k].origin, toRemove)| > 0 :: records[k].(origin := Pruned(records[k].origin, toRemove))
  }

  /** A record stays exactly when one of its (distinct) origins is not to be removed. */
  lemma PrunedRecordsKeeps(records: map<string, Record>, toRemove: seq<string>, k: string)
    requires k in records && NoDup(records[k].origin)
    ensures k in PrunedRecords(records, toRemove) <==> exists o :: o in records[k].origin && o !in toRemove
  {
    var origin := records[k].origin;
    var removed := set x | x in toRemove;
    PrunedIsWithout(origin, toRemove);
    var w := Without(origin, removed);
    if exists o :: o in origin && o !in toRemove {
      var o :| o in origin && o !in toRemove;
      WithoutKeeps(origin, removed, o);
    }
    if |w| > 0 {
      WithoutElements(origin, removed);
      assert w[0] in w && w[0] in origin && w[0] !in toRemove;
    }
  }

  lemma {:induction false} WithoutKeeps(s: seq<string>, a: set<string>, o: string)
    requires o in s && o !in a
    ensures o in Without(s, a)
    decreases |s|
  {
    if s[0] != o {
      WithoutKeeps(s[1..], a, o);
    }
  }

  /** The inner loop over the origins to remove, on one record's origin list. */
  method RemoveOrigins(origin: seq<string>, toRemove: seq<string>) returns (o: seq<string>)
    ensures o == Pruned(origin, toRemove)
  {
    o := origin;
    for i := 0 to |toRemove|
      invariant Pruned(o, toRemove[i..]) == Pruned(origin, toRemove)
    {
      assert toRemove[i..][0] == toRemove[i] && toRemove[i..][1..] == toRemove[i + 1..];
      if toRemove[i] in o {
        o := RemoveFirst(o, toRemove[i]);
      }
    }
    assert toRemove[|toRemove|..] == [];
  }

  /**
   * The origin pruning of __remove_records_if_pdf_no_longer_exists: every origin to remove is
   * removed from every record, and the records whose origin list became empty are dropped.
   */
  method PruneOrigins(records: map<string, Record>, toRemove: seq<string>) returns (r: map<string, Record>)
    ensures r == PrunedRecords(records, toRemove)
  {
    var updated := records;
    var todo := records.Keys;
    while todo != {}
      invariant todo <= records.Keys == updated.Keys
      invariant forall k :: k in records && k !in todo ==>
        updated[k] == records[k].(origin := Pruned(records[k].origin, toRemove))
      invariant forall k :: k in todo ==> updated[k] == records[k]
      decreases todo
    {
      var k :| k in todo;
      var origin := RemoveOrigins(updated[k].origin, toRemove);
      updated := updated[k := updated[k].(origin := origin)];
      todo := todo - {k};
    }
    r := map k | k in updated && |updated[k].origin| > 0 :: updated[k];
  }

  // ---------------------------------------------------------------------------
  // A record dict changed in place

  /** The record dict the operations below change in place. */
  class PdfRecord {
    var data: map<string, string>

    constructor(data: map<string, string>)
      ensures this.data == data
    {
      this.data := data;
    }
  }

  // ---------------------------------------------------------------------------
  // Fields from the directory layout

  /**
   * The subdir_pattern attribute: Unset is the compiled empty pattern it starts as (a pattern
   * object, which is always true and never equal to a name); Configured is the name read
   * from the scope parameters.
   */
  datatype SubdirSetting = Unset | Configured(name: string)

  /** The parts of a path that pathlib keeps: the empty parts (from repeated or trailing slashes) and "." go. */
  function KeptParts(segs: seq<string>): (r: seq<string>)
    ensures forall i :: 0 <= i < |r| ==> r[i] in segs && r[i] != "" && r[i] != "."
    ensures forall i :: 0 <= i < |segs| && segs[i] != "" && segs[i] != "." ==> segs[i] in r
  {
    if |segs| == 0 then []
    else (if segs[0] != "" && segs[0] != "." then [segs[0]] else []) + KeptParts(segs[1..])
  }

  /** The root of a POSIX path: exactly two leading slashes stay "//", one or three and more become "/". */
  function PathRoot(file: string): string
  {
    if |file| >= 2 && file[0] == '/' && file[1] == '/' && (|file| == 2 || file[2] != '/') then "//"
    else if |file| >= 1 && file[0] == '/' then "/"
    else ""
  }

  /**
   * str(Path(file).parents[0]) for a POSIX path: the root followed by every kept part but the
   * last, "." for a relative path of one part; a path with no kept part ("", ".", "/", "./")
   * has no parents and raises IndexError (None).
   */
  function Parent(file: string): (r: Option<string>)
    ensures r.None? <==> forall i :: 0 <= i < |Split(file, '/')| ==> Split(file, '/')[i] in {"", "."}
  {
    var parts := KeptParts(Split(file, '/'));
    if |parts| == 0 then
      assert forall i :: 0 <= i < |Split(file, '/')| ==> Split(file, '/')[i] in {"", "."};
      None
    else
      assert parts[0] in Split(file, '/');
      var dirParts := parts[..|parts| - 1];
      if PathRoot(file) == "" && |dirParts| == 0 then Some(".")
      else Some(PathRoot(file) + Join("/", dirParts))
  }

  /** Splitting at a separator splits the two sides apart. */
  lemma {:induction false} SplitAround(s: string, c: char, t: string)
    ensures Split(s + [c] + t, c) == Split(s, c) + Split(t, c)
    decreases |s|
  {
    if |s| == 0 {
      assert s + [c] + t == [c] + t;
      assert ([c] + t)[1..] == t;
    } else {
      assert (s + [c] + t)[0] == s[0];
      assert (s + [c] + t)[1..] == s[1..] + [c] + t;
      SplitAround(s[1..], c, t);
    }
  }

  /** A text without the separator is one part. */
  lemma {:induction false} SplitWithout(s: string, c: char)
    requires c !in s
    ensures Split(s, c) == [s]
    decreases |s|
  {
    if |s| > 0 {
      assert c !in s[1..];
      SplitWithout(s[1..], c);
      assert [s[0]] + s[1..] == s;
    }
  }

  /** Parts that are all kept stay as they are. */
  lemma {:induction false} KeptPartsAll(segs: seq<string>)
    requires forall i :: 0 <= i < |segs| ==> segs[i] != "" && segs[i] != "."
    ensures KeptParts(segs) == segs
    decreases |segs|
  {
    if |segs| > 0 {
      KeptPartsAll(segs[1..]);
      assert [segs[0]] + segs[1..] == segs;
    }
  }

  /**
   * The parent of dir/name is dir, for a relative directory written without empty or "."
   * parts (no leading, doubled or trailing slash) and a file name that is neither "" nor ".".
   */
  lemma ParentOfFileInDir(dir: string, name: string)
    requires forall i :: 0 <= i < |Split(dir, '/')| ==> Split(dir, '/')[i] != "" && Split(dir, '/')[i] != "."
    requires name != "" && name != "." && '/' !in name
    ensures Parent(dir + "/" + name) == Some(dir)
  {
    var file := dir + "/" + name;
    assert file == dir + ['/'] + name;
    SplitAround(dir, '/', name);
    SplitWithout(name, '/');
    var segs := Split(dir, '/') + [name];
    assert Split(file, '/') == segs;
    KeptPartsAll(segs);
    assert KeptParts(Split(file, '/'))[..|segs| - 1] == Split(dir, '/');
    JoinSplit(dir, '/');
    assert |dir| > 0 && dir[0] != '/' by {
      assert Split(dir, '/')[0] != "";
    }
    assert file[0] == dir[0];
    assert PathRoot(file) == "";
    assert "" + Join("/", Split(dir, '/')) == dir;
  }

  /** "/" is a root with no parts, so it has no parent (IndexError). */
  lemma ParentOfRoot()
    ensures Parent("/") == None
  {
    SplitAround("", '/', "");
    assert Split("/", '/') == ["", ""];
  }

  /** A trailing slash is dropped: "a/" is the file a in the current directory. */
  lemma ParentDropsTrailingSlash()
    ensures Parent("a/") == Some(".")
  {
    SplitAround("a", '/', "");
    SplitWithout("a", '/');
    assert Split("a/", '/') == ["a", ""];
    assert KeptParts(["a", ""]) == ["a"];
  }

  /** A plain path part: not empty, not ".", no slash. */
  predicate PlainPart(p: string)
  {
    p != "" && p != "." && '/' !in p
  }

  /** The parts of ./dir//name as str.split("/") gives them. */
  lemma SplitDotDir(dir: string, name: string)
    requires PlainPart(dir) && PlainPart(name)
    ensures Split("./" + dir + "//" + name, '/') == [".", dir, "", name]
  {
    var tail := "" + ['/'] + name;
    var mid := dir + ['/'] + tail;
    assert "./" + dir + "//" + name == "." + ['/'] + mid;
    SplitWithout(".", '/');
    SplitWithout(dir, '/');
    SplitWithout(name, '/');
    SplitAround("", '/', name);
    SplitAround(dir, '/', tail);
    SplitAround(".", '/', mid);
  }

  /** "." parts and doubled slashes vanish: ./dir//name is name in dir. */
  lemma ParentDropsDotParts(dir: string, name: string)
    requires PlainPart(dir) && PlainPart(name)
    ensures Parent("./" + dir + "//" + name) == Some(dir)
  {
    var file := "./" + dir + "//" + name;
    var segs := [".", dir, "", name];
    SplitDotDir(dir, name);
    assert KeptParts(segs) == [dir, name] by {
      KeptPartsAll([name]);
      assert ["", name][1..] == [name];
      assert KeptParts(["", name]) == [name];
      assert [dir, "", name][1..] == ["", name];
      assert KeptParts([dir, "", name]) == [dir, name];
      assert segs[1..] == [dir, "", name];
    }
    assert [dir, name][..1] == [dir];
    assert PathRoot(file) == "";
    assert "" + dir == dir;
  }

  /** The parts of //dir/name as str.split("/") gives them. */
  lemma SplitDoubleSlash(dir: string, name: string)
    requires PlainPart(dir) && PlainPart(name)
    ensures Split("//" + dir + "/" + name, '/') == ["", "", dir, name]
  {
    var mid := dir + ['/'] + name;
    var inner := "" + ['/'] + mid;
    assert "//" + dir + "/" + name == "" + ['/'] + inner;
    SplitWithout(dir, '/');
    SplitWithout(name, '/');
    SplitAround(dir, '/', name);
    SplitAround("", '/', mid);
    SplitAround("", '/', inner);
  }

  /** Exactly two leading slashes stay a root of their own: the parent of //dir/name is //dir. */
  lemma ParentKeepsDoubleSlashRoot(dir: string, name: string)
    requires PlainPart(dir) && PlainPart(name)
    ensures Parent("//" + dir + "/" + name) == Some("//" + dir)
  {
    var file := "//" + dir + "/" + name;
    var segs := ["", "", dir, name];
    SplitDoubleSlash(dir, name);
    assert KeptParts(segs) == [dir, name] by {
      KeptPartsAll([dir, name]);
      assert ["", dir, name][1..] == [dir, name];
      assert KeptParts(["", dir, name]) == [dir, name];
      assert segs[1..] == ["", dir, name];
    }
    assert [dir, name][..1] == [dir];
    assert file[0] == '/' && file[1] == '/' && file[2] == dir[0] && dir[0] != '/';
    assert PathRoot(file) == "//";
  }

  /** ([1-3][0-9]{3}) matches at i. */
  predicate YearAt(s: string, i: nat)
  {
    i + 4 <= |s| && '1' <= s[i] <= '3' && s[i + 1] in Digits && s[i + 2] in Digits && s[i + 3] in Digits
  }

  /**
   * ([0-9]{1,3})(_|/)([0-9]{1,2}) matches at i. The first group can only end where the run of
   * digits from i ends, so the run has one to three digits and is followed by a separator
   * and a digit.
   */
  predicate VolumeNumberAt(s: string, i: nat)
  {
    i <= |s| && (
      var l := RunLength(s, i, Digits);
      1 <= l <= 3 && i + l + 1 < |s| && (s[i + l] == '_' || s[i + l] == '/') && s[i + l + 1] in Digits)
  }

  /** The regular expression's reading: some first group of 1 to 3 digits, a separator, a digit. */
  predicate VolumeNumberSplit(s: string, i: nat, g: nat)
  {
    1 <= g <= 3 && i + g + 1 < |s| && (forall j :: i <= j < i + g ==> s[j] in Digits)
    && (s[i + g] == '_' || s[i + g] == '/') && s[i + g + 1] in Digits
  }

  /** The greedy reading finds a match exactly where the regular expression has one. */
  lemma VolumeNumberAtIsPattern(s: string, i: nat)
    requires i <= |s|
    ensures VolumeNumberAt(s, i) <==> exists g :: VolumeNumberSplit(s, i, g)
  {
    var l := RunLength(s, i, Digits);
    if VolumeNumberAt(s, i) {
      assert VolumeNumberSplit(s, i, l);
    }
    if exists g :: VolumeNumberSplit(s, i, g) {
      var g :| VolumeNumberSplit(s, i, g);
      assert s[i + g] !in Digits;
      assert g == l;
    }
  }

  /** A digit at i: where [0-9]{1,n} matches. */
  predicate DigitAt(s: string, i: nat)
  {
    i < |s| && s[i] in Digits
  }

  /** The greedy group of at most max digits from i. */
  function DigitGroup(s: string, i: nat, max: nat): (r: string)
    requires i <= |s|
    ensures |r| <= max && forall c :: c in r ==> c in Digits
  {
    var l := RunLength(s, i, Digits);
    s[i..i + (if l <= max then l else max)]
  }

  /** The three searches the patterns run. */
  datatype Probe = Year | VolumeNumber | Digit

  predicate MatchAt(probe: Probe, s: string, i: nat)
  {
    match probe
    case Year => YearAt(s, i)
    case VolumeNumber => VolumeNumberAt(s, i)
    case Digit => DigitAt(s, i)
  }

  /** The first position from `from` on where the probe matches: where re.search finds its match. */
  function Leftmost(probe: Probe, s: string, from: nat): (r: Option<nat>)
    ensures r.Some? ==> from <= r.value < |s| && MatchAt(probe, s, r.value)
    ensures r.Some? ==> forall j :: from <= j < r.value ==> !MatchAt(probe, s, j)
    ensures r.None? ==> forall j :: from <= j < |s| ==> !MatchAt(probe, s, j)
    decreases |s| - from
  {
    if from >= |s| then None else if MatchAt(probe, s, from) then Some(from) else Leftmost(probe, s, from + 1)
  }

  /** The scope's journal makes an article, its conference an inproceedings; the conference comes second and wins. */
  function ScopeFields(d: map<string, string>, scope: map<string, string>): (r: map<string, string>)
  {
    var d := if "journal" in scope then d["journal" := scope["journal"]]["ENTRYTYPE" := "article"] else d;
    if "conference" in scope then d["booktitle" := scope["conference"]]["ENTRYTYPE" := "inproceedings"] else d
  }

  lemma ScopeFieldsSet(d: map<string, string>, scope: map<string, string>)
    ensures var r := ScopeFields(d, scope);
      && ("conference" in scope ==> r["ENTRYTYPE"] == "inproceedings" && r["booktitle"] == scope["conference"])
      && ("journal" in scope ==> r["journal"] == scope["journal"])
      && ("journal" in scope && "conference" !in scope ==> r["ENTRYTYPE"] == "article")
      && ("journal" !in scope && "conference" !in scope ==> r == d)
  {
  }

  /** The fields the configured pattern reads from the directory. */
  function PatternFields(d: map<string, string>, name: string, dir: string): map<string, string>
  {
    if name == "year" then
      match Leftmost(Year, dir, 0)
      case None => d
      case Some(i) => d["year" := dir[i..i + 4]]
    else if name == "volume_number" then
      match Leftmost(VolumeNumber, dir, 0)
      case Some(i) =>
        var l := RunLength(dir, i, Digits);
        d["volume" := dir[i..i + l]]["number" := DigitGroup(dir, i + l + 1, 2)]
      case None =>
        match Leftmost(Digit, dir, 0)
        case None => d
        case Some(i) => d["volume" := DigitGroup(dir, i, 3)]
    else if name == "volume" then
      match Leftmost(Digit, dir, 0)
      case None => d
      case Some(i) => d["volume" := DigitGroup(dir, i, 4)]
    else d
  }

  /** The year is the leftmost four-digit run starting with 1 to 3, and nothing else changes. */
  lemma PatternYear(d: map<string, string>, dir: string)
    ensures var r := PatternFields(d, "year", dir);
      && ((forall i :: 0 <= i < |dir| ==> !YearAt(dir, i)) ==> r == d)
      && (forall i :: 0 <= i < |dir| && YearAt(dir, i) && (forall j :: 0 <= j < i ==> !YearAt(dir, j)) ==>
            r == d["year" := dir[i..i + 4]])
  {
    var m := Leftmost(Year, dir, 0);
    forall i | 0 <= i < |dir| && YearAt(dir, i) && (forall j :: 0 <= j < i ==> !YearAt(dir, j))
      ensures PatternFields(d, "year", dir) == d["year" := dir[i..i + 4]]
    {
      assert MatchAt(Year, dir, i);
      assert m.Some? && YearAt(dir, m.value);
      assert i == m.value;
    }
  }

  /** volume_number falls back to a volume of up to three digits only when no volume/number pair matches. */
  lemma PatternVolumeNumber(d: map<string, string>, dir: string)
    ensures var r := PatternFields(d, "volume_number", dir);
      && ((exists i :: 0 <= i < |dir| && VolumeNumberAt(dir, i)) ==> "volume" in r && "number" in r)
      && ((forall i :: 0 <= i < |dir| ==> !VolumeNumberAt(dir, i)) ==>
            ("number" in r <==> "number" in d) && ("number" in d ==> r["number"] == d["number"])
            && ("volume" in r <==> "volume" in d || exists i :: 0 <= i < |dir| && DigitAt(dir, i))
            && ("volume" in r && "volume" !in d ==> 1 <= |r["volume"]| <= 3))
  {
    if exists i :: 0 <= i < |dir| && VolumeNumberAt(dir, i) {
      var i :| 0 <= i < |dir| && VolumeNumberAt(dir, i);
      VolumeNumberFound(d, dir, i);
    } else {
      VolumeNumberMissing(d, dir);
    }
  }

  /** A directory with a volume_number match sets both fields. */
  lemma VolumeNumberFound(d: map<string, string>, dir: string, i: nat)
    requires i < |dir| && VolumeNumberAt(dir, i)
    ensures var r := PatternFields(d, "volume_number", dir); "volume" in r && "number" in r
  {
    assert MatchAt(VolumeNumber, dir, i);
    assert Leftmost(VolumeNumber, dir, 0).Some?;
  }

  /** Without a volume_number match, only the volume may be set, from the leftmost digits. */
  lemma VolumeNumberMissing(d: map<string, string>, dir: string)
    requires forall i :: 0 <= i < |dir| ==> !VolumeNumberAt(dir, i)
    ensures var r := PatternFields(d, "volume_number", dir);
      && ("number" in r <==> "number" in d) && ("number" in d ==> r["number"] == d["number"])
      && ("volume" in r <==> "volume" in d || exists i :: 0 <= i < |dir| && DigitAt(dir, i))
      && ("volume" in r && "volume" !in d ==> 1 <= |r["volume"]| <= 3)
  {
    var f := Leftmost(Digit, dir, 0);
    if exists i :: 0 <= i < |dir| && DigitAt(dir, i) {
      var i :| 0 <= i < |dir| && DigitAt(dir, i);
      assert MatchAt(Digit, dir, i);
    }
    if f.Some? {
      assert RunLength(dir, f.value, Digits) >= 1;
    }
  }

  /**
   * __update_fields_based_on_pdf_dirs: the result and the record dict after it. A pattern
   * configured as "" returns at once; otherwise the scope fields are set, and then the
   * directory of the file is read (KeyError without a file, IndexError without a parent),
   * so a failure leaves the scope fields set.
   */
  function DirUpdate(d: map<string, string>, scope: Option<map<string, string>>, setting: SubdirSetting)
    : (Result<Unit>, map<string, string>)
  {
    if setting == Configured("") then (Ok(()), d)
    else if scope.None? then (Err(KeyError("scope")), d)
    else
      var d := ScopeFields(d, scope.value);
      if "file" !in d then (Err(KeyError("file")), d)
      else
        match Parent(d["file"])
        case None => (Err(IndexError), d)
        case Some(dir) => (Ok(()), if setting.Configured? then PatternFields(d, setting.name, dir) else d)
  }

  /** An unconfigured pattern still applies the scope, but reads nothing from the directory. */
  lemma DirUpdateUnset(d: map<string, string>, scope: map<string, string>)
    requires "file" in ScopeFields(d, scope) && Parent(ScopeFields(d, scope)["file"]).Some?
    ensures DirUpdate(d, Some(scope), Unset) == (Ok(()), ScopeFields(d, scope))
  {
  }

  method UpdateFieldsBasedOnPdfDirs(record: PdfRecord, scope: Option<map<string, string>>, setting: SubdirSetting)
    returns (r: Result<Unit>)
    modifies record
    ensures (r, record.data) == DirUpdate(old(record.data), scope, setting)
  {
    if setting == Configured("") {
      return Ok(());
    }
    if scope.None? {
      return Err(KeyError("scope"));
    }
    var params := scope.value;
    if "journal" in params {
      record.data := record.data["journal" := params["journal"]];
      record.data := record.data["ENTRYTYPE" := "article"];
    }
    if "conference" in params {
      record.data := record.data["booktitle" := params["conference"]];
      record.data := record.data["ENTRYTYPE" := "inproceedings"];
    }
    assert record.data == ScopeFields(old(record.data), params);
    if "file" !in record.data {
      return Err(KeyError("file"));
    }
    var parent := Parent(record.data["file"]);
    if parent.None? {
      return Err(IndexError);
    }
    if setting.Configured? {
      record.data := PatternFields(record.data, setting.name, parent.value);
    }
    r := Ok(());
  }

  // ---------------------------------------------------------------------------
  // Title suffixes

  /** re.match(r"\d{4}$", title): four digits and the end, or a final newline. */
  predicate FourDigitTitle(t: string)
  {
    (|t| == 4 || (|t| == 5 && t[4] == '\n')) && t[0] in Digits && t[1] in Digits && t[2] in Digits && t[3] in Digits
  }

  /** __fix_title_suffix on the record dict. */
  function TitleSuffixFixed(d: map<string, string>): map<string, string>
  {
    if "title" !in d then d
    else
      var t := d["title"];
      if EndsWith(t, "Formula 1") || FourDigitTitle(t) then d
      else if EndsWith(t, " 1") then d["title" := t[..|t| - 2]]
      else d
  }

  /** A title ending in " 1" loses those two characters unless it ends with "Formula 1"; nothing else changes. */
  lemma TitleSuffixEffect(d: map<string, string>)
    ensures var r := TitleSuffixFixed(d);
      && ("title" in d && EndsWith(d["title"], " 1") && !EndsWith(d["title"], "Formula 1") ==>
            r == d["title" := d["title"][..|d["title"]| - 2]])
      && (!("title" in d && EndsWith(d["title"], " 1") && !EndsWith(d["title"], "Formula 1")) ==> r == d)
  {
    if "title" in d && FourDigitTitle(d["title"]) {
      FourDigitTitleNoSuffix(d["title"]);
    }
  }

  /** The four-digit test never decides anything: such a title cannot end in " 1". */
  lemma FourDigitTitleNoSuffix(t: string)
    requires FourDigitTitle(t)
    ensures !EndsWith(t, " 1")
  {
    if |t| == 4 {
      assert t[|t| - 2] != ' ';
    } else {
      assert t[|t| - 1] != '1';
    }
  }

  method FixTitleSuffix(record: PdfRecord)
    modifies record
    ensures record.data == TitleSuffixFixed(old(record.data))
  {
    if "title" !in record.data {
      return;
    }
    if EndsWith(record.data["title"], "Formula 1") {
      return;
    }
    if FourDigitTitle(record.data["title"]) {
      return;
    }
    if EndsWith(Get(record.data, "title", ""), " 1") {
      var t := record.data["title"];
      record.data := record.data["title" := t[..|t| - 2]];
    }
  }

  // ---------------------------------------------------------------------------
  // Special characters

  /** A letter, a space and a spacing accent, as GROBID splits them, and the accented letter. */
  const CharFixes: seq<(string, string)> := [
    ("n \U{2DC}", "\U{F1}"), ("u \U{B4}", "\U{FA}"), ("\U{131} \U{B4}", "\U{ED}"), ("a \U{B4}", "\U{E1}"),
    ("o \U{B4}", "\U{F3}"), ("e \U{B4}", "\U{E9}"), ("c \U{B8}", "\U{E7}"), ("a \U{2DC}", "\U{E3}")]

  /** The spacing accents the fixes look for. */
  const Accents: set<char> := {'\U{2DC}', '\U{B4}', '\U{B8}'}

  /** The replacements, in order. */
  function ApplyFixes(s: string, fixes: seq<(string, string)>): string
    requires forall i :: 0 <= i < |fixes| ==> |fixes[i].0| > 0
    decreases |fixes|
  {
    if |fixes| == 0 then s else ApplyFixes(Replace(s, fixes[0].0, fixes[0].1), fixes[1..])
  }

  function FixChars(s: string): string
  {
    ApplyFixes(s, CharFixes)
  }

  /** A text that holds a pattern holds each of its characters. */
  lemma ContainsHasChar(s: string, p: string, i: nat)
    requires Contains(s, p) && i < |p|
    ensures p[i] in s
  {
    var k := Find(s, p);
    assert s[k..k + |p|][i] == s[k + i];
  }

  lemma {:induction false} ApplyFixesWithoutAccents(s: string, fixes: seq<(string, string)>)
    requires forall i :: 0 <= i < |fixes| ==> |fixes[i].0| > 0 && exists c :: c in fixes[i].0 && c in Accents
    requires forall c :: c in s ==> c !in Accents
    ensures ApplyFixes(s, fixes) == s
    decreases |fixes|
  {
    if |fixes| > 0 {
      var c :| c in fixes[0].0 && c in Accents;
      if Contains(s, fixes[0].0) {
        var i :| 0 <= i < |fixes[0].0| && fixes[0].0[i] == c;
        ContainsHasChar(s, fixes[0].0, i);
      }
      ReplaceAbsent(s, fixes[0].0, fixes[0].1);
      ApplyFixesWithoutAccents(s, fixes[1..]);
    }
  }

  /** A text without a spacing accent is left as it is. */
  lemma FixCharsWithoutAccents(s: string)
    requires forall c :: c in s ==> c !in Accents
    ensures FixChars(s) == s
  {
    forall i | 0 <= i < |CharFixes|
      ensures exists c :: c in CharFixes[i].0 && c in Accents
    {
      assert CharFixes[i].0[2] in Accents;
    }
    ApplyFixesWithoutAccents(s, CharFixes);
  }

  /** __fix_special_chars on the record dict: title and author. */
  function SpecialCharsFixed(d: map<string, string>): map<string, string>
  {
    var d := if "title" in d then d["title" := FixChars(d["title"])] else d;
    if "author" in d then d["author" := FixChars(d["author"])] else d
  }

  method FixSpecialChars(record: PdfRecord)
    modifies record
    ensures record.data == SpecialCharsFixed(old(record.data))
  {
    if "title" in record.data {
      record.data := record.data["title" := FixChars(record.data["title"])];
    }
    if "author" in record.data {
      record.data := record.data["author" := FixChars(record.data["author"])];
    }
  }

  // ---------------------------------------------------------------------------
  // Special outlets

  const IsConferences := [
    "Americas Conference on Information Systems", "International Conference on Information Systems",
    "European Conference on Information Systems", "Pacific Asia Conference on Information Systems"]

  const OutletSuffixes := [
    "completed research paper", "completed research", "complete research", "full research paper",
    "research in progress", "(research in progress)"]

  /** The characters rstrip(" -:") removes. */
  const TrailingJunk: set<char> := {' ', '-', ':'}

  /** One suffix: when the lower-cased title ends with it, it is cut off with the " -:" before it. */
  function StripOutletSuffix(t: string, suffix: string): (r: string)
    ensures |r| <= |t| && r == t[..|r|]
  {
    if EndsWith(Lower(t), suffix) then RStrip(t[..|t| - |suffix|], TrailingJunk) else t
  }

  /** After a suffix is cut, the title does not end in " -:" and only " -:" lay between it and the suffix. */
  lemma StripOutletSuffixShape(t: string, suffix: string)
    requires EndsWith(Lower(t), suffix)
    ensures |suffix| <= |t|
    ensures var r := StripOutletSuffix(t, suffix);
      && |r| <= |t| - |suffix|
      && (|r| > 0 ==> r[|r| - 1] !in TrailingJunk)
      && (forall i :: |r| <= i < |t| - |suffix| ==> t[i] in TrailingJunk)
  {
    var base := t[..|t| - |suffix|];
    RStripRemovesRun(base, TrailingJunk);
    var r := RStrip(base, TrailingJunk);
    assert StripOutletSuffix(t, suffix) == r;
    forall i | |r| <= i < |t| - |suffix|
      ensures t[i] in TrailingJunk
    {
      assert base[i] == t[i];
    }
  }

  /** The suffixes tried in list order, each on the title the previous ones left; a prefix of the title. */
  function OutletTitle(t: string, suffixes: seq<string>): (r: string)
    ensures |r| <= |t| && r == t[..|r|]
    decreases |suffixes|
  {
    if |suffixes| == 0 then t
    else StripOutletSuffix(OutletTitle(t, suffixes[..|suffixes| - 1]), suffixes[|suffixes| - 1])
  }

  /** One more suffix is tried on the title the earlier ones left. */
  lemma OutletTitleSnoc(t: string, suffixes: seq<string>, x: string)
    ensures OutletTitle(t, suffixes + [x]) == StripOutletSuffix(OutletTitle(t, suffixes), x)
  {
    var all := suffixes + [x];
    assert all[..|all| - 1] == suffixes;
  }

  /** A title none of whose suffixes match stays as it is. */
  lemma {:induction false} OutletTitleUnmatched(t: string, suffixes: seq<string>)
    requires forall i :: 0 <= i < |suffixes| ==> !EndsWith(Lower(t), suffixes[i])
    ensures OutletTitle(t, suffixes) == t
    decreases |suffixes|
  {
    if |suffixes| > 0 {
      OutletTitleUnmatched(t, suffixes[..|suffixes| - 1]);
    }
  }

  /** __fix_special_outlets on the record dict; a listed conference without a title raises KeyError. */
  function SpecialOutletsFixed(d: map<string, string>): (r: Result<map<string, string>>)
    ensures r.Err? <==> Get(d, "booktitle", "") in IsConferences && "title" !in d
    ensures r.Err? ==> r.error == KeyError("title")
    ensures r.Ok? && Get(d, "booktitle", "") !in IsConferences ==> r.value == d
    ensures r.Ok? ==> r.value.Keys == d.Keys && forall k :: k in d && k != "title" ==> r.value[k] == d[k]
  {
    if Get(d, "booktitle", "") in IsConferences then
      if "title" !in d then Err(KeyError("title"))
      else Ok(d["title" := OutletTitle(d["title"], OutletSuffixes)])
    else Ok(d)
  }

  /** One suffix of the loop in fix_special_outlets: cut from the title when the lowered title ends with it. */
  method StripSuffix(record: PdfRecord, suffix: string)
    requires "title" in record.data
    modifies record
    ensures record.data == old(record.data)["title" := StripOutletSuffix(old(record.data)["title"], suffix)]
  {
    var t := record.data["title"];
    if EndsWith(Lower(t), suffix) {
      record.data := record.data["title" := RStrip(t[..|t| - |suffix|], TrailingJunk)];
    } else {
      assert record.data == record.data["title" := t];
    }
  }

  method FixSpecialOutlets(record: PdfRecord) returns (r: Result<Unit>)
    modifies record
    ensures var fixed := SpecialOutletsFixed(old(record.data));
      && (fixed.Err? ==> r == Err(fixed.error) && record.data == old(record.data))
      && (fixed.Ok? ==> r == Ok(()) && record.data == fixed.value)
  {
    if Get(record.data, "booktitle", "") in IsConferences {
      ghost var d0 := record.data;
      ghost var done: seq<string> := [];
      var i := 0;
      while i < |OutletSuffixes|
        invariant 0 <= i <= |OutletSuffixes| && done == OutletSuffixes[..i] && d0 == old(record.data)
        invariant i > 0 ==> "title" in d0
        invariant "title" in d0 ==> record.data == d0["title" := OutletTitle(d0["title"], done)]
        invariant "title" !in d0 ==> record.data == d0
      {
        if "title" !in record.data {
          return Err(KeyError("title"));
        }
        var suffix := OutletSuffixes[i];
        TakeSnoc(OutletSuffixes, i);
        OutletTitleSnoc(d0["title"], done, suffix);
        StripSuffix(record, suffix);
        done := done + [suffix];
        i := i + 1;
      }
      TakeAll(OutletSuffixes);
    }
    r := Ok(());
  }

  // ---------------------------------------------------------------------------
  // prepare

  const AuthorNoiseArticleInfo := " and T I C L E I N F O, A. R"
  const AuthorNoiseQuarterly := " and Quarterly, Mis"
  const StatusKey := "colrev_status"

  /** format_if_mostly_upper for title (sentence case) and journal, booktitle and author (title case). */
  function Recased(d: map<string, string>, recase: (string, string) -> string): map<string, string>
  {
    var d := if "title" in d then d["title" := recase(d["title"], "sentence")] else d;
    var d := if "journal" in d then d["journal" := recase(d["journal"], "title")] else d;
    var d := if "booktitle" in d then d["booktitle" := recase(d["booktitle"], "title")] else d;
    if "author" in d then d["author" := recase(d["author"], "title")] else d
  }

  /** Two pieces GROBID takes for authors are removed from the author field. */
  function AuthorCleaned(d: map<string, string>): map<string, string>
  {
    if "author" in d then d["author" := Replace(Replace(d["author"], AuthorNoiseArticleInfo, ""), AuthorNoiseQuarterly, "")]
    else d
  }

  /**
   * A lower-cased title equal to the journal, then to the booktitle, is removed and the record
   * needs manual preparation. lower stands for str.lower(), whose Unicode case tables are not
   * written out.
   */
  function VenueTitleRemoved(d: map<string, string>, lower: string -> string): map<string, string>
  {
    var d := if lower(Get(d, "title", "no_title")) == Get(d, "journal", "no_journal")
      then (d - {"title"})[StatusKey := MdNeedsManualPreparation] else d;
    if lower(Get(d, "title", "no_title")) == Get(d, "booktitle", "no_booktitle")
      then (d - {"title"})[StatusKey := MdNeedsManualPreparation] else d
  }

  /** The record dict before the outlet fix: recased, authors cleaned, venue titles removed, suffix and characters fixed. */
  function BeforeOutlets(d: map<string, string>, recase: (string, string) -> string, lower: string -> string): map<string, string>
  {
    SpecialCharsFixed(TitleSuffixFixed(VenueTitleRemoved(AuthorCleaned(Recased(d, recase)), lower)))
  }

  /** prepare: the result and the record dict after it. */
  function Prepared(d: map<string, string>, recase: (string, string) -> string, lower: string -> string): (Result<Unit>, map<string, string>)
  {
    var before := BeforeOutlets(d, recase, lower);
    match SpecialOutletsFixed(before)
    case Err(e) => (Err(e), before)
    case Ok(fixed) => (Ok(()), fixed)
  }

  method RecaseFields(record: PdfRecord, recase: (string, string) -> string)
    modifies record
    ensures record.data == Recased(old(record.data), recase)
  {
    if "title" in record.data {
      record.data := record.data["title" := recase(record.data["title"], "sentence")];
    }
    if "journal" in record.data {
      record.data := record.data["journal" := recase(record.data["journal"], "title")];
    }
    if "booktitle" in record.data {
      record.data := record.data["booktitle" := recase(record.data["booktitle"], "title")];
    }
    if "author" in record.data {
      record.data := record.data["author" := recase(record.data["author"], "title")];
    }
  }

  method RemoveVenueTitle(record: PdfRecord, lower: string -> string)
    modifies record
    ensures record.data == VenueTitleRemoved(old(record.data), lower)
  {
    if lower(Get(record.data, "title", "no_title")) == Get(record.data, "journal", "no_journal") {
      record.data := record.data - {"title"};
      record.data := record.data[StatusKey := MdNeedsManualPreparation];
    }
    if lower(Get(record.data, "title", "no_title")) == Get(record.data, "booktitle", "no_booktitle") {
      record.data := record.data - {"title"};
      record.data := record.data[StatusKey := MdNeedsManualPreparation];
    }
  }

  method Prepare(record: PdfRecord, recase: (string, string) -> string, lower: string -> string) returns (r: Result<Unit>)
    modifies record
    ensures (r, record.data) == Prepared(old(record.data), recase, lower)
  {
    RecaseFields(record, recase);
    if "author" in record.data {
      record.data := record.data["author" :=
        Replace(Replace(record.data["author"], AuthorNoiseArticleInfo, ""), AuthorNoiseQuarterly, "")];
    }
    RemoveVenueTitle(record, lower);
    FixTitleSuffix(record);
    FixSpecialChars(record);
    assert record.data == BeforeOutlets(old(record.data), recase, lower);
    r := FixSpecialOutlets(record);
  }

  /** A title that (lower-cased) equals the journal is removed and the status becomes md_needs_manual_preparation. */
  lemma PrepareRemovesJournalTitle(d: map<string, string>, recase: (string, string) -> string, lower: string -> string)
    requires var m := AuthorCleaned(Recased(d, recase));
      "title" in m && lower(m["title"]) == Get(m, "journal", "no_journal")
    ensures var after := Prepared(d, recase, lower).1;
      "title" !in after && StatusKey in after && after[StatusKey] == MdNeedsManualPreparation
  {
    var m := AuthorCleaned(Recased(d, recase));
    JournalTitleRemoved(m, lower);
    FixesWithoutTitle(VenueTitleRemoved(m, lower));
    assert BeforeOutlets(d, recase, lower) == SpecialCharsFixed(TitleSuffixFixed(VenueTitleRemoved(m, lower)));
    OutletsWithoutTitle(BeforeOutlets(d, recase, lower));
  }

  /** A title equal to the journal is removed and the record marked for manual preparation. */
  lemma JournalTitleRemoved(m: map<string, string>, lower: string -> string)
    requires "title" in m && lower(m["title"]) == Get(m, "journal", "no_journal")
    ensures var v := VenueTitleRemoved(m, lower);
      "title" !in v && StatusKey in v && v[StatusKey] == MdNeedsManualPreparation
  {
  }

  /** A title that (lower-cased) equals the booktitle is removed and the status becomes md_needs_manual_preparation. */
  lemma PrepareRemovesBooktitleTitle(d: map<string, string>, recase: (string, string) -> string, lower: string -> string)
    requires var m := AuthorCleaned(Recased(d, recase));
      "title" in m && lower(m["title"]) == Get(m, "booktitle", "no_booktitle")
    ensures var after := Prepared(d, recase, lower).1;
      "title" !in after && StatusKey in after && after[StatusKey] == MdNeedsManualPreparation
  {
    var m := AuthorCleaned(Recased(d, recase));
    BooktitleTitleRemoved(m, lower);
    FixesWithoutTitle(VenueTitleRemoved(m, lower));
    assert BeforeOutlets(d, recase, lower) == SpecialCharsFixed(TitleSuffixFixed(VenueTitleRemoved(m, lower)));
    OutletsWithoutTitle(BeforeOutlets(d, recase, lower));
  }

  /** A title equal to the booktitle is removed, whether or not the journal test removed it first. */
  lemma BooktitleTitleRemoved(m: map<string, string>, lower: string -> string)
    requires "title" in m && lower(m["title"]) == Get(m, "booktitle", "no_booktitle")
    ensures var v := VenueTitleRemoved(m, lower);
      "title" !in v && StatusKey in v && v[StatusKey] == MdNeedsManualPreparation
  {
    if lower(m["title"]) != Get(m, "journal", "no_journal") {
      assert Get(m, "title", "no_title") == m["title"];
    }
  }

  /** Without a title, the suffix and character fixes leave the status alone. */
  lemma FixesWithoutTitle(v: map<string, string>)
    requires "title" !in v && StatusKey in v
    ensures var b := SpecialCharsFixed(TitleSuffixFixed(v));
      "title" !in b && StatusKey in b && b[StatusKey] == v[StatusKey]
  {
    assert TitleSuffixFixed(v) == v;
    FixesKeep(v, StatusKey);
  }

  /** Without a title, the outlet fix keeps the record dict whether it fails or not. */
  lemma OutletsWithoutTitle(before: map<string, string>)
    requires "title" !in before
    ensures SpecialOutletsFixed(before).Ok? ==> SpecialOutletsFixed(before).value == before
  {
  }

  /** prepare fails exactly for a listed conference whose record has no title by then, with KeyError("title"). */
  lemma PrepareFails(d: map<string, string>, recase: (string, string) -> string, lower: string -> string)
    ensures var before := BeforeOutlets(d, recase, lower);
      (Prepared(d, recase, lower).0.Err? <==> Get(before, "booktitle", "") in IsConferences && "title" !in before)
      && (Prepared(d, recase, lower).0.Err? ==> Prepared(d, recase, lower).0.error == KeyError("title"))
  {
  }

  lemma RecasedKeeps(d: map<string, string>, recase: (string, string) -> string, k: string)
    requires k != "title" && k != "journal" && k != "booktitle" && k != "author"
    ensures k in Recased(d, recase) <==> k in d
    ensures k in d ==> Recased(d, recase)[k] == d[k]
  {
  }

  lemma VenueTitleRemovedKeeps(d: map<string, string>, lower: string -> string, k: string)
    requires k != "title" && k != StatusKey
    ensures k in VenueTitleRemoved(d, lower) <==> k in d
    ensures k in d ==> VenueTitleRemoved(d, lower)[k] == d[k]
  {
    var d1 := if lower(Get(d, "title", "no_title")) == Get(d, "journal", "no_journal")
      then (d - {"title"})[StatusKey := MdNeedsManualPreparation] else d;
    assert k in d1 <==> k in d;
    assert k in d ==> d1[k] == d[k];
  }

  lemma FixesKeep(d: map<string, string>, k: string)
    requires k != "title" && k != "author"
    ensures k in SpecialCharsFixed(TitleSuffixFixed(d)) <==> k in d
    ensures k in d ==> SpecialCharsFixed(TitleSuffixFixed(d))[k] == d[k]
  {
  }

  /** The outlet fix changes nothing but the title. */
  lemma PreparedFromBefore(d: map<string, string>, recase: (string, string) -> string, lower: string -> string, k: string)
    requires k != "title"
    ensures var before := BeforeOutlets(d, recase, lower);
      && (k in Prepared(d, recase, lower).1 <==> k in before)
      && (k in before ==> Prepared(d, recase, lower).1[k] == before[k])
  {
  }

  lemma BeforeOutletsKeeps(d: map<string, string>, recase: (string, string) -> string, lower: string -> string, k: string)
    requires k != "title" && k != "journal" && k != "booktitle" && k != "author" && k != StatusKey
    ensures k in BeforeOutlets(d, recase, lower) <==> k in d
    ensures k in d ==> BeforeOutlets(d, recase, lower)[k] == d[k]
  {
    var c := Recased(d, recase);
    RecasedKeeps(d, recase, k);
    var m := AuthorCleaned(c);
    var v := VenueTitleRemoved(m, lower);
    VenueTitleRemovedKeeps(m, lower, k);
    FixesKeep(v, k);
  }

  /** Keys other than title, journal, booktitle, author and the status come out unchanged. */
  lemma PrepareKeepsOtherKeys(d: map<string, string>, recase: (string, string) -> string, lower: string -> string, k: string)
    requires k != "title" && k != "journal" && k != "booktitle" && k != "author" && k != StatusKey
    ensures k in Prepared(d, recase, lower).1 <==> k in d
    ensures k in d ==> Prepared(d, recase, lower).1[k] == d[k]
  {
    BeforeOutletsKeeps(d, recase, lower, k);
    PreparedFromBefore(d, recase, lower, k);
  }
}
