/**
 * Shared vocabulary of the CoLRev model: the record, error wrappers, and the
 * Python string operations the operations are written in (str.find, str.rfind,
 * slicing with negative indices, str.replace, str.count, str.split, str.join,
 * str.strip and friends), each stated with the meaning Python gives it.
 */
module Common {

  datatype Option<T> = None | Some(value: T)
  {
    predicate IsSome() { Some? }
  }

  /** An operation either yields a value or raises a Python exception. */
  datatype Result<T> = Ok(value: T) | Err(error: Exception)

  /** What a procedure that returns None yields when it does not raise. */
  type Unit = ()

  /** The exceptions the modelled code raises (or lets escape). */
  datatype Exception =
    | KeyError(key: string)
    | IndexError
    | ValueError
    | UnboundLocalError(variable: string)
    | NameError(variable: string)
    | AssertionError
    | NotImplementedError
    | ParameterError(options: seq<string>)
    | InvalidQueryException(message: string)
    | PackageParameterError(message: string)
    | CoLRevException(message: string)
    | EOFError
    | FileNotFoundError(path: string)

  /** One entry of colrev_data_provenance: where a field came from and a note. */
  datatype Provenance = Provenance(source: string, note: string)

  /**
   * A bibliographic record: its plain fields (ID, ENTRYTYPE, title, colrev_status, …),
   * its colrev_origin list, and its colrev_data_provenance.
   */
  datatype Record = Record(fields: map<string, string>, origin: seq<string>,
                           dataProvenance: map<string, Provenance>)

  // The record states (colrev.record.RecordState) the modelled code tests for.
  const MdImported := "md_imported"
  const MdNeedsManualPreparation := "md_needs_manual_preparation"
  const MdPrepared := "md_prepared"
  const MdProcessed := "md_processed"
  const PdfNeedsManualPreparation := "pdf_needs_manual_preparation"

  /** dict.get(key, default) */
  function Get(m: map<string, string>, k: string, default: string): (v: string)
    ensures k in m ==> v == m[k]
    ensures k !in m ==> v == default
  {
    if k in m then m[k] else default
  }

  /** The ID of a record (stores always key records by it). */
  function Id(r: Record): string
  {
    Get(r.fields, "ID", "")
  }

  function Status(r: Record): string
  {
    Get(r.fields, "colrev_status", "")
  }

  predicate DistinctIds(s: seq<Record>)
  {
    forall i, j :: 0 <= i < j < |s| ==> Id(s[i]) != Id(s[j])
  }

  function Ids(s: seq<Record>): (r: seq<string>)
    ensures |r| == |s|
    ensures forall i :: 0 <= i < |s| ==> r[i] == Id(s[i])
  {
    if |s| == 0 then [] else [Id(s[0])] + Ids(s[1..])
  }

  /** max(len(x) for x in s) */
  function MaxLength(s: seq<string>): (r: nat)
    requires |s| > 0
    ensures forall i :: 0 <= i < |s| ==> |s[i]| <= r
    ensures exists i :: 0 <= i < |s| && |s[i]| == r
  {
    if |s| == 1 then |s[0]|
    else
      var m := MaxLength(s[1..]);
      if |s[0]| >= m then |s[0]| else m
  }

  /** PAD = min(max(len(ID)) + 2, cap); max() over no records raises ValueError. */
  function PadWidth(ids: seq<string>, cap: nat): (r: Result<nat>)
    ensures r.Err? <==> |ids| == 0
    ensures r.Err? ==> r.error == ValueError
    ensures r.Ok? ==> r.value <= cap
    ensures r.Ok? ==> forall i :: 0 <= i < |ids| ==> |ids[i]| + 2 <= r.value || r.value == cap
    ensures r.Ok? && r.value < cap ==> exists i :: 0 <= i < |ids| && |ids[i]| + 2 == r.value
    ensures r.Ok? && r.value == cap ==> exists i :: 0 <= i < |ids| && |ids[i]| + 2 >= cap
  {
    if |ids| == 0 then Err(ValueError)
    else
      var w := MaxLength(ids) + 2;
      Ok(if w < cap then w else cap)
  }

  /** The first stored record with the given ID. */
  function FindById(store: seq<Record>, id: string): (r: Option<Record>)
    ensures r.None? ==> forall i :: 0 <= i < |store| ==> Id(store[i]) != id
    ensures r.Some? ==> Id(r.value) == id && r.value in store
  {
    if |store| == 0 then None
    else if Id(store[0]) == id then Some(store[0])
    else
      FindById(store[1..], id)
  }

  /** Looking up an ID the store holds finds a record. */
  lemma FindByIdPresent(store: seq<Record>, id: string)
    requires id in Ids(store)
    ensures FindById(store, id).Some?
  {
    var i :| 0 <= i < |store| && Ids(store)[i] == id;
  }

  /** The elements once a loop has applied f in place to the first i of them. */
  function AppliedUpTo<T>(s: seq<T>, f: T -> T, i: nat): (r: seq<T>)
    requires i <= |s|
    ensures |r| == |s|
  {
    seq(|s|, j requires 0 <= j < |s| => if j < i then f(s[j]) else s[j])
  }

  // ---------------------------------------------------------------------------
  // Sequence slices

  lemma DropDrop<T>(s: seq<T>, a: nat, b: nat)
    requires a + b <= |s|
    ensures s[a..][b..] == s[a + b..]
  {
  }

  lemma TakeSnoc<T>(s: seq<T>, i: nat)
    requires i < |s|
    ensures s[..i + 1] == s[..i] + [s[i]]
  {
  }

  lemma SplitLast<T>(s: seq<T>)
    requires |s| > 0
    ensures s == s[..|s| - 1] + [s[|s| - 1]]
  {
  }

  lemma TakeAll<T>(s: seq<T>)
    ensures s[..|s|] == s
  {
  }

  lemma ConcatAssoc<T>(a: seq<T>, b: seq<T>, d: seq<T>)
    ensures (a + b) + d == a + (b + d)
  {
  }

  /** The four parts of a + b + c + d are found again at their offsets. */
  lemma ConcatSlices<T>(a: seq<T>, b: seq<T>, c: seq<T>, d: seq<T>)
    ensures var t := a + b + c + d;
      && |a| + |b| + |c| + |d| == |t|
      && t[|a|..|a| + |b|] == b
      && t[|a| + |b|..|a| + |b| + |c|] == c
      && t[|t| - |d|..] == d
  {
    var t := a + b + c + d;
    assert t[|a|..] == b + c + d;
    assert (b + c + d)[|b|..] == c + d;
  }

  /** Applying f to element i extends the handled prefix by one. */
  lemma AppliedUpToStep<T>(s: seq<T>, f: T -> T, i: nat)
    requires i < |s|
    ensures AppliedUpTo(s, f, i + 1) == AppliedUpTo(s, f, i)[i := f(s[i])]
  {
  }

  /** An element that f leaves as it is needs no write. */
  lemma AppliedUpToFixed<T>(s: seq<T>, f: T -> T, i: nat)
    requires i < |s| && f(s[i]) == s[i]
    ensures AppliedUpTo(s, f, i + 1) == AppliedUpTo(s, f, i)
  {
    AppliedUpToStep(s, f, i);
  }

  /** Nothing handled is nothing changed; everything handled is f applied to every element. */
  lemma AppliedUpToEnds<T>(s: seq<T>, f: T -> T)
    ensures AppliedUpTo(s, f, 0) == s
    ensures forall j :: 0 <= j < |s| ==> AppliedUpTo(s, f, |s|)[j] == f(s[j])
  {
  }

  /** One more count for the key in a counter dict (d[k] = d[k] + 1, or 1 when new). */
  function Bump(counts: map<string, nat>, k: string): (r: map<string, nat>)
    ensures r.Keys == counts.Keys + {k}
    ensures r[k] == (if k in counts then counts[k] else 0) + 1
    ensures forall k' :: k' in counts && k' != k ==> r[k'] == counts[k']
  {
    counts[k := if k in counts then counts[k] + 1 else 1]
  }

  /**
   * A dict of lists filled by appending (d.setdefault(k, []).append(x)): its keys in the
   * order they were first met, and the list under each key.
   */
  datatype Groups<T> = Groups(order: seq<string>, lists: map<string, seq<T>>)

  /** Each key is met once, exactly the keys with a list are met, and no list is empty. */
  ghost predicate GroupsWellFormed<T>(g: Groups<T>)
  {
    && (forall i, j :: 0 <= i < j < |g.order| ==> g.order[i] != g.order[j])
    && (forall k :: k in g.lists <==> k in g.order)
    && (forall k :: k in g.lists ==> |g.lists[k]| > 0)
  }

  /** The list under a key, empty when the key has none. */
  function GroupOf<T>(g: Groups<T>, k: string): seq<T>
  {
    if k in g.lists then g.lists[k] else []
  }

  /** Appending x under k, creating the list on first use. */
  function GroupAppend<T>(g: Groups<T>, k: string, x: T): (r: Groups<T>)
    ensures GroupOf(r, k) == GroupOf(g, k) + [x]
    ensures forall k' :: k' != k ==> GroupOf(r, k') == GroupOf(g, k')
    ensures r.lists.Keys == g.lists.Keys + {k}
  {
    if k in g.lists then g.(lists := g.lists[k := g.lists[k] + [x]])
    else Groups(g.order + [k], g.lists[k := [x]])
  }

  /** Appending keeps the groups well formed. */
  lemma GroupAppendWellFormed<T>(g: Groups<T>, k: string, x: T)
    requires GroupsWellFormed(g)
    ensures GroupsWellFormed(GroupAppend(g, k, x))
  {
  }

  // ---------------------------------------------------------------------------
  // Python string semantics

  predicate StartsWith(s: string, p: string)
  {
    |p| <= |s| && s[..|p|] == p
  }

  predicate EndsWith(s: string, p: string)
  {
    |p| <= |s| && s[|s| - |p|..] == p
  }

  /** `p in s` for strings */
  predicate Contains(s: string, p: string)
    decreases |s|
  {
    StartsWith(s, p) || (|s| > 0 && Contains(s[1..], p))
  }

  /** str.find: the first index at which p occurs in s, or -1 */
  function Find(s: string, p: string): (r: int)
    decreases |s|
    ensures r >= -1 && (r >= 0 ==> r + |p| <= |s| && s[r..r + |p|] == p)
    ensures r >= 0 <==> Contains(s, p)
  {
    if StartsWith(s, p) then 0
    else if |s| == 0 then -1
    else
      var k := Find(s[1..], p);
      if k < 0 then -1 else k + 1
  }

  /** str.rfind: the last index at which p occurs in s, or -1 */
  function RFind(s: string, p: string): (r: int)
    decreases |s|
    ensures r >= -1 && (r >= 0 ==> r + |p| <= |s| && s[r..r + |p|] == p)
  {
    if |s| < |p| then -1
    else if EndsWith(s, p) then |s| - |p|
    else RFind(s[..|s| - 1], p)
  }

  /** find of a one-character pattern stops at the first occurrence of that character. */
  lemma {:induction false} FindCharAt(s: string, c: char, i: nat)
    requires i < |s| && s[i] == c && c !in s[..i]
    ensures Find(s, [c]) == i
    decreases i
  {
    if i > 0 {
      assert s[0] in s[..i];
      assert s[..1] != [c];
      assert s[..i] == [s[0]] + s[1..][..i - 1];
      FindCharAt(s[1..], c, i - 1);
    } else {
      assert s[..1] == [c];
    }
  }

  /** rfind of a one-character pattern stops at the last occurrence of that character. */
  lemma {:induction false} RFindCharAt(s: string, c: char, i: nat)
    requires i < |s| && s[i] == c && c !in s[i + 1..]
    ensures RFind(s, [c]) == i
    decreases |s| - i
  {
    if i < |s| - 1 {
      assert s[|s| - 1] in s[i + 1..];
      assert s[|s| - 1..] != [c];
      assert s[..|s| - 1][i + 1..] == s[i + 1..|s| - 1];
      RFindCharAt(s[..|s| - 1], c, i);
    } else {
      assert s[|s| - 1..] == [c];
    }
  }

  /** How Python turns a slice bound into a position of a sequence of length n. */
  function PyBound(i: int, n: nat): (r: nat)
    ensures r <= n
    ensures 0 <= i <= n ==> r == i
    ensures -(n as int) <= i < 0 ==> r as int == n as int + i
  {
    if i < 0 then (if i + n < 0 then 0 else i + n)
    else if i > n then n
    else i
  }

  /** s[a:b] with Python's clamping and negative indices */
  function Slice(s: string, a: int, b: int): (r: string)
    ensures |r| <= |s|
  {
    var i := PyBound(a, |s|);
    var j := PyBound(b, |s|);
    if i < j then s[i..j] else []
  }

  /** s[a:] for a position inside the text */
  lemma SliceSuffix(s: string, a: nat)
    requires a <= |s|
    ensures Slice(s, a, |s|) == s[a..]
  {
  }

  /** str.replace(o, n): every non-overlapping occurrence, scanned from the left */
  function Replace(s: string, o: string, n: string): string
    requires |o| > 0
    decreases |s|
  {
    if |s| < |o| then s
    else if s[..|o|] == o then n + Replace(s[|o|..], o, n)
    else [s[0]] + Replace(s[1..], o, n)
  }

  /** A text that starts with the pattern has it replaced, then the rest is handled. */
  lemma ReplaceAtStart(o: string, rest: string, n: string)
    requires |o| > 0
    ensures Replace(o + rest, o, n) == n + Replace(rest, o, n)
  {
    assert (o + rest)[..|o|] == o;
    assert (o + rest)[|o|..] == rest;
  }

  /** Replacing a pattern that does not occur changes nothing. */
  lemma {:induction false} ReplaceAbsent(s: string, o: string, n: string)
    requires |o| > 0 && !Contains(s, o)
    ensures Replace(s, o, n) == s
    decreases |s|
  {
    if |s| >= |o| {
      assert !StartsWith(s, o);
      ReplaceAbsent(s[1..], o, n);
      assert [s[0]] + s[1..] == s;
    }
  }

  /** The string without any occurrence of character c. */
  function RemoveChar(s: string, c: char): (r: string)
    ensures c !in r
    ensures |r| <= |s|
    ensures forall x :: x in r ==> x in s
  {
    if |s| == 0 then []
    else if s[0] == c then RemoveChar(s[1..], c)
    else [s[0]] + RemoveChar(s[1..], c)
  }

  /** The string with every character a turned into b. */
  function MapChar(s: string, a: char, b: char): (r: string)
    ensures |r| == |s|
    ensures forall i :: 0 <= i < |s| ==> r[i] == (if s[i] == a then b else s[i])
  {
    seq(|s|, i requires 0 <= i < |s| => if s[i] == a then b else s[i])
  }

  /** Replacing a one-character string by another turns that character into the other. */
  lemma {:induction false} ReplaceCharByChar(s: string, a: char, b: char)
    ensures Replace(s, [a], [b]) == MapChar(s, a, b)
    decreases |s|
  {
    if |s| > 0 {
      ReplaceCharByChar(s[1..], a, b);
      assert s[..1] == [s[0]];
      assert MapChar(s, a, b) == [if s[0] == a then b else s[0]] + MapChar(s[1..], a, b);
    }
  }

  /** Replacing a one-character string by nothing removes that character. */
  lemma {:induction false} ReplaceCharIsRemove(s: string, c: char)
    ensures Replace(s, [c], "") == RemoveChar(s, c)
    decreases |s|
  {
    if |s| == 0 {
    } else {
      ReplaceCharIsRemove(s[1..], c);
      if s[0] == c {
        assert s[..1] == [c];
      } else {
        assert s[..1] != [c];
      }
    }
  }

  /** str.count: the number of non-overlapping occurrences, scanned from the left */
  function CountOcc(s: string, p: string): nat
    requires |p| > 0
    decreases |s|
  {
    if |s| < |p| then 0
    else if s[..|p|] == p then 1 + CountOcc(s[|p|..], p)
    else CountOcc(s[1..], p)
  }

  /** A text without any occurrence of p counts none of them. */
  lemma {:induction false} CountOccAbsent(s: string, p: string)
    requires |p| > 0
    requires !Contains(s, p)
    ensures CountOcc(s, p) == 0
    decreases |s|
  {
    if |s| < |p| {
    } else {
      assert !StartsWith(s, p);
      CountOccAbsent(s[1..], p);
    }
  }

  /** A text in which p is counted at least once contains p. */
  lemma {:induction false} CountOccPresent(s: string, p: string)
    requires |p| > 0
    requires CountOcc(s, p) > 0
    ensures Contains(s, p)
    decreases |s|
  {
    if s[..|p|] != p {
      CountOccPresent(s[1..], p);
    }
  }

  /** str.split(c) for a one-character separator; never empty */
  function Split(s: string, c: char): (r: seq<string>)
    ensures |r| > 0
    ensures forall i :: 0 <= i < |r| ==> c !in r[i]
    decreases |s|
  {
    if |s| == 0 then [""]
    else
      var rest := Split(s[1..], c);
      if s[0] == c then [""] + rest
      else [[s[0]] + rest[0]] + rest[1..]
  }

  /** sep.join(parts) */
  function Join(sep: string, parts: seq<string>): string
    decreases |parts|
  {
    if |parts| == 0 then ""
    else if |parts| == 1 then parts[0]
    else parts[0] + sep + Join(sep, parts[1..])
  }

  /** Joining one more part appends the separator and the part. */
  lemma {:induction false} JoinSnoc(sep: string, parts: seq<string>, x: string)
    ensures Join(sep, parts + [x]) == if |parts| == 0 then x else Join(sep, parts) + sep + x
    decreases |parts|
  {
    if |parts| == 0 {
      assert parts + [x] == [x];
    } else if |parts| == 1 {
      assert (parts + [x])[1..] == [x];
    } else {
      assert (parts + [x])[1..] == parts[1..] + [x];
      JoinSnoc(sep, parts[1..], x);
    }
  }

  /** Splitting on a character and joining with it gives the text back. */
  lemma {:induction false} JoinSplit(s: string, c: char)
    ensures Join([c], Split(s, c)) == s
    decreases |s|
  {
    if |s| == 0 {
    } else {
      var rest := Split(s[1..], c);
      JoinSplit(s[1..], c);
      if s[0] == c {
        assert Split(s, c) == [""] + rest;
        assert (([""] + rest)[1..]) == rest;
      } else {
        var r := [[s[0]] + rest[0]] + rest[1..];
        assert Split(s, c) == r;
        if |rest| == 1 {
          assert Join([c], rest) == rest[0];
        } else {
          assert r[1..] == rest[1..];
          assert Join([c], rest) == rest[0] + [c] + Join([c], rest[1..]);
        }
      }
    }
  }

  /** Removes the characters of cs from the right end (str.rstrip(cs)). */
  function RStrip(s: string, cs: set<char>): (r: string)
    ensures |r| <= |s| && r == s[..|r|]
    decreases |s|
  {
    if |s| > 0 && s[|s| - 1] in cs then RStrip(s[..|s| - 1], cs) else s
  }

  /** rstrip removes exactly the trailing run of characters from cs. */
  lemma {:induction false} RStripRemovesRun(s: string, cs: set<char>)
    ensures var r := RStrip(s, cs);
      && (|r| > 0 ==> r[|r| - 1] !in cs)
      && forall i :: |r| <= i < |s| ==> s[i] in cs
    decreases |s|
  {
    if |s| > 0 && s[|s| - 1] in cs {
      RStripRemovesRun(s[..|s| - 1], cs);
    }
  }

  /** Removes the characters of cs from the left end (str.lstrip(cs)). */
  function LStrip(s: string, cs: set<char>): (r: string)
    ensures |r| <= |s| && r == s[|s| - |r|..]
    decreases |s|
  {
    if |s| > 0 && s[0] in cs then LStrip(s[1..], cs) else s
  }

  /** lstrip removes exactly the leading run of characters from cs. */
  lemma {:induction false} LStripRemovesRun(s: string, cs: set<char>)
    ensures var r := LStrip(s, cs);
      && (|r| > 0 ==> r[0] !in cs)
      && forall i :: 0 <= i < |s| - |r| ==> s[i] in cs
    decreases |s|
  {
    if |s| > 0 && s[0] in cs {
      LStripRemovesRun(s[1..], cs);
      var r := LStrip(s, cs);
      forall i | 1 <= i < |s| - |r|
        ensures s[i] in cs
      {
        assert s[1..][i - 1] == s[i];
      }
    }
  }

  /** The characters str.strip() with no argument removes: those for which str.isspace() holds. */
  const Whitespace: set<char> :=
    {'\t', '\n', '\U{B}', '\U{C}', '\r', '\U{1C}', '\U{1D}', '\U{1E}', '\U{1F}', ' ', '\U{85}', '\U{A0}',
     '\U{1680}', '\U{2000}', '\U{2001}', '\U{2002}', '\U{2003}', '\U{2004}', '\U{2005}', '\U{2006}',
     '\U{2007}', '\U{2008}', '\U{2009}', '\U{200A}', '\U{2028}', '\U{2029}', '\U{202F}', '\U{205F}',
     '\U{3000}'}

  function Strip(s: string): string
  {
    RStrip(LStrip(s, Whitespace), Whitespace)
  }

  function LowerChar(c: char): char
  {
    if 'A' <= c <= 'Z' then (c as int + 32) as char else c
  }

  function UpperChar(c: char): char
  {
    if 'a' <= c <= 'z' then (c as int - 32) as char else c
  }

  /** str.lower() on ASCII letters; every other character is left as it is. */
  function Lower(s: string): (r: string)
    ensures |r| == |s|
    ensures forall i :: 0 <= i < |s| ==> r[i] == LowerChar(s[i])
  {
    if |s| == 0 then [] else [LowerChar(s[0])] + Lower(s[1..])
  }

  /** str.upper() on ASCII letters; every other character is left as it is. */
  function Upper(s: string): (r: string)
    ensures |r| == |s|
    ensures forall i :: 0 <= i < |s| ==> r[i] == UpperChar(s[i])
  {
    if |s| == 0 then [] else [UpperChar(s[0])] + Upper(s[1..])
  }

  predicate IsDigit(c: char)
  {
    '0' <= c <= '9'
  }

  const Uppers: set<char> := set c | 'A' <= c <= 'Z'
  const Digits: set<char> := set c | '0' <= c <= '9'

  /** The length of the run of characters from cs that starts at position i. */
  function RunLength(s: string, i: nat, cs: set<char>): (n: nat)
    requires i <= |s|
    ensures i + n <= |s|
    ensures forall j :: i <= j < i + n ==> s[j] in cs
    ensures i + n < |s| ==> s[i + n] !in cs
    decreases |s| - i
  {
    if i < |s| && s[i] in cs then 1 + RunLength(s, i + 1, cs) else 0
  }

  /** Characters at which str.splitlines() ends a line. */
  const LineBreaks: set<char> :=
    {'\n', '\r', '\U{B}', '\U{C}', '\U{1C}', '\U{1D}', '\U{1E}', '\U{85}', '\U{2028}', '\U{2029}'}

  /** str.splitlines()[0] when the text is not empty: the text up to the first line break. */
  function FirstLine(s: string): (r: string)
    ensures |r| <= |s| && r == s[..|r|]
    ensures forall c :: c in r ==> c !in LineBreaks
    ensures |r| < |s| ==> s[|r|] in LineBreaks
  {
    if |s| == 0 || s[0] in LineBreaks then [] else [s[0]] + FirstLine(s[1..])
  }

  /** The final component of a path: the text after the last "/". */
  function PathName(path: string): (r: string)
    ensures '/' !in r
    ensures EndsWith(path, r)
    decreases |path|
  {
    if |path| == 0 then ""
    else if path[|path| - 1] == '/' then ""
    else
      var init := PathName(path[..|path| - 1]);
      assert path == path[..|path| - 1] + [path[|path| - 1]];
      init + [path[|path| - 1]]
  }

  /**
   * pathlib's suffix: from the last "." of the final component, unless that dot begins
   * or ends the component (".ris" and "a." have no suffix).
   */
  function PathSuffix(path: string): (r: string)
    ensures r == "" || (r[0] == '.' && |r| >= 2 && EndsWith(path, r) && '/' !in r)
  {
    var name := PathName(path);
    var i := RFind(name, ".");
    if 0 < i < |name| - 1 then
      assert name[i..] == name[i..i + 1] + name[i + 1..];
      assert EndsWith(name, name[i..]);
      EndsWithTrans(path, name, name[i..]);
      name[i..]
    else ""
  }

  lemma EndsWithTrans(s: string, t: string, u: string)
    requires EndsWith(s, t) && EndsWith(t, u)
    ensures EndsWith(s, u)
  {
    assert s[|s| - |u|..] == t[|t| - |u|..];
  }

  /** str() of a natural number: its decimal digits, most significant first. */
  function NatString(n: nat): (r: string)
    ensures |r| > 0 && forall c :: c in r ==> c in Digits
    decreases n
  {
    if n < 10 then ["0123456789"[n]] else NatString(n / 10) + ["0123456789"[n % 10]]
  }

  /** str() of an integer: a minus sign before the digits of a negative one. */
  function IntString(i: int): (r: string)
    ensures |r| > 0
    ensures i >= 0 ==> r == NatString(i)
    ensures i < 0 ==> r == "-" + NatString(-i)
  {
    if i < 0 then "-" + NatString(-i) else NatString(i)
  }
}
