/**
 * The command-line screen (colrev/ops/built_in/screen/screen_cli.py): each record is shown
 * and the user types answers. With screening criteria, one answer per criterion decides
 * in/out; without, one answer decides inclusion. "q" quits the screen, "s" skips the
 * record. The lines the user types are the input of the model; EOFError when they run out.
 */
module ScreenCli {
  import opened Common

  /** The answers the prompts accept: yes, no, quit, skip. */
  const Answers: set<string> := {"y", "n", "q", "s"}

  /** What screening one record comes to. */
  datatype Verdict = Quit | Skip | Screened(inclusion: bool, criteria: string)

  /** One call of the screen operation: the record's ID, the inclusion decision and the criteria field. */
  datatype Screening = Screening(id: string, inclusion: bool, criteria: string)

  /**
   * A prompt repeated until the line typed is an answer: the answer and the number of lines
   * read, or EOFError when the input ends first.
   */
  function NextAnswer(lines: seq<string>): (r: Result<(string, nat)>)
    ensures r.Ok? ==> 1 <= r.value.1 <= |lines| && lines[r.value.1 - 1] == r.value.0 && r.value.0 in Answers
    ensures r.Ok? ==> forall j :: 0 <= j < r.value.1 - 1 ==> lines[j] !in Answers
    ensures r.Err? ==> r.error == EOFError && forall j :: 0 <= j < |lines| ==> lines[j] !in Answers
    decreases |lines|
  {
    if |lines| == 0 then Err(EOFError)
    else if lines[0] in Answers then Ok((lines[0], 1))
    else
      match NextAnswer(lines[1..])
      case Err(e) => Err(e)
      case Ok((a, used)) => Ok((a, used + 1))
  }

  /** decision.replace("n", "out").replace("y", "in") */
  function Label(decision: string): string
  {
    Replace(Replace(decision, "n", "out"), "y", "in")
  }

  /** "y" becomes "in" and "n" becomes "out". */
  lemma LabelOfAnswer()
    ensures Label("y") == "in" && Label("n") == "out"
  {
    assert Replace("y", "n", "out") == "y";
    assert Replace("y", "y", "in") == "in";
    assert Replace("n", "n", "out") == "out";
    assert "out"[1..] == "ut" && "out"[2..] == "t";
    assert Replace("out", "y", "in") == "out";
  }

  /**
   * The state of the criteria loop after some criteria: the stop ("quit" or "skip") if one
   * was answered, the (criterion, in/out) decisions so far and the number of lines read.
   */
  datatype Round = Round(stop: Option<Verdict>, decisions: seq<(string, string)>, used: nat)

  /** One more criterion after a round that has not stopped: the next answer decides it. */
  function Extend(rd: Round, name: string, lines: seq<string>): Result<Round>
    requires rd.used <= |lines|
  {
    match NextAnswer(lines[rd.used..])
    case Err(e) => Err(e)
    case Ok((a, u)) =>
      if a == "q" then Ok(Round(Some(Quit), rd.decisions, rd.used + u))
      else if a == "s" then Ok(Round(Some(Skip), rd.decisions, rd.used + u))
      else Ok(Round(None, rd.decisions + [(name, Label(a))], rd.used + u))
  }

  /** The criteria loop over the criteria in order. */
  function CriteriaRound(names: seq<string>, lines: seq<string>): (r: Result<Round>)
    ensures r.Ok? ==> r.value.used <= |lines|
    ensures r.Ok? && r.value.stop.None? ==> |r.value.decisions| == |names|
    ensures r.Ok? && r.value.stop.Some? ==> r.value.stop.value in {Quit, Skip}
    decreases |names|
  {
    if |names| == 0 then Ok(Round(None, [], 0))
    else
      match CriteriaRound(names[..|names| - 1], lines)
      case Err(e) => Err(e)
      case Ok(rd) =>
        if rd.stop.Some? then Ok(rd) else Extend(rd, names[|names| - 1], lines)
  }

  /** One "name=decision" entry. */
  function Piece(d: (string, string)): string
  {
    d.0 + "=" + d.1
  }

  /** The ";name=decision" pieces in order, as the c_field loop concatenates them. */
  function Prefixed(decisions: seq<(string, string)>): string
  {
    if |decisions| == 0 then ""
    else Prefixed(decisions[..|decisions| - 1]) + (";" + Piece(decisions[|decisions| - 1]))
  }

  /** The screening_criteria field: the pieces, spaces removed, leading ";" stripped. */
  function CriteriaField(decisions: seq<(string, string)>): string
  {
    LStrip(Replace(Prefixed(decisions), " ", ""), {';'})
  }

  /** The "name=decision" entries with their spaces removed. */
  function Entries(decisions: seq<(string, string)>): (r: seq<string>)
    ensures |r| == |decisions|
  {
    seq(|decisions|, i requires 0 <= i < |decisions| => RemoveChar(Piece(decisions[i]), ' '))
  }

  lemma {:induction false} RemoveCharConcat(a: string, b: string, c: char)
    ensures RemoveChar(a + b, c) == RemoveChar(a, c) + RemoveChar(b, c)
    decreases |a|
  {
    if |a| > 0 {
      assert (a + b)[1..] == a[1..] + b;
      RemoveCharConcat(a[1..], b, c);
    } else {
      assert a + b == b;
    }
  }

  /** A character other than c survives its removal. */
  lemma {:induction false} RemoveCharKeeps(s: string, c: char, i: nat)
    requires i < |s| && s[i] != c
    ensures s[i] in RemoveChar(s, c)
    decreases i
  {
    if i > 0 {
      RemoveCharKeeps(s[1..], c, i - 1);
    }
  }

  /** An entry holds its "=" and so is never empty. */
  lemma PieceNotEmpty(d: (string, string))
    ensures |RemoveChar(Piece(d), ' ')| > 0
  {
    RemoveCharKeeps(Piece(d), ' ', |d.0|);
  }

  /** Removing spaces from ";" and an entry keeps the ";". */
  lemma RemoveCharSemicolon(x: string)
    ensures RemoveChar(";" + x, ' ') == ";" + RemoveChar(x, ' ')
  {
    RemoveCharConcat(";", x, ' ');
    assert RemoveChar(";", ' ') == ";";
  }

  /** The entries of one more decision are the entries so far and its own. */
  lemma EntriesSnoc(decisions: seq<(string, string)>)
    requires |decisions| > 0
    ensures Entries(decisions) == Entries(decisions[..|decisions| - 1]) + [RemoveChar(Piece(decisions[|decisions| - 1]), ' ')]
  {
  }

  lemma SemicolonRegroup(j: string, x: string)
    ensures (";" + j) + (";" + x) == ";" + (j + ";" + x)
  {
  }

  /** Without its spaces, the concatenation is the entries each preceded by ";". */
  lemma {:induction false} PrefixedWithoutSpaces(decisions: seq<(string, string)>)
    ensures |decisions| == 0 ==> RemoveChar(Prefixed(decisions), ' ') == ""
    ensures |decisions| > 0 ==> RemoveChar(Prefixed(decisions), ' ') == ";" + Join(";", Entries(decisions))
    decreases |decisions|
  {
    if |decisions| > 0 {
      var init := decisions[..|decisions| - 1];
      var p := Piece(decisions[|decisions| - 1]);
      var x := RemoveChar(p, ' ');
      var a := Prefixed(init);
      var r0 := RemoveChar(a, ' ');
      PrefixedWithoutSpaces(init);
      assert Prefixed(decisions) == a + (";" + p);
      RemoveCharConcat(a, ";" + p, ' ');
      RemoveCharSemicolon(p);
      EntriesSnoc(decisions);
      JoinSnoc(";", Entries(init), x);
      if |init| == 0 {
        assert r0 == "";
        assert r0 + (";" + x) == ";" + x;
      } else {
        var j := Join(";", Entries(init));
        assert r0 == ";" + j;
        SemicolonRegroup(j, x);
      }
    }
  }

  /**
   * The criteria field is the entries joined with ";": every space removed, no leading ";"
   * (provided the first entry does not itself start with ";").
   */
  lemma CriteriaFieldIsJoin(decisions: seq<(string, string)>)
    requires |decisions| > 0 ==> !StartsWith(Entries(decisions)[0], ";")
    ensures CriteriaField(decisions) == Join(";", Entries(decisions))
  {
    ReplaceCharIsRemove(Prefixed(decisions), ' ');
    assert " " == [' '];
    PrefixedWithoutSpaces(decisions);
    if |decisions| > 0 {
      var e := Entries(decisions);
      var j := Join(";", e);
      PieceNotEmpty(decisions[0]);
      JoinStartsWithFirst(e);
      assert e[0][..1] == [e[0][0]];
      assert j[0] == e[0][0];
      assert (";" + j)[1..] == j;
      assert LStrip(";" + j, {';'}) == LStrip(j, {';'});
    }
  }

  /** A join starts with its first part. */
  lemma JoinStartsWithFirst(parts: seq<string>)
    requires |parts| > 0
    ensures StartsWith(Join(";", parts), parts[0])
  {
    if |parts| > 1 {
      assert Join(";", parts) == parts[0] + ";" + Join(";", parts[1..]);
      assert (parts[0] + ";" + Join(";", parts[1..]))[..|parts[0]|] == parts[0];
    }
  }

  /** all(decision == "in" for _, decision in decisions) */
  predicate AllIn(decisions: seq<(string, string)>)
  {
    forall i :: 0 <= i < |decisions| ==> decisions[i].1 == "in"
  }

  /** __screen_record_with_criteria: the verdict and the number of lines read. */
  function WithCriteria(names: seq<string>, lines: seq<string>): Result<(Verdict, nat)>
  {
    match CriteriaRound(names, lines)
    case Err(e) => Err(e)
    case Ok(rd) =>
      if rd.stop.Some? then Ok((rd.stop.value, rd.used))
      else Ok((Screened(AllIn(rd.decisions), CriteriaField(rd.decisions)), rd.used))
  }

  /** __screen_record_without_criteria: the verdict and the number of lines read. */
  function WithoutCriteria(lines: seq<string>): (r: Result<(Verdict, nat)>)
    ensures r.Ok? && r.value.0.Screened? ==> r.value.0.criteria == "NA"
  {
    match NextAnswer(lines)
    case Err(e) => Err(e)
    case Ok((a, u)) =>
      if a == "q" then Ok((Quit, u))
      else if a == "s" then Ok((Skip, u))
      else Ok((Screened(a == "y", "NA"), u))
  }

  // ---------------------------------------------------------------------------
  // The criteria loop on lines that are all answers

  /** The first of the first n lines that is "q" or "s". */
  function FirstStop(lines: seq<string>, n: nat): (r: Option<nat>)
    requires n <= |lines|
    ensures r.Some? ==> r.value < n && lines[r.value] in {"q", "s"}
    ensures r.Some? ==> forall j :: 0 <= j < r.value ==> lines[j] !in {"q", "s"}
    ensures r.None? ==> forall j :: 0 <= j < n ==> lines[j] !in {"q", "s"}
  {
    if n == 0 then None
    else
      match FirstStop(lines, n - 1)
      case Some(k) => Some(k)
      case None => if lines[n - 1] in {"q", "s"} then Some(n - 1) else None
  }

  /** Each criterion paired with the label of the line answering it. */
  function Labelled(names: seq<string>, lines: seq<string>): (r: seq<(string, string)>)
    requires |names| <= |lines|
    ensures |r| == |names|
  {
    seq(|names|, i requires 0 <= i < |names| => (names[i], Label(lines[i])))
  }

  /**
   * The criteria loop read off directly when every line is an answer: criterion i is
   * answered by line i, and the first "q" or "s" among the first |names| lines stops it.
   */
  function RoundOnAnswers(names: seq<string>, lines: seq<string>): Round
    requires |names| <= |lines|
  {
    match FirstStop(lines, |names|)
    case None => Round(None, Labelled(names, lines), |names|)
    case Some(k) => Round(Some(if lines[k] == "q" then Quit else Skip), Labelled(names[..k], lines), k + 1)
  }

  /** On lines that are all answers the criteria loop is the direct reading. */
  lemma {:induction false} CriteriaRoundOnAnswers(names: seq<string>, lines: seq<string>)
    requires |names| <= |lines|
    requires forall j :: 0 <= j < |lines| ==> lines[j] in Answers
    ensures CriteriaRound(names, lines) == Ok(RoundOnAnswers(names, lines))
    decreases |names|
  {
    if |names| > 0 {
      var n := |names|;
      var init := names[..n - 1];
      CriteriaRoundOnAnswers(init, lines);
      if FirstStop(lines, n - 1).Some? {
        OnAnswersStopped(names, lines);
      } else {
        var rd := RoundOnAnswers(init, lines);
        assert rd == Round(None, Labelled(init, lines), n - 1);
        CriteriaRoundAnswerStep(names, lines, rd);
      }
    }
  }

  /** Once an earlier line stopped the loop, one more criterion changes nothing. */
  lemma OnAnswersStopped(names: seq<string>, lines: seq<string>)
    requires 0 < |names| <= |lines|
    requires FirstStop(lines, |names| - 1).Some?
    requires CriteriaRound(names[..|names| - 1], lines) == Ok(RoundOnAnswers(names[..|names| - 1], lines))
    ensures CriteriaRound(names, lines) == Ok(RoundOnAnswers(names, lines))
  {
    var n := |names|;
    RoundOnAnswersStopped(names, lines);
    SplitLast(names);
    RoundStoppedSnoc(names[..n - 1], names[n - 1], lines);
  }

  /** After a stop, the direct reading ignores further criteria. */
  lemma RoundOnAnswersStopped(names: seq<string>, lines: seq<string>)
    requires 0 < |names| <= |lines|
    requires FirstStop(lines, |names| - 1).Some?
    ensures RoundOnAnswers(names, lines) == RoundOnAnswers(names[..|names| - 1], lines)
    ensures RoundOnAnswers(names, lines).stop.Some?
  {
    var n := |names|;
    var init := names[..n - 1];
    var k := FirstStop(lines, n - 1).value;
    assert FirstStop(lines, n) == Some(k);
    assert init[..k] == names[..k];
  }

  /** A round continued on a line that is itself an answer reads just that line. */
  lemma ExtendOnLine(rd: Round, name: string, lines: seq<string>)
    requires rd.used < |lines| && lines[rd.used] in Answers
    ensures var a := lines[rd.used];
      Extend(rd, name, lines) ==
        Ok(if a == "q" then Round(Some(Quit), rd.decisions, rd.used + 1)
           else if a == "s" then Round(Some(Skip), rd.decisions, rd.used + 1)
           else Round(None, rd.decisions + [(name, Label(a))], rd.used + 1))
  {
    assert lines[rd.used..][0] == lines[rd.used];
  }

  /** One more criterion answered by its own line, after no stop. */
  lemma CriteriaRoundAnswerStep(names: seq<string>, lines: seq<string>, rd: Round)
    requires 0 < |names| <= |lines|
    requires lines[|names| - 1] in Answers
    requires FirstStop(lines, |names| - 1).None?
    requires rd == Round(None, Labelled(names[..|names| - 1], lines), |names| - 1)
    requires CriteriaRound(names[..|names| - 1], lines) == Ok(rd)
    ensures CriteriaRound(names, lines) == Ok(RoundOnAnswers(names, lines))
  {
    var n := |names|;
    var a := lines[n - 1];
    SplitLast(names);
    RoundSnoc(names[..n - 1], names[n - 1], lines);
    ExtendOnLine(rd, names[n - 1], lines);
    if a == "q" || a == "s" {
      StopStep(names, lines);
    } else {
      DecideStep(names, lines);
    }
  }

  lemma StopStep(names: seq<string>, lines: seq<string>)
    requires 0 < |names| <= |lines|
    requires lines[|names| - 1] == "q" || lines[|names| - 1] == "s"
    requires FirstStop(lines, |names| - 1).None?
    ensures RoundOnAnswers(names, lines) ==
      Round(Some(if lines[|names| - 1] == "q" then Quit else Skip), Labelled(names[..|names| - 1], lines), |names|)
  {
  }

  lemma DecideStep(names: seq<string>, lines: seq<string>)
    requires 0 < |names| <= |lines|
    requires lines[|names| - 1] != "q" && lines[|names| - 1] != "s"
    requires FirstStop(lines, |names| - 1).None?
    ensures RoundOnAnswers(names, lines) ==
      Round(None, Labelled(names[..|names| - 1], lines) + [(names[|names| - 1], Label(lines[|names| - 1]))], |names|)
  {
    var n := |names|;
    assert Labelled(names, lines) == Labelled(names[..n - 1], lines) + [(names[n - 1], Label(lines[n - 1]))];
  }

  /**
   * On lines that are all answers: without a "q" or "s" among the first |names| lines the
   * record is included iff every one of them is "y"; otherwise the first of them decides
   * quit or skip.
   */
  lemma WithCriteriaOnAnswers(names: seq<string>, lines: seq<string>)
    requires |names| <= |lines|
    requires forall j :: 0 <= j < |lines| ==> lines[j] in Answers
    ensures FirstStop(lines, |names|).None? ==>
      WithCriteria(names, lines) == Ok((Screened(forall j :: 0 <= j < |names| ==> lines[j] == "y",
                                                 CriteriaField(Labelled(names, lines))), |names|))
    ensures FirstStop(lines, |names|).Some? ==>
      var k := FirstStop(lines, |names|).value;
      WithCriteria(names, lines) == Ok((if lines[k] == "q" then Quit else Skip, k + 1))
  {
    if FirstStop(lines, |names|).None? {
      AnswersWithoutStop(names, lines);
    } else {
      AnswersWithStop(names, lines);
    }
  }

  lemma AnswersWithoutStop(names: seq<string>, lines: seq<string>)
    requires |names| <= |lines|
    requires forall j :: 0 <= j < |lines| ==> lines[j] in Answers
    requires FirstStop(lines, |names|).None?
    ensures WithCriteria(names, lines) == Ok((Screened(forall j :: 0 <= j < |names| ==> lines[j] == "y",
                                                       CriteriaField(Labelled(names, lines))), |names|))
  {
    CriteriaRoundOnAnswers(names, lines);
    var l := Labelled(names, lines);
    assert CriteriaRound(names, lines) == Ok(Round(None, l, |names|));
    forall j | 0 <= j < |names|
      ensures lines[j] == "y" || lines[j] == "n"
    {
      assert lines[j] in Answers && lines[j] !in {"q", "s"};
    }
    LabelledAllIn(names, lines);
  }

  lemma AnswersWithStop(names: seq<string>, lines: seq<string>)
    requires |names| <= |lines|
    requires forall j :: 0 <= j < |lines| ==> lines[j] in Answers
    requires FirstStop(lines, |names|).Some?
    ensures var k := FirstStop(lines, |names|).value;
      WithCriteria(names, lines) == Ok((if lines[k] == "q" then Quit else Skip, k + 1))
  {
    var k := FirstStop(lines, |names|).value;
    var rd := RoundOnAnswers(names, lines);
    assert rd.stop == Some(if lines[k] == "q" then Quit else Skip) && rd.used == k + 1;
    CriteriaRoundOnAnswers(names, lines);
  }

  /** With every criterion answered "y" or "n", all labels are "in" exactly when all answers are "y". */
  lemma LabelledAllIn(names: seq<string>, lines: seq<string>)
    requires |names| <= |lines|
    requires forall j :: 0 <= j < |names| ==> lines[j] == "y" || lines[j] == "n"
    ensures AllIn(Labelled(names, lines)) <==> forall j :: 0 <= j < |names| ==> lines[j] == "y"
  {
    var l := Labelled(names, lines);
    LabelOfAnswer();
    forall j | 0 <= j < |names|
      ensures l[j].1 == "in" <==> lines[j] == "y"
    {
      assert l[j].1 == Label(lines[j]);
    }
  }


  // ---------------------------------------------------------------------------
  // The screen loop

  /** Which screen applies: criteria are available when there is at least one. */
  function RecordVerdict(names: seq<string>, lines: seq<string>): Result<(Verdict, nat)>
  {
    if |names| > 0 then WithCriteria(names, lines) else WithoutCriteria(lines)
  }

  /** Lines read by a verdict never exceed the lines there are. */
  lemma RecordVerdictUsed(names: seq<string>, lines: seq<string>)
    ensures RecordVerdict(names, lines).Ok? ==> RecordVerdict(names, lines).value.1 <= |lines|
  {
  }

  /** The loop over the items: the screenings so far, the lines read, the records shown and whether "quit" was answered. */
  datatype Progress = Progress(log: seq<Screening>, used: nat, shown: nat, quit: bool)

  /** One item of the loop: items outside the split are passed over, the others are screened. */
  function Advance(p: Progress, item: map<string, string>, split: seq<string>, names: seq<string>, lines: seq<string>)
    : (r: Result<Progress>)
    requires p.used <= |lines|
    ensures r.Ok? ==> p.used <= r.value.used <= |lines| && p.shown <= r.value.shown <= p.shown + 1
    ensures r.Ok? ==> |r.value.log| - |p.log| <= r.value.shown - p.shown
  {
    if "ID" !in item then Err(KeyError("ID"))
    else if item["ID"] !in split then Ok(p)
    else
      RecordVerdictUsed(names, lines[p.used..]);
      match RecordVerdict(names, lines[p.used..])
      case Err(e) => Err(e)
      case Ok((v, u)) =>
        var log := if v.Screened? then p.log + [Screening(item["ID"], v.inclusion, v.criteria)] else p.log;
        Ok(Progress(log, p.used + u, p.shown + 1, v == Quit))
  }

  /** The item loop of __screen_cli over a prefix of the items; after "quit" the rest is passed over. */
  function Screen(items: seq<map<string, string>>, split: seq<string>, names: seq<string>, lines: seq<string>)
    : (r: Result<Progress>)
    ensures r.Ok? ==> r.value.used <= |lines| && r.value.shown <= |items| && |r.value.log| <= r.value.shown
    decreases |items|
  {
    if |items| == 0 then Ok(Progress([], 0, 0, false))
    else
      match Screen(items[..|items| - 1], split, names, lines)
      case Err(e) => Err(e)
      case Ok(p) => if p.quit then Ok(p) else Advance(p, items[|items| - 1], split, names, lines)
  }

  /** Only items whose ID is in the split are screened. */
  lemma {:induction false} ScreenOnlySplit(items: seq<map<string, string>>, split: seq<string>, names: seq<string>,
                                           lines: seq<string>)
    ensures Screen(items, split, names, lines).Ok? ==>
      forall s :: s in Screen(items, split, names, lines).value.log ==> s.id in split
    decreases |items|
  {
    if |items| > 0 {
      ScreenOnlySplit(items[..|items| - 1], split, names, lines);
    }
  }

  /** An empty split screens nothing, shows nothing and reads no line. */
  lemma {:induction false} ScreenEmptySplit(items: seq<map<string, string>>, names: seq<string>, lines: seq<string>)
    requires forall i :: 0 <= i < |items| ==> "ID" in items[i]
    ensures Screen(items, [], names, lines) == Ok(Progress([], 0, 0, false))
    decreases |items|
  {
    if |items| > 0 {
      ScreenEmptySplit(items[..|items| - 1], names, lines);
    }
  }

  /** Once "quit" is answered or an error is raised, later items change nothing. */
  lemma {:induction false} ScreenStops(items: seq<map<string, string>>, split: seq<string>, names: seq<string>,
                                       lines: seq<string>, k: nat)
    requires k <= |items|
    requires var p := Screen(items[..k], split, names, lines); p.Err? || p.value.quit
    ensures Screen(items, split, names, lines) == Screen(items[..k], split, names, lines)
    decreases |items| - k
  {
    if k < |items| {
      assert items[..k + 1][..k] == items[..k];
      ScreenStops(items, split, names, lines, k + 1);
    } else {
      assert items[..k] == items;
    }
  }

  /** A skipped item is shown but not screened, and the loop goes on. */
  lemma SkipContinues(items: seq<map<string, string>>, split: seq<string>, names: seq<string>, lines: seq<string>)
    requires |items| > 0
    requires var p := Screen(items[..|items| - 1], split, names, lines);
      var item := items[|items| - 1];
      p.Ok? && !p.value.quit && "ID" in item && item["ID"] in split
      && RecordVerdict(names, lines[p.value.used..]).Ok? && RecordVerdict(names, lines[p.value.used..]).value.0 == Skip
    ensures var p := Screen(items[..|items| - 1], split, names, lines).value;
      var q := Screen(items, split, names, lines);
      q.Ok? && q.value.log == p.log && q.value.shown == p.shown + 1 && !q.value.quit
  {
  }

  /**
   * __screen_cli: the screenings and whether a commit is created. With no records to
   * screen nothing is committed; when fewer records were shown than there are tasks
   * and the split is not empty, the commit needs a "y" on the next line.
   */
  function Run(items: seq<map<string, string>>, split: seq<string>, names: seq<string>, lines: seq<string>,
               statLen: nat, shownBefore: nat): Result<(seq<Screening>, bool)>
  {
    match Screen(items, split, names, lines)
    case Err(e) => Err(e)
    case Ok(p) =>
      if statLen == 0 then Ok((p.log, false))
      else if shownBefore + p.shown < statLen && |split| > 0 then
        if p.used == |lines| then Err(EOFError) else Ok((p.log, lines[p.used] == "y"))
      else Ok((p.log, true))
  }

  /** The item loop after one more item, when it had neither stopped nor failed. */
  lemma ScreenStep(items: seq<map<string, string>>, split: seq<string>, names: seq<string>, lines: seq<string>,
                   k: nat, p: Progress)
    requires k < |items| && Screen(items[..k], split, names, lines) == Ok(p) && !p.quit
    ensures Screen(items[..k + 1], split, names, lines) == Advance(p, items[k], split, names, lines)
  {
    assert items[..k + 1][..k] == items[..k];
  }

  /** The screen's counter and the lines the user has yet to type. */
  class Screener {
    var shown: nat
    var input: seq<string>

    constructor(input: seq<string>)
      ensures this.shown == 0 && this.input == input
    {
      this.shown := 0;
      this.input := input;
    }

    /** input(): the next line, EOFError when there is none. */
    method ReadLine() returns (r: Result<string>)
      modifies this
      ensures old(input) == [] ==> r == Err(EOFError) && input == old(input)
      ensures old(input) != [] ==> r == Ok(old(input)[0]) && input == old(input)[1..]
      ensures shown == old(shown)
    {
      if input == [] {
        return Err(EOFError);
      }
      r := Ok(input[0]);
      input := input[1..];
    }

    /** The prompt loop: lines are read until one is y, n, q or s. */
    method ReadAnswer() returns (r: Result<string>)
      modifies this
      ensures var a := NextAnswer(old(input));
        && (a.Err? ==> r == Err(a.error))
        && (a.Ok? ==> r == Ok(a.value.0) && input == old(input)[a.value.1..])
      ensures shown == old(shown)
    {
      var ret := "NA";
      ghost var used: nat := 0;
      while ret !in Answers
        invariant used <= |old(input)| && input == old(input)[used..] && shown == old(shown)
        invariant ret !in Answers ==> forall j :: 0 <= j < used ==> old(input)[j] !in Answers
        invariant ret in Answers ==>
          (used > 0 && old(input)[used - 1] == ret && forall j :: 0 <= j < used - 1 ==> old(input)[j] !in Answers)
        decreases |input|, if ret in Answers then 0 else 1
      {
        var line := ReadLine();
        if line.Err? {
          NextAnswerNone(old(input));
          return Err(EOFError);
        }
        ret := line.value;
        used := used + 1;
      }
      NextAnswerAt(old(input), used);
      r := Ok(ret);
    }

    /** One pass of the criteria loop: the answer for one criterion. */
    method AskOne(name: string, decisions: seq<(string, string)>, ghost lines: seq<string>, ghost used: nat)
      returns (r: Result<(Option<Verdict>, seq<(string, string)>)>)
      requires used <= |lines| && input == lines[used..]
      modifies this
      ensures var e := Extend(Round(None, decisions, used), name, lines);
        && (e.Err? ==> r == Err(e.error))
        && (e.Ok? ==> r == Ok((e.value.stop, e.value.decisions)) && input == lines[e.value.used..])
      ensures shown == old(shown)
    {
      var ret := ReadAnswer();
      if ret.Err? {
        return Err(ret.error);
      }
      ghost var u := NextAnswer(lines[used..]).value.1;
      DropDrop(lines, used, u);
      if ret.value == "q" {
        return Ok((Some(Quit), decisions));
      }
      if ret.value == "s" {
        return Ok((Some(Skip), decisions));
      }
      r := Ok((None, decisions + [(name, Label(ret.value))]));
    }

    /**
     * The loop over the criteria: a "q" or "s" stops it with that verdict, otherwise each
     * criterion gets the in/out label of its answer.
     */
    method AskCriteria(names: seq<string>) returns (r: Result<(Option<Verdict>, seq<(string, string)>)>)
      modifies this
      ensures var rd := CriteriaRound(names, old(input));
        && (rd.Err? ==> r == Err(rd.error))
        && (rd.Ok? ==> r == Ok((rd.value.stop, rd.value.decisions)) && input == old(input)[rd.value.used..])
      ensures shown == old(shown)
    {
      ghost var lines := input;
      var decisions: seq<(string, string)> := [];
      ghost var used: nat := 0;
      ghost var done: seq<string> := [];
      var i := 0;
      while i < |names|
        invariant i <= |names| && used <= |lines| && input == lines[used..] && shown == old(shown)
        invariant done == names[..i]
        invariant CriteriaRound(done, lines) == Ok(Round(None, decisions, used))
      {
        RoundSnoc(done, names[i], lines);
        TakeSnoc(names, i);
        ghost var next := Extend(Round(None, decisions, used), names[i], lines);
        var step := AskOne(names[i], decisions, lines, used);
        if step.Err? {
          CriteriaRoundStops(names, i + 1, lines);
          return Err(step.error);
        }
        if step.value.0.Some? {
          CriteriaRoundStops(names, i + 1, lines);
          return step;
        }
        decisions := step.value.1;
        used := next.value.used;
        done := done + [names[i]];
        i := i + 1;
      }
      TakeAll(names);
      r := Ok((None, decisions));
    }

    /** __screen_record_with_criteria */
    method ScreenWithCriteria(names: seq<string>) returns (r: Result<Verdict>)
      modifies this
      ensures var v := WithCriteria(names, old(input));
        && (v.Err? ==> r == Err(v.error))
        && (v.Ok? ==> r == Ok(v.value.0) && input == old(input)[v.value.1..])
      ensures shown == old(shown)
    {
      var asked := AskCriteria(names);
      if asked.Err? {
        return Err(asked.error);
      }
      var (stop, decisions) := asked.value;
      if stop.Some? {
        return Ok(stop.value);
      }
      var field := BuildCriteriaField(decisions);
      var inclusion := AllInLoop(decisions);
      r := Ok(Screened(inclusion, field));
    }

    /** The c_field loop and its clean-up. */
    method BuildCriteriaField(decisions: seq<(string, string)>) returns (field: string)
      ensures field == CriteriaField(decisions)
    {
      field := "";
      for j := 0 to |decisions|
        invariant field == Prefixed(decisions[..j])
      {
        assert decisions[..j + 1][..j] == decisions[..j];
        field := field + (";" + Piece(decisions[j]));
      }
      assert decisions[..|decisions|] == decisions;
      field := LStrip(Replace(field, " ", ""), {';'});
    }

    /** all(decision == "in" ...) as a loop. */
    method AllInLoop(decisions: seq<(string, string)>) returns (inclusion: bool)
      ensures inclusion <==> AllIn(decisions)
    {
      inclusion := true;
      for j := 0 to |decisions|
        invariant inclusion <==> forall k :: 0 <= k < j ==> decisions[k].1 == "in"
      {
        inclusion := inclusion && decisions[j].1 == "in";
      }
    }

    /** __screen_record_without_criteria */
    method ScreenWithoutCriteria() returns (r: Result<Verdict>)
      modifies this
      ensures var v := WithoutCriteria(old(input));
        && (v.Err? ==> r == Err(v.error))
        && (v.Ok? ==> r == Ok(v.value.0) && input == old(input)[v.value.1..])
      ensures shown == old(shown)
    {
      var ret := ReadAnswer();
      if ret.Err? {
        return Err(ret.error);
      }
      if ret.value == "q" {
        return Ok(Quit);
      }
      if ret.value == "s" {
        return Ok(Skip);
      }
      r := Ok(Screened(ret.value == "y", "NA"));
    }

    /**
     * __screen_record: a record without an abstract and with a PDF file gets the abstract
     * of its TEI document for display (tei yields None when the TEI document cannot be
     * read); that abstract is removed again before the decision is recorded, so the record
     * handed to the screen operation is the item as loaded.
     */
    method ScreenRecord(item: map<string, string>, names: seq<string>, tei: string -> Option<string>)
      returns (r: Result<Verdict>, screened: map<string, string>)
      modifies this
      ensures shown == old(shown) + 1
      ensures var v := RecordVerdict(names, old(input));
        && (v.Err? ==> r == Err(v.error))
        && (v.Ok? ==> r == Ok(v.value.0) && input == old(input)[v.value.1..])
      ensures r.Ok? && r.value.Screened? ==> screened == item
    {
      var data := item;
      var abstractFromTei := false;
      if "abstract" !in data && PathSuffix(Get(data, "file", "")) == ".pdf" {
        abstractFromTei := true;
        var teiAbstract := tei(data["file"]);
        if teiAbstract.Some? {
          data := data["abstract" := teiAbstract.value];
          assert data - {"abstract"} == item;
        }
      }
      assert data == item || (abstractFromTei && "abstract" in data && data - {"abstract"} == item);
      shown := shown + 1;
      if |names| > 0 {
        assert RecordVerdict(names, old(input)) == WithCriteria(names, input);
        r := ScreenWithCriteria(names);
      } else {
        assert RecordVerdict(names, old(input)) == WithoutCriteria(input);
        r := ScreenWithoutCriteria();
      }
      if r.Ok? && r.value.Screened? && abstractFromTei && "abstract" in data {
        data := data - {"abstract"};
      }
      screened := data;
    }

    /** One pass of the item loop: the screenings so far and whether "quit" was answered. */
    method ScreenItem(item: map<string, string>, split: seq<string>, names: seq<string>, tei: string -> Option<string>,
                      log: seq<Screening>, ghost lines: seq<string>, ghost p: Progress)
      returns (res: Result<(seq<Screening>, bool)>)
      requires p.used <= |lines| && input == lines[p.used..] && log == p.log && !p.quit
      modifies this
      ensures var a := Advance(p, item, split, names, lines);
        && (a.Err? ==> res == Err(a.error))
        && (a.Ok? ==> res == Ok((a.value.log, a.value.quit)) && input == lines[a.value.used..]
                      && shown == old(shown) + a.value.shown - p.shown)
    {
      if "ID" !in item {
        return Err(KeyError("ID"));
      }
      if item["ID"] !in split {
        return Ok((log, false));
      }
      var ret, _ := ScreenRecord(item, names, tei);
      if ret.Err? {
        return Err(ret.error);
      }
      var next := log;
      if ret.value.Screened? {
        next := log + [Screening(item["ID"], ret.value.inclusion, ret.value.criteria)];
      }
      res := Ok((next, ret.value == Quit));
    }

    /** __screen_cli: the screenings in order and whether the commit is created. */
    method RunScreen(items: seq<map<string, string>>, split: seq<string>, names: seq<string>, statLen: nat,
                     tei: string -> Option<string>)
      returns (r: Result<(seq<Screening>, bool)>)
      modifies this
      ensures r == Run(items, split, names, old(input), statLen, old(shown))
    {
      var log: seq<Screening> := [];
      ghost var p := Progress([], 0, 0, false);
      var k := 0;
      while k < |items|
        invariant k <= |items| && p.used <= |old(input)|
        invariant Screen(items[..k], split, names, old(input)) == Ok(p) && !p.quit
        invariant log == p.log && input == old(input)[p.used..] && shown == old(shown) + p.shown
      {
        ScreenStep(items, split, names, old(input), k, p);
        ghost var a := Advance(p, items[k], split, names, old(input));
        var res := ScreenItem(items[k], split, names, tei, log, old(input), p);
        if res.Err? {
          ScreenStops(items, split, names, old(input), k + 1);
          return Err(res.error);
        }
        var quit;
        log, quit := res.value.0, res.value.1;
        p := a.value;
        if quit {
          ScreenStops(items, split, names, old(input), k + 1);
          r := Finish(log, split, statLen, old(input), p);
          return;
        }
        k := k + 1;
      }
      assert items[..|items|] == items;
      r := Finish(log, split, statLen, old(input), p);
    }

    /** After the loop: nothing to commit without tasks; ask when records remain for screening. */
    method Finish(log: seq<Screening>, split: seq<string>, statLen: nat, ghost lines: seq<string>, ghost p: Progress)
      returns (r: Result<(seq<Screening>, bool)>)
      requires p.used <= |lines| && input == lines[p.used..]
      modifies this
      ensures statLen == 0 ==> r == Ok((log, false))
      ensures statLen > 0 && old(shown) < statLen && |split| > 0 ==>
        r == (if p.used == |lines| then Err(EOFError) else Ok((log, lines[p.used] == "y")))
      ensures statLen > 0 && !(old(shown) < statLen && |split| > 0) ==> r == Ok((log, true))
    {
      if statLen == 0 {
        return Ok((log, false));
      }
      if shown < statLen && |split| > 0 {
        var answer := ReadLine();
        if answer.Err? {
          return Err(EOFError);
        }
        return Ok((log, answer.value == "y"));
      }
      r := Ok((log, true));
    }
  }

  /** Lines that hold no answer end the prompt with EOFError. */
  lemma NextAnswerNone(lines: seq<string>)
    requires forall j :: 0 <= j < |lines| ==> lines[j] !in Answers
    ensures NextAnswer(lines) == Err(EOFError)
  {
  }

  /** The prompt settles on the first line that is an answer. */
  lemma {:induction false} NextAnswerAt(lines: seq<string>, used: nat)
    requires 0 < used <= |lines| && lines[used - 1] in Answers
    requires forall j :: 0 <= j < used - 1 ==> lines[j] !in Answers
    ensures NextAnswer(lines) == Ok((lines[used - 1], used))
    decreases used
  {
    if used > 1 {
      assert lines[0] !in Answers;
      NextAnswerAt(lines[1..], used - 1);
    }
  }

  /** A criterion appended to a round that has not stopped is decided by Extend. */
  lemma RoundSnoc(init: seq<string>, name: string, lines: seq<string>)
    requires CriteriaRound(init, lines).Ok? && CriteriaRound(init, lines).value.stop.None?
    ensures CriteriaRound(init + [name], lines) == Extend(CriteriaRound(init, lines).value, name, lines)
  {
    var pre := init + [name];
    assert pre[..|pre| - 1] == init;
  }

  /** A criterion appended to a round that has stopped changes nothing. */
  lemma RoundStoppedSnoc(init: seq<string>, name: string, lines: seq<string>)
    requires CriteriaRound(init, lines).Ok? && CriteriaRound(init, lines).value.stop.Some?
    ensures CriteriaRound(init + [name], lines) == CriteriaRound(init, lines)
  {
    var pre := init + [name];
    assert pre[..|pre| - 1] == init;
  }

  /** Once the criteria loop has stopped or failed, later criteria change nothing. */
  lemma {:induction false} CriteriaRoundStops(names: seq<string>, i: nat, lines: seq<string>)
    requires i <= |names|
    requires var rd := CriteriaRound(names[..i], lines); rd.Err? || rd.value.stop.Some?
    ensures CriteriaRound(names, lines) == CriteriaRound(names[..i], lines)
    decreases |names| - i
  {
    if i < |names| {
      assert names[..i + 1][..i] == names[..i];
      CriteriaRoundStops(names, i + 1, lines);
    } else {
      assert names[..i] == names;
    }
  }
}
