// The generator of the VSOP87D check program (meeus/C/lib/vsop87/create_vsop87_test.py): it reads the
// reference file raw/vsop87.chk line by line; a "VSOP87D" line names a body and a date, becomes a C
// comment and arms a flag; the next "l" line, while the flag is armed, becomes a call of
// vso_vsop87d_dyn_coordinates compared with the three reference values, and disarms it.
//
// File reading is a parameter `read` (file name to lines, as readlines gives them).

module Vsop87TestGen {
  import opened PyText

  // ---------------------------------------------------------------------
  // Lines and the state of the loop
  // ---------------------------------------------------------------------

  /** body, jd, test_str and flag, the variables the loop updates. */
  datatype State = State(body: string, jd: string, text: string, flag: bool)

  /** The values before the first line: placeholders "NAB" and "NAJ", no text, flag down. */
  const Init: State := State("NAB", "NAJ", "", false)

  /**
   * What the loop makes of one line: blank; a "VSOP87D" header with its body, its date and its
   * stripped text; a header too short for v[1] or v[2]; an "l" line with v[1], v[4] and v[7] when it
   * has eight tokens; or any other line.
   */
  datatype Line =
    | Blank
    | Header(body: string, jd: string, comment: string)
    | ShortHeader
    | Values(coords: Option<Triple>)
    | Other

  /** The three reference values v[1], v[4] and v[7] of an "l" line. */
  datatype Triple = Triple(first: string, second: string, third: string)

  /** s[2:] in Python: empty when s has fewer than two characters. */
  function DropTwo(s: string): (r: string)
    ensures |s| >= 2 ==> r == s[2..]
    ensures |s| < 2 ==> r == ""
  {
    if |s| < 2 then "" else s[2..]
  }

  /** The classification of one line by its tokens v = line.split(). */
  function Classify(line: string): (l: Line)
    ensures l.Blank? <==> Split(line) == []
    ensures (l.Header? || l.ShortHeader?) <==> |Split(line)| > 0 && Split(line)[0] == "VSOP87D"
    ensures l.ShortHeader? <==> |Split(line)| > 0 && Split(line)[0] == "VSOP87D" && |Split(line)| < 3
    ensures l.Header? ==> l.body == Split(line)[1] && l.jd == DropTwo(Split(line)[2]) && l.comment == Strip(line)
    ensures l.Values? <==> |Split(line)| > 0 && Split(line)[0] == "l"
    ensures l.Values? ==> (l.coords.Some? <==> |Split(line)| >= 8)
    ensures l.Values? && l.coords.Some? ==> l.coords.value == Triple(Split(line)[1], Split(line)[4], Split(line)[7])
  {
    var v := Split(line);
    if |v| == 0 then Blank
    else if v[0] == "VSOP87D" then
      if |v| < 3 then ShortHeader else Header(v[1], DropTwo(v[2]), Strip(line))
    else if v[0] == "l" then
      Values(if |v| < 8 then None else Some(Triple(v[1], v[4], v[7])))
    else Other
  }

  /** The lines of the file, classified. */
  function Lines(buf: seq<string>): (ls: seq<Line>)
    ensures |ls| == |buf|
    decreases |buf|
  {
    if |buf| == 0 then [] else [Classify(buf[0])] + Lines(buf[1..])
  }

  // ---------------------------------------------------------------------
  // The text the loop appends
  // ---------------------------------------------------------------------

  /** The comment a header line becomes. */
  function CommentText(comment: string): string
  {
    "    /* " + comment + " */\n"
  }

  /** The label printed before the check: '    printf("VSOP87D - %s on J%s - ");' of body and jd. */
  function LabelLine(body: string, jd: string): string
  {
    "    printf(\"VSOP87D - " + body + " on J" + jd + " - \");\n"
  }

  /** The evaluation of the series for that body at that date. */
  function EvaluationLine(jd: string, body: string): string
  {
    "    vso_vsop87d_dyn_coordinates (" + jd + ", " + body + ", coord);\n"
  }

  /** The reduction of the longitude to [0, 2 pi). */
  const ReductionLine: string := "    coord[0] = rerange(coord[0], 2*M_PI);\n"

  /** The comparison with the three reference values, followed by a blank line. */
  function ComparisonLine(coords: Triple): string
  {
    "    res_coord(coord, (double[]) {" + coords.first + ", " + coords.second + ", " + coords.third + "}, 10, 0);\n\n"
  }

  /** The four statements of one check: the label, the evaluation, the reduction and the comparison. */
  function BlockText(body: string, jd: string, coords: Triple): string
  {
    LabelLine(body, jd) + EvaluationLine(jd, body) + ReductionLine + ComparisonLine(coords)
  }

  /**
   * One round of the loop. A short header raises IndexError at v[1] or v[2]; a header sets body and
   * jd, appends its comment and arms the flag; an "l" line while the flag is armed appends a block and
   * disarms it, or raises IndexError at v[7] when it is too short; every other line changes nothing.
   */
  function Next(st: State, l: Line): (r: Py<State>)
    ensures r.Raised? ==> r.error == IndexError
    ensures r.Raised? <==> l.ShortHeader? || (l.Values? && l.coords.None? && st.flag)
  {
    match l
    case Blank => Value(st)
    case Other => Value(st)
    case ShortHeader => Raised(IndexError)
    case Header(b, j, c) => Value(State(b, j, st.text + CommentText(c), true))
    case Values(coords) =>
      if !st.flag then Value(st)
      else if coords.None? then Raised(IndexError)
      else Value(st.(text := st.text + BlockText(st.body, st.jd, coords.value), flag := false))
  }

  /** The loop over the remaining lines from state st; the first exception ends the script. */
  function Run(st: State, ls: seq<Line>): (r: Py<State>)
    decreases |ls|
  {
    if |ls| == 0 then Value(st)
    else
      match Next(st, ls[0])
      case Raised(e) => Raised(e)
      case Value(s) => Run(s, ls[1..])
  }

  /** The only exception the loop can raise is an IndexError. */
  lemma {:induction false} RunRaisesIndexError(st: State, ls: seq<Line>)
    ensures Run(st, ls).Raised? ==> Run(st, ls).error == IndexError
    decreases |ls|
  {
    if |ls| > 0 && Next(st, ls[0]).Value? {
      RunRaisesIndexError(Next(st, ls[0]).value, ls[1..]);
    }
  }

  /** get_vsop87d_test as a function of the lines of raw/vsop87.chk. */
  function TestText(buf: seq<string>): Py<string>
  {
    match Run(Init, Lines(buf))
    case Raised(e) => Raised(e)
    case Value(st) => Value(st.text)
  }

  // ---------------------------------------------------------------------
  // The text as a sequence of events
  // ---------------------------------------------------------------------

  /** What the generated text is made of: a header's comment, or the check that follows it. */
  datatype Event =
    | Comment(comment: string, body: string, jd: string)
    | Check(body: string, jd: string, coords: Triple)

  function EventText(e: Event): string
  {
    match e
    case Comment(c, _, _) => CommentText(c)
    case Check(b, j, coords) => BlockText(b, j, coords)
  }

  /** The text of a sequence of events, in order. */
  function Render(evs: seq<Event>): string
    decreases |evs|
  {
    if |evs| == 0 then "" else EventText(evs[0]) + Render(evs[1..])
  }

  /** The events one line adds: none, one comment or one check. */
  function Emitted(st: State, l: Line): (evs: seq<Event>)
    requires Next(st, l).Value?
    ensures |evs| <= 1
  {
    match l
    case Header(b, j, c) => [Comment(c, b, j)]
    case Values(coords) => if st.flag then [Check(st.body, st.jd, coords.value)] else []
    case _ => []
  }

  /** The events of the remaining lines from state st, when the loop finishes without an exception. */
  function Events(st: State, ls: seq<Line>): (evs: seq<Event>)
    requires Run(st, ls).Value?
    decreases |ls|
  {
    if |ls| == 0 then [] else Emitted(st, ls[0]) + Events(Next(st, ls[0]).value, ls[1..])
  }

  lemma RenderAppend(a: seq<Event>, b: seq<Event>)
    requires |a| <= 1
    ensures Render(a + b) == Render(a) + Render(b)
  {
    if |a| == 1 {
      assert (a + b)[0] == a[0] && (a + b)[1..] == b;
      assert a[1..] == [];
    } else {
      assert a + b == b;
    }
  }

  /** One line appends the text of the event it emits. */
  lemma NextRenders(st: State, l: Line)
    requires Next(st, l).Value?
    ensures Next(st, l).value.text == st.text + Render(Emitted(st, l))
  {
    var e := Emitted(st, l);
    if |e| == 1 {
      assert Render(e) == EventText(e[0]) + Render(e[1..]);
    }
  }

  /** The text the loop appends is exactly the rendering of its events, in order. */
  lemma {:induction false} RunRendersEvents(st: State, ls: seq<Line>)
    requires Run(st, ls).Value?
    ensures Run(st, ls).value.text == st.text + Render(Events(st, ls))
    decreases |ls|
  {
    if |ls| > 0 {
      var s := Next(st, ls[0]).value;
      RunRendersEvents(s, ls[1..]);
      RenderAppend(Emitted(st, ls[0]), Events(s, ls[1..]));
      NextRenders(st, ls[0]);
    }
  }

  // ---------------------------------------------------------------------
  // The shape of the events
  // ---------------------------------------------------------------------

  /** The number of header lines (short ones included: they raise). */
  function HeaderCount(ls: seq<Line>): nat
    decreases |ls|
  {
    if |ls| == 0 then 0 else (if ls[0].Header? || ls[0].ShortHeader? then 1 else 0) + HeaderCount(ls[1..])
  }

  function CommentCount(evs: seq<Event>): nat
    decreases |evs|
  {
    if |evs| == 0 then 0 else (if evs[0].Comment? then 1 else 0) + CommentCount(evs[1..])
  }

  lemma CommentCountAppend(a: seq<Event>, b: seq<Event>)
    requires |a| <= 1
    ensures CommentCount(a + b) == CommentCount(a) + CommentCount(b)
  {
    if |a| == 1 {
      assert (a + b)[0] == a[0] && (a + b)[1..] == b;
      assert a[1..] == [];
    } else {
      assert a + b == b;
    }
  }

  /** There is one comment per header line, whatever the other lines hold. */
  lemma {:induction false} CommentsMatchHeaders(st: State, ls: seq<Line>)
    requires Run(st, ls).Value?
    ensures CommentCount(Events(st, ls)) == HeaderCount(ls)
    decreases |ls|
  {
    if |ls| > 0 {
      var s := Next(st, ls[0]).value;
      CommentsMatchHeaders(s, ls[1..]);
      CommentCountAppend(Emitted(st, ls[0]), Events(s, ls[1..]));
      assert CommentCount(Emitted(st, ls[0])) == (if ls[0].Header? then 1 else 0) by {
        if ls[0].Header? {
          assert CommentCount(Emitted(st, ls[0])[1..]) == 0;
        } else if ls[0].Values? && st.flag {
          assert CommentCount(Emitted(st, ls[0])[1..]) == 0;
        }
      }
    }
  }

  /**
   * The grammar of the events from a state whose flag, body and jd are given: each check comes right
   * after the comment of its header, with that header's body and date, and disarms the flag.
   */
  predicate Alternates(flag: bool, body: string, jd: string, evs: seq<Event>)
    decreases |evs|
  {
    if |evs| == 0 then true
    else
      match evs[0]
      case Comment(_, b, j) => Alternates(true, b, j, evs[1..])
      case Check(b, j, _) => flag && b == body && j == jd && Alternates(false, b, j, evs[1..])
  }

  /** The events of every run follow the grammar, from the state the run starts in. */
  lemma {:induction false} EventsAlternate(st: State, ls: seq<Line>)
    requires Run(st, ls).Value?
    ensures Alternates(st.flag, st.body, st.jd, Events(st, ls))
    decreases |ls|
  {
    if |ls| > 0 {
      var s := Next(st, ls[0]).value;
      var rest := Events(s, ls[1..]);
      EventsAlternate(s, ls[1..]);
      var e := Emitted(st, ls[0]);
      if |e| == 1 {
        assert (e + rest)[0] == e[0] && (e + rest)[1..] == rest;
      } else {
        assert e + rest == rest;
        assert s == st;
      }
    }
  }

  /** From an unarmed start, the first event is a comment, never a check. */
  lemma NoCheckFirst(body: string, jd: string, evs: seq<Event>)
    requires Alternates(false, body, jd, evs) && |evs| > 0
    ensures evs[0].Comment?
  {
  }

  /** No two checks are adjacent: a second check would need a second header in between. */
  lemma {:induction false} NoAdjacentChecks(flag: bool, body: string, jd: string, evs: seq<Event>, i: nat)
    requires Alternates(flag, body, jd, evs) && i + 1 < |evs| && evs[i].Check?
    ensures evs[i + 1].Comment?
    decreases i
  {
    if i == 0 {
      assert Alternates(false, evs[0].body, evs[0].jd, evs[1..]);
      assert evs[1..][0] == evs[1];
    } else {
      var f, b, j := if evs[0].Comment? then true else false, evs[0].body, evs[0].jd;
      assert Alternates(f, b, j, evs[1..]);
      NoAdjacentChecks(f, b, j, evs[1..], i - 1);
      assert evs[1..][i - 1] == evs[i] && evs[1..][i] == evs[i + 1];
    }
  }

  /** Every check is preceded by the comment of its header, with the same body and date. */
  lemma {:induction false} CheckFollowsComment(flag: bool, body: string, jd: string, evs: seq<Event>, i: nat)
    requires Alternates(flag, body, jd, evs) && 0 < i < |evs| && evs[i].Check?
    ensures evs[i - 1].Comment? && evs[i - 1].body == evs[i].body && evs[i - 1].jd == evs[i].jd
    decreases i
  {
    var f, b, j := if evs[0].Comment? then true else false, evs[0].body, evs[0].jd;
    assert Alternates(f, b, j, evs[1..]);
    if i == 1 {
      assert evs[1..][0] == evs[1];
    } else {
      CheckFollowsComment(f, b, j, evs[1..], i - 1);
      assert evs[1..][i - 2] == evs[i - 1] && evs[1..][i - 1] == evs[i];
    }
  }

  /** No line of ls is a "VSOP87D" header. */
  predicate NoHeaders(ls: seq<Line>)
  {
    forall k :: 0 <= k < |ls| ==> !ls[k].Header? && !ls[k].ShortHeader?
  }

  /**
   * Before any header nothing is written: from an unarmed state, lines without a header leave the
   * state as it is and emit no event, whatever their "l" lines hold.
   */
  lemma {:induction false} NothingBeforeHeader(st: State, ls: seq<Line>)
    requires !st.flag && NoHeaders(ls)
    ensures Run(st, ls) == Value(st)
    ensures Events(st, ls) == []
    decreases |ls|
  {
    if |ls| > 0 {
      assert !ls[0].Header? && !ls[0].ShortHeader?;
      assert Next(st, ls[0]) == Value(st);
      assert NoHeaders(ls[1..]) by {
        forall k | 0 <= k < |ls[1..]|
          ensures !ls[1..][k].Header? && !ls[1..][k].ShortHeader?
        {
          assert ls[1..][k] == ls[k + 1];
        }
      }
      NothingBeforeHeader(st, ls[1..]);
    }
  }

  // ---------------------------------------------------------------------
  // The script
  // ---------------------------------------------------------------------

  /** The file the script reads. */
  const CheckFile: string := "raw/vsop87.chk"

  /** One round of `for line in buf`, on the variables the loop updates. */
  method ReadLine(st: State, line: string) returns (r: Py<State>)
    ensures r == Next(st, Classify(line))
  {
    var body, jd, testStr, flag := st.body, st.jd, st.text, st.flag;
    var v := Split(line);
    if v == [] {
      return Value(st);
    }
    if v[0] == "VSOP87D" {
      if |v| < 2 {
        return Raised(IndexError);
      }
      body := v[1];
      if |v| < 3 {
        return Raised(IndexError);
      }
      jd := DropTwo(v[2]);
      testStr := testStr + CommentText(Strip(line));
      flag := true;
      return Value(State(body, jd, testStr, flag));
    }
    if v[0] == "l" {
      if flag {
        testStr := testStr + LabelLine(body, jd);
        testStr := testStr + EvaluationLine(jd, body);
        testStr := testStr + ReductionLine;
        if |v| < 8 {
          return Raised(IndexError);
        }
        testStr := testStr + ComparisonLine(Triple(v[1], v[4], v[7]));
        flag := false;
        assert testStr == st.text + BlockText(body, jd, Triple(v[1], v[4], v[7]));
      }
    }
    return Value(State(body, jd, testStr, flag));
  }

  /** get_vsop87d_test: the loop over the lines of raw/vsop87.chk. */
  method GetVsop87dTest(read: string -> seq<string>) returns (r: Py<string>)
    ensures r == TestText(read(CheckFile))
  {
    var buf := read(CheckFile);
    var st := Init;
    var i := 0;
    while i < |buf|
      invariant 0 <= i <= |buf|
      invariant Run(Init, Lines(buf)) == Run(st, Lines(buf[i..]))
    {
      assert buf[i..][0] == buf[i] && buf[i..][1..] == buf[i + 1..];
      assert Lines(buf[i..]) == [Classify(buf[i])] + Lines(buf[i + 1..]);
      var next := ReadLine(st, buf[i]);
      if next.Raised? {
        return Raised(next.error);
      }
      st := next.value;
      i := i + 1;
    }
    assert buf[|buf|..] == [];
    return Value(st.text);
  }

  /** The C text before the checks: the includes, the success flag and the opening of main. */
  const ProgramHead: string :=
    "#include <stdio.h>\n#include <stdlib.h>\n#include <math.h>\n#include <time.h>\n#include \"meeus.h\"\n"
    + "#include \"test.h\"\n\nint success = 1;\n\nint main(int argc, char **argv)\n{\n    double coord[3];\n"

  /** The C text after the checks: the status line and the end of main. */
  const ProgramTail: string :=
    "\n     printf (\"-----------------\\nTEST STATUS: %s\\n\",\n             success ? \"PASS\" : \"FAIL\");\n"
    + "     return 0;\n}"

  /** The whole program c_str for the lines of the reference file. */
  function Program(buf: seq<string>): (r: Py<string>)
    ensures r.Raised? <==> TestText(buf).Raised?
    ensures r.Value? ==> r.value == ProgramHead + TestText(buf).value + ProgramTail
  {
    match TestText(buf)
    case Raised(e) => Raised(e)
    case Value(s) => Value(ProgramHead + s + ProgramTail)
  }

  /** The script's top level; the text it prints (followed by a newline) is the result. */
  method GenerateTest(read: string -> seq<string>) returns (r: Py<string>)
    ensures r == Program(read(CheckFile))
  {
    var cStr := ProgramHead;
    var test := GetVsop87dTest(read);
    if test.Raised? {
      return Raised(test.error);
    }
    cStr := cStr + test.value;
    cStr := cStr + ProgramTail;
    return Value(cStr);
  }
}
