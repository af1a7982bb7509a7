// The generator of vsop87.h (meeus/C/lib/vsop87/create_vsop87_include.py): for each planet it reads
// the raw VSOP87D file, tallies the series of each coordinate from the "VSOP87" header lines, keeps
// the last three tokens of every other line as a coefficient triplet, and writes one C initializer of
// struct vsop_planetary_components; then it writes the array of the eight tables.
//
// File reading is a parameter `read` (file name to lines) and the formatting of one coefficient,
// "%.11f" % float(token), is a parameter `fixed11` that gives None where float() raises ValueError.

module Vsop87Include {
  import opened PyText
  import Units
  import Vsop87

  // ---------------------------------------------------------------------
  // The parsing loop
  // ---------------------------------------------------------------------

  /** num_series, terms_per_series and triplets as the loop leaves them. */
  datatype Parsed = Parsed(numSeries: seq<int>, termsPerSeries: seq<seq<int>>, triplets: seq<seq<string>>)

  /** Three coordinates, each with as many recorded term counts as series. */
  predicate Consistent(p: Parsed)
  {
    |p.numSeries| == 3 && |p.termsPerSeries| == 3
    && p.numSeries[0] == |p.termsPerSeries[0]| && p.numSeries[1] == |p.termsPerSeries[1]|
    && p.numSeries[2] == |p.termsPerSeries[2]|
  }

  /** The state before the first line. */
  const Start: Parsed := Parsed([0, 0, 0], [[], [], []], [])

  predicate IsHeader(v: seq<string>)
  {
    |v| > 0 && v[0] == "VSOP87"
  }

  /**
   * What the loop makes of one line: a series header for a coordinate with its term count, a term
   * with its coefficient triplet, or the exception the line raises.
   */
  datatype Line = Header(coord: nat, count: int) | Term(triplet: seq<string>) | Broken(error: PyError)

  /**
   * One line, already split: an empty line raises IndexError at v[0]; a header names coordinate
   * int(v[5]) - 1, with Python's indexing, so 0 wraps to the last coordinate, and announces int(v[8])
   * terms; any other line is a term whose triplet is its last three tokens.
   */
  function Classify(v: seq<string>): (l: Line)
    ensures l.Header? ==> l.coord < 3
    ensures |v| == 0 ==> l == Broken(IndexError)
    ensures l.Term? <==> |v| > 0 && !IsHeader(v)
    ensures l.Term? ==> l.triplet == LastThree(v)
    ensures l.Header? ==>
      (IsHeader(v) && |v| > 8 && ParseInt(v[8]) == Value(l.count)
        && ParseInt(v[5]).Value? && PyIndex(ParseInt(v[5]).value - 1, 3) == Some(l.coord))
    ensures (IsHeader(v) && |v| > 8 && ParseInt(v[5]).Value? && PyIndex(ParseInt(v[5]).value - 1, 3).Some?
        && ParseInt(v[8]).Value?) ==> l.Header?
  {
    if |v| == 0 then Broken(IndexError)
    else if v[0] != "VSOP87" then Term(LastThree(v))
    else
      match Token(v, 5)
      case Raised(e) => Broken(e)
      case Value(coordToken) =>
        match ParseInt(coordToken)
        case Raised(e) => Broken(e)
        case Value(n) =>
          match PyIndex(n - 1, 3)
          case None => Broken(IndexError)
          case Some(c) =>
            match Token(v, 8)
            case Raised(e) => Broken(e)
            case Value(countToken) =>
              match ParseInt(countToken)
              case Raised(e) => Broken(e)
              case Value(m) => Header(c, m)
  }

  /** The lines of the file, split and classified. */
  function Lines(buf: seq<string>): (ls: seq<Line>)
    ensures |ls| == |buf| && Coordinates(ls)
    decreases |buf|
  {
    if |buf| == 0 then [] else [Classify(Split(buf[0]))] + Lines(buf[1..])
  }

  /**
   * The effect of one line: a header counts one more series for its coordinate and records its term
   * count there; a term appends its triplet.
   */
  function Apply(p: Parsed, l: Line): (r: Py<Parsed>)
    requires Consistent(p) && (l.Header? ==> l.coord < 3)
    ensures r.Value? ==> Consistent(r.value)
    ensures r.Raised? <==> l.Broken?
  {
    match l
    case Broken(e) => Raised(e)
    case Term(t) => Value(p.(triplets := p.triplets + [t]))
    case Header(c, m) =>
      Value(p.(numSeries := p.numSeries[c := p.numSeries[c] + 1], termsPerSeries := p.termsPerSeries[c := p.termsPerSeries[c] + [m]]))
  }

  /** Headers name one of the three coordinates. */
  predicate Coordinates(ls: seq<Line>)
  {
    forall i :: 0 <= i < |ls| && ls[i].Header? ==> ls[i].coord < 3
  }

  /** The loop over the remaining lines from state p; the first exception ends it. */
  function ParseFrom(p: Parsed, ls: seq<Line>): (r: Py<Parsed>)
    requires Consistent(p) && Coordinates(ls)
    ensures r.Value? ==> Consistent(r.value)
    decreases |ls|
  {
    if |ls| == 0 then Value(p)
    else
      match Apply(p, ls[0])
      case Raised(e) => Raised(e)
      case Value(q) => ParseFrom(q, ls[1..])
  }

  /** The loop raises exactly when some line is broken, and then the first such line's exception. */
  lemma {:induction false} ParseFromRaises(p: Parsed, ls: seq<Line>)
    requires Consistent(p) && Coordinates(ls)
    ensures ParseFrom(p, ls).Raised? <==> exists i :: 0 <= i < |ls| && ls[i].Broken?
    ensures ParseFrom(p, ls).Raised? ==> ParseFrom(p, ls).error == ls[FirstBroken(ls)].error
    decreases |ls|
  {
    if |ls| > 0 {
      assert Coordinates(ls[1..]);
      if !ls[0].Broken? {
        ParseFromRaises(Apply(p, ls[0]).value, ls[1..]);
        if exists i :: 0 <= i < |ls| && ls[i].Broken? {
          var i :| 0 <= i < |ls| && ls[i].Broken?;
          assert ls[1..][i - 1].Broken?;
        }
        if exists i :: 0 <= i < |ls[1..]| && ls[1..][i].Broken? {
          var i :| 0 <= i < |ls[1..]| && ls[1..][i].Broken?;
          assert ls[i + 1].Broken?;
        }
      }
    }
  }

  /** The index of the first broken line, |ls| when there is none. */
  function FirstBroken(ls: seq<Line>): (i: nat)
    ensures i <= |ls| && forall j :: 0 <= j < i ==> !ls[j].Broken?
    ensures i < |ls| ==> ls[i].Broken?
    decreases |ls|
  {
    if |ls| == 0 || ls[0].Broken? then 0 else 1 + FirstBroken(ls[1..])
  }

  /** The triplets of the term lines, in file order: an independent definition. */
  function TripletsOf(ls: seq<Line>): seq<seq<string>>
    decreases |ls|
  {
    if |ls| == 0 then [] else (if ls[0].Term? then [ls[0].triplet] else []) + TripletsOf(ls[1..])
  }

  /** The number of term lines. */
  function TermLineCount(ls: seq<Line>): nat
    decreases |ls|
  {
    if |ls| == 0 then 0 else (if ls[0].Term? then 1 else 0) + TermLineCount(ls[1..])
  }

  lemma {:induction false} TripletsOfLength(ls: seq<Line>)
    ensures |TripletsOf(ls)| == TermLineCount(ls)
    decreases |ls|
  {
    if |ls| > 0 {
      TripletsOfLength(ls[1..]);
    }
  }

  /** The triplets one line adds: its own for a term, none for a header. */
  lemma ApplyTriplets(p: Parsed, l: Line)
    requires Consistent(p) && (l.Header? ==> l.coord < 3) && !l.Broken?
    ensures Apply(p, l).value.triplets == p.triplets + (if l.Term? then [l.triplet] else [])
  {
    if l.Header? {
      assert p.triplets + [] == p.triplets;
    }
  }

  /**
   * A file that parses keeps every term line as one triplet, in file order: the triplets are those
   * recorded before plus TripletsOf the lines, so there are TermLineCount of them.
   */
  lemma {:induction false} TripletsInFileOrder(p: Parsed, ls: seq<Line>)
    requires Consistent(p) && Coordinates(ls) && ParseFrom(p, ls).Value?
    ensures ParseFrom(p, ls).value.triplets == p.triplets + TripletsOf(ls)
    ensures |ParseFrom(p, ls).value.triplets| == |p.triplets| + TermLineCount(ls)
    decreases |ls|
  {
    TripletsOfLength(ls);
    if |ls| == 0 {
      assert p.triplets + [] == p.triplets;
    } else {
      var l := ls[0];
      var q := Apply(p, l).value;
      assert Coordinates(ls[1..]);
      TripletsInFileOrder(q, ls[1..]);
      ApplyTriplets(p, l);
      var x := if l.Term? then [l.triplet] else [];
      var rest := TripletsOf(ls[1..]);
      assert (p.triplets + x) + rest == p.triplets + (x + rest);
    }
  }

  // ---------------------------------------------------------------------
  // Well-formed files
  // ---------------------------------------------------------------------

  /** The sum of all term counts recorded for the three coordinates. */
  function Total(p: Parsed): int
    requires Consistent(p)
  {
    Vsop87.SumPrefix(p.termsPerSeries[0], |p.termsPerSeries[0]|)
    + Vsop87.SumPrefix(p.termsPerSeries[1], |p.termsPerSeries[1]|)
    + Vsop87.SumPrefix(p.termsPerSeries[2], |p.termsPerSeries[2]|)
  }

  predicate NonNegative(p: Parsed)
    requires Consistent(p)
  {
    forall c, s :: 0 <= c < 3 && 0 <= s < |p.termsPerSeries[c]| ==> p.termsPerSeries[c][s] >= 0
  }

  /** n term lines at the start of ls. */
  predicate TermLines(ls: seq<Line>, n: nat)
  {
    n <= |ls| && forall j :: 0 <= j < n ==> ls[j].Term?
  }

  /**
   * A well-formed VSOP87 file: blocks of one header announcing n >= 0 terms followed by exactly n term
   * lines.
   */
  predicate Blocks(ls: seq<Line>)
    decreases |ls|
  {
    |ls| == 0
    || (ls[0].Header? && ls[0].count >= 0 && TermLines(ls[1..], ls[0].count) && Blocks(ls[1 + ls[0].count..]))
  }

  /** The run minus its first line is a run of the lines that follow it. */
  lemma TermLinesTail(ls: seq<Line>, n: nat)
    requires TermLines(ls, n) && n > 0
    ensures TermLines(ls[1..], n - 1)
  {
    forall j | 0 <= j < n - 1
      ensures ls[1..][j].Term?
    {
      assert ls[1..][j] == ls[j + 1];
    }
  }

  /** A run of n term lines appends their triplets and changes nothing else. */
  lemma {:induction false} TermRun(p: Parsed, ls: seq<Line>, n: nat)
    requires Consistent(p) && Coordinates(ls) && TermLines(ls, n)
    ensures Coordinates(ls[n..])
    ensures ParseFrom(p, ls) == ParseFrom(p.(triplets := p.triplets + TripletsOf(ls[..n])), ls[n..])
    decreases n
  {
    if n == 0 {
      assert ls[..0] == [] && ls[0..] == ls;
      assert p.triplets + TripletsOf(ls[..0]) == p.triplets;
      assert p.(triplets := p.triplets) == p;
    } else {
      var x := ls[0].triplet;
      var q := p.(triplets := p.triplets + [x]);
      assert Apply(p, ls[0]) == Value(q);
      assert Coordinates(ls[1..]);
      TermLinesTail(ls, n);
      TermRun(q, ls[1..], n - 1);
      assert ls[1..][n - 1..] == ls[n..];
      var rest := TripletsOf(ls[1..][..n - 1]);
      assert ls[..n][1..] == ls[1..][..n - 1];
      assert TripletsOf(ls[..n]) == [x] + rest;
      assert (p.triplets + [x]) + rest == p.triplets + ([x] + rest);
    }
  }

  /** A run of n term lines holds n term lines. */
  lemma {:induction false} TermCountOfRun(ls: seq<Line>, n: nat)
    requires TermLines(ls, n)
    ensures TermLineCount(ls[..n]) == n
    decreases n
  {
    if n > 0 {
      TermLinesTail(ls, n);
      TermCountOfRun(ls[1..], n - 1);
      assert ls[..n][1..] == ls[1..][..n - 1];
    }
  }

  /** Appending a count to one coordinate raises Total by that count. */
  lemma AppendCount(p: Parsed, q: Parsed, c: nat, m: int)
    requires Consistent(p) && Consistent(q) && c < 3
    requires q.termsPerSeries[c] == p.termsPerSeries[c] + [m]
    requires forall d :: 0 <= d < 3 && d != c ==> q.termsPerSeries[d] == p.termsPerSeries[d]
    ensures Total(q) == Total(p) + m
  {
    var xs := p.termsPerSeries[c];
    assert (xs + [m])[..|xs|] == xs;
    SumPrefixOfPrefix(xs + [m], |xs|);
  }

  lemma {:induction false} SumPrefixOfPrefix(xs: seq<int>, s: nat)
    requires s <= |xs|
    ensures Vsop87.SumPrefix(xs, s) == Vsop87.SumPrefix(xs[..s], s)
    decreases s
  {
    if s > 0 {
      SumPrefixOfPrefix(xs, s - 1);
      SumPrefixOfPrefix(xs[..s], s - 1);
      assert xs[..s][..s - 1] == xs[..s - 1];
      assert xs[..s - 1][..s - 1] == xs[..s - 1];
    }
  }

  /** A header adds its count to Total, keeps the triplets and keeps the counts non-negative. */
  lemma HeaderBalance(p: Parsed, l: Line)
    requires Consistent(p) && NonNegative(p) && l.Header? && l.coord < 3 && l.count >= 0
    ensures var q := Apply(p, l).value;
      NonNegative(q) && Total(q) == Total(p) + l.count && q.triplets == p.triplets
  {
    var q := Apply(p, l).value;
    AppendCount(p, q, l.coord, l.count);
  }

  /**
   * A well-formed file always parses, keeps the balance between triplets and announced terms, and
   * keeps all counts non-negative.
   */
  lemma {:induction false} BlocksBalance(p: Parsed, ls: seq<Line>)
    requires Consistent(p) && NonNegative(p) && Coordinates(ls) && Blocks(ls)
    ensures ParseFrom(p, ls).Value?
    ensures var q := ParseFrom(p, ls).value;
      NonNegative(q) && |q.triplets| - Total(q) == |p.triplets| - Total(p)
    decreases |ls|
  {
    if |ls| > 0 {
      var n := ls[0].count;
      var q := Apply(p, ls[0]).value;
      HeaderBalance(p, ls[0]);
      assert Coordinates(ls[1..]);
      TermRun(q, ls[1..], n);
      var q2 := q.(triplets := q.triplets + TripletsOf(ls[1..][..n]));
      TripletsOfLength(ls[1..][..n]);
      TermCountOfRun(ls[1..], n);
      assert ls[1..][n..] == ls[1 + n..];
      BlocksBalance(q2, ls[1 + n..]);
    }
  }

  /** Counts that match the triplets make a table the evaluator reads within bounds. */
  lemma BalancedTable(q: Parsed, coefs: seq<real>)
    requires Consistent(q) && NonNegative(q) && |q.triplets| == Total(q) && |coefs| == 3 * |q.triplets|
    ensures Vsop87.WellFormed(Vsop87.Components(q.numSeries, q.termsPerSeries, coefs))
  {
    var v := Vsop87.Components(q.numSeries, q.termsPerSeries, coefs);
    assert Vsop87.Shaped(v);
    assert Vsop87.CoordStart(v, 1) == Vsop87.SumPrefix(q.termsPerSeries[0], |q.termsPerSeries[0]|);
    assert Vsop87.CoordStart(v, 2) == Vsop87.CoordStart(v, 1) + Vsop87.SumPrefix(q.termsPerSeries[1], |q.termsPerSeries[1]|);
    assert Vsop87.CoordStart(v, 3) == Total(q);
  }

  /**
   * The evaluator's precondition: the lines of a well-formed file (Lines of its text) parse into a
   * table with one triplet per announced term, so its 3 * |triplets| doubles are exactly what
   * vso_vsop87d_dyn_coordinates reads.
   */
  lemma WellFormedFileGivesTable(ls: seq<Line>, coefs: seq<real>)
    requires Coordinates(ls) && Blocks(ls)
    ensures ParseFrom(Start, ls).Value?
    ensures var q := ParseFrom(Start, ls).value;
      |coefs| == 3 * |q.triplets| ==> Vsop87.WellFormed(Vsop87.Components(q.numSeries, q.termsPerSeries, coefs))
  {
    BlocksBalance(Start, ls);
    var q := ParseFrom(Start, ls).value;
    if |coefs| == 3 * |q.triplets| {
      BalancedTable(q, coefs);
    }
  }

  // ---------------------------------------------------------------------
  // The text of one initializer
  // ---------------------------------------------------------------------

  /** "%d, " for each count, in order. */
  function CountsText(xs: seq<int>, n: nat): string
    requires n <= |xs|
  {
    if n == 0 then "" else CountsText(xs, n - 1) + IntToString(xs[n - 1]) + ", "
  }

  /** One "(int[]){ ... }," row per coordinate. */
  function TermsRows(tps: seq<seq<int>>, n: nat): string
    requires n <= |tps|
  {
    if n == 0 then "" else TermsRows(tps, n - 1) + "        (int[]){ " + CountsText(tps[n - 1], |tps[n - 1]|) + "},\n"
  }

  /**
   * One "{ %.11f, %.11f, %.11f }," row: float() runs on every token first (ValueError), then a
   * triplet of fewer than three tokens leaves the format string short of arguments (TypeError).
   */
  function CoefRow(coefs: seq<string>, fixed11: string -> Option<string>): (r: Py<string>)
    ensures r.Raised? <==> (exists i :: 0 <= i < |coefs| && fixed11(coefs[i]).None?) || |coefs| < 3
    ensures r.Raised? && (exists i :: 0 <= i < |coefs| && fixed11(coefs[i]).None?) ==> r.error == ValueError
  {
    if exists i :: 0 <= i < |coefs| && fixed11(coefs[i]).None? then Raised(ValueError)
    else if |coefs| < 3 then Raised(TypeError)
    else
      Value("        { " + fixed11(coefs[0]).value + ", " + fixed11(coefs[1]).value + ", "
        + fixed11(coefs[2]).value + " },\n")
  }

  /** The coefficient rows of the first n triplets; the first failing row ends the script. */
  function CoefRows(triplets: seq<seq<string>>, n: nat, fixed11: string -> Option<string>): (r: Py<string>)
    requires n <= |triplets|
    ensures r.Value? <==> forall j :: 0 <= j < n ==> CoefRow(triplets[j], fixed11).Value?
  {
    if n == 0 then Value("")
    else
      match CoefRows(triplets, n - 1, fixed11)
      case Raised(e) => Raised(e)
      case Value(s) =>
        match CoefRow(triplets[n - 1], fixed11)
        case Raised(e) => Raised(e)
        case Value(row) => Value(s + row)
  }

  function StructOpen(root: string, body: string): string
  {
    "struct vsop_planetary_components " + root + "_" + body + "_pc = {\n"
  }

  function NumSeriesLine(ns: seq<int>): string
    requires |ns| == 3
  {
    "    .num_series = { " + IntToString(ns[0]) + ", " + IntToString(ns[1]) + ", " + IntToString(ns[2]) + " },\n"
  }

  /** The initializer of one planet's table from the parsed state. */
  function IncludeText(root: string, body: string, p: Parsed, fixed11: string -> Option<string>): Py<string>
    requires Consistent(p)
  {
    match CoefRows(p.triplets, |p.triplets|, fixed11)
    case Raised(e) => Raised(e)
    case Value(rows) =>
      Value(StructOpen(root, body) + NumSeriesLine(p.numSeries) + "    .terms_per_series = {\n"
        + TermsRows(p.termsPerSeries, |p.termsPerSeries|) + "        },\n" + "    .coefs = *(double[][3]) {\n" + rows
        + "    }\n};\n\n")
  }

  /** str.upper() on ASCII letters. */
  function Upper(s: string): (u: string)
    ensures |u| == |s|
  {
    if |s| == 0 then "" else Upper(s[..|s| - 1]) + [if 'a' <= s[|s| - 1] <= 'z' then (s[|s| - 1] as int - 32) as char else s[|s| - 1]]
  }

  /** The raw file of a body: vsop_name_root.upper() + "." + body[0:3]. */
  function FileName(root: string, body: string): string
  {
    Upper(root) + "." + body[..if |body| < 3 then |body| else 3]
  }

  /** The path the script opens: the file name under raw/. */
  function RawFile(root: string, body: string): string
  {
    "raw/" + FileName(root, body)
  }

  /** get_vsop87_include as a function of the lines of the raw file. */
  function Include(root: string, body: string, lines: seq<string>, fixed11: string -> Option<string>): Py<string>
  {
    match ParseFrom(Start, Lines(lines))
    case Raised(e) => Raised(e)
    case Value(p) => IncludeText(root, body, p, fixed11)
  }

  /** One round of the loop: the split line v is a header, a term, or ends the script. */
  method ReadLine(p: Parsed, v: seq<string>) returns (r: Py<Parsed>)
    requires Consistent(p)
    ensures r == Apply(p, Classify(v))
  {
    var numSeries, termsPerSeries, triplets := p.numSeries, p.termsPerSeries, p.triplets;
    if |v| == 0 {
      return Raised(IndexError);
    }
    if v[0] == "VSOP87" {
      var coordToken := Token(v, 5);
      if coordToken.Raised? {
        return Raised(coordToken.error);
      }
      var n := ParseInt(coordToken.value);
      if n.Raised? {
        return Raised(n.error);
      }
      var coord := PyIndex(n.value - 1, 3);
      if coord.None? {
        return Raised(IndexError);
      }
      var c := coord.value;
      var countToken := Token(v, 8);
      if countToken.Raised? {
        return Raised(countToken.error);
      }
      var m := ParseInt(countToken.value);
      if m.Raised? {
        return Raised(m.error);
      }
      numSeries := numSeries[c := numSeries[c] + 1];
      termsPerSeries := termsPerSeries[c := termsPerSeries[c] + [m.value]];
    } else {
      triplets := triplets + [LastThree(v)];
    }
    return Value(Parsed(numSeries, termsPerSeries, triplets));
  }

  /** The loop of get_vsop87_include over the lines of the raw file. */
  method ParseLines(buf: seq<string>) returns (r: Py<Parsed>)
    ensures r == ParseFrom(Start, Lines(buf))
  {
    var numSeries := [0, 0, 0];
    var termsPerSeries: seq<seq<int>> := [[], [], []];
    var triplets: seq<seq<string>> := [];
    var i := 0;
    while i < |buf|
      invariant 0 <= i <= |buf|
      invariant Consistent(Parsed(numSeries, termsPerSeries, triplets))
      invariant ParseFrom(Start, Lines(buf)) == ParseFrom(Parsed(numSeries, termsPerSeries, triplets), Lines(buf[i..]))
    {
      var v := Split(buf[i]);
      assert buf[i..][0] == buf[i] && buf[i..][1..] == buf[i + 1..];
      assert Lines(buf[i..]) == [Classify(v)] + Lines(buf[i + 1..]);
      var next := ReadLine(Parsed(numSeries, termsPerSeries, triplets), v);
      if next.Raised? {
        return Raised(next.error);
      }
      numSeries, termsPerSeries, triplets := next.value.numSeries, next.value.termsPerSeries, next.value.triplets;
      i := i + 1;
    }
    assert buf[|buf|..] == [];
    return Value(Parsed(numSeries, termsPerSeries, triplets));
  }

  /** The "%d, " of each count. */
  method WriteCounts(xs: seq<int>) returns (row: string)
    ensures row == CountsText(xs, |xs|)
  {
    row := "";
    var j := 0;
    while j < |xs|
      invariant 0 <= j <= |xs|
      invariant row == CountsText(xs, j)
    {
      row := row + IntToString(xs[j]) + ", ";
      j := j + 1;
    }
  }

  /** The "(int[]){ %d, ... }," rows, one per coordinate. */
  method WriteTermsRows(tps: seq<seq<int>>) returns (s: string)
    ensures s == TermsRows(tps, |tps|)
  {
    s := "";
    var k := 0;
    while k < |tps|
      invariant 0 <= k <= |tps|
      invariant s == TermsRows(tps, k)
    {
      var row := WriteCounts(tps[k]);
      s := s + "        (int[]){ " + row + "},\n";
      k := k + 1;
    }
  }

  /** Once a row fails, the rows of any longer prefix fail with the same exception. */
  lemma {:induction false} CoefRowsStayRaised(triplets: seq<seq<string>>, n: nat, m: nat, fixed11: string -> Option<string>)
    requires n <= m <= |triplets| && CoefRows(triplets, n, fixed11).Raised?
    ensures CoefRows(triplets, m, fixed11) == CoefRows(triplets, n, fixed11)
    decreases m
  {
    if m > n {
      CoefRowsStayRaised(triplets, n, m - 1, fixed11);
    }
  }

  /** The coefficient rows, one per triplet, or the exception of the first row that fails. */
  method WriteCoefRows(triplets: seq<seq<string>>, fixed11: string -> Option<string>) returns (r: Py<string>)
    ensures r == CoefRows(triplets, |triplets|, fixed11)
  {
    var s := "";
    var t := 0;
    while t < |triplets|
      invariant 0 <= t <= |triplets|
      invariant CoefRows(triplets, t, fixed11) == Value(s)
    {
      var row := CoefRow(triplets[t], fixed11);
      if row.Raised? {
        CoefRowsStayRaised(triplets, t + 1, |triplets|, fixed11);
        return Raised(row.error);
      }
      s := s + row.value;
      t := t + 1;
    }
    return Value(s);
  }

  /** get_vsop87_include: the parsing loop, then the text, built piece by piece. */
  method GetVsop87Include(body: string, root: string, read: string -> seq<string>, fixed11: string -> Option<string>)
    returns (r: Py<string>)
    ensures r == Include(root, body, read(RawFile(root, body)), fixed11)
  {
    var parsed := ParseLines(read(RawFile(root, body)));
    if parsed.Raised? {
      return Raised(parsed.error);
    }
    var p := parsed.value;
    var s := StructOpen(root, body);
    s := s + NumSeriesLine(p.numSeries);
    s := s + "    .terms_per_series = {\n";
    var terms := WriteTermsRows(p.termsPerSeries);
    s := s + terms + "        },\n";
    s := s + "    .coefs = *(double[][3]) {\n";
    var rows := WriteCoefRows(p.triplets, fixed11);
    if rows.Raised? {
      return Raised(rows.error);
    }
    s := s + rows.value + "    }\n};\n\n";
    return Value(s);
  }

  // ---------------------------------------------------------------------
  // The planet array
  // ---------------------------------------------------------------------

  /** The bodys tuple. */
  const Bodys: seq<string> := ["mercury", "venus", "earth", "mars", "jupiter", "saturn", "uranus", "neptune"]

  /** The name of a planet_e enumerator in lower case. */
  function BodyName(p: Units.Planet): string
  {
    match p
    case Mercury => "mercury"
    case Venus => "venus"
    case Earth => "earth"
    case Mars => "mars"
    case Jupiter => "jupiter"
    case Saturn => "saturn"
    case Uranus => "uranus"
    case Neptune => "neptune"
  }

  /** The array entry i is the table of the planet numbered i by planet_e. */
  lemma BodysFollowPlanetOrder(p: Units.Planet)
    ensures Bodys[Units.PlanetIndex(p)] == BodyName(p)
  {
  }

  /** The first three letters of a body's name follow the root and its dot in the file name. */
  lemma FileNameSuffix(root: string, body: string)
    requires |body| >= 3
    ensures FileName(root, body)[|root| + 1..] == body[..3]
  {
  }

  /** The eight raw files have distinct names, so no two planets share a table. */
  lemma FileNamesDistinct(root: string, i: nat, j: nat)
    requires i < |Bodys| && j < |Bodys| && i != j
    ensures FileName(root, Bodys[i]) != FileName(root, Bodys[j])
  {
    var prefixes := ["mer", "ven", "ear", "mar", "jup", "sat", "ura", "nep"];
    forall k | 0 <= k < 8
      ensures |Bodys[k]| >= 3 && Bodys[k][..3] == prefixes[k]
    {
    }
    FileNameSuffix(root, Bodys[i]);
    FileNameSuffix(root, Bodys[j]);
  }

  /** The text before the tables: the include guard and the struct declaration. */
  const Prelude: string :=
    "#ifndef _VSOP87_H\n#define _VSOP87_H\nstruct vsop_planetary_components {\n    int num_series[3];\n"
    + "    int *terms_per_series[3];\n    double *coefs;\n};\n\n"

  /** get_vsop87_include(body, version) for each body, reading the files through read. */
  function IncludeOf(version: string, read: string -> seq<string>, fixed11: string -> Option<string>): string -> Py<string>
  {
    body => Include(version, body, read(RawFile(version, body)), fixed11)
  }

  /** The initializers of the first n bodies; the first exception ends the script. */
  function Tables(inc: string -> Py<string>, bodys: seq<string>, n: nat): Py<string>
    requires n <= |bodys|
  {
    if n == 0 then Value("")
    else
      match Tables(inc, bodys, n - 1)
      case Raised(e) => Raised(e)
      case Value(s) =>
        match inc(bodys[n - 1])
        case Raised(e) => Raised(e)
        case Value(text) => Value(s + text)
  }

  /** One "&<version>_<body>_pc," line per body of the first n. */
  function ArrayEntries(version: string, bodys: seq<string>, n: nat): string
    requires n <= |bodys|
  {
    if n == 0 then "" else ArrayEntries(version, bodys, n - 1) + "    &" + version + "_" + bodys[n - 1] + "_pc,\n"
  }

  /** The text after the tables for one version: the array of their addresses. */
  function ArrayText(version: string, bodys: seq<string>): string
  {
    "struct vsop_planetary_components *" + version + "_planetary_components[" + IntToString(|bodys|) + "] = {\n"
    + ArrayEntries(version, bodys, |bodys|)
  }

  /** The whole of vsop87.h, for the one version vsop87d the script generates. */
  function HeaderText(read: string -> seq<string>, fixed11: string -> Option<string>): Py<string>
  {
    match Tables(IncludeOf("vsop87d", read, fixed11), Bodys, |Bodys|)
    case Raised(e) => Raised(e)
    case Value(s) => Value(Prelude + s + ArrayText("vsop87d", Bodys) + "};\n\n#endif")
  }

  /** Once a body fails, every longer prefix fails with the same exception. */
  lemma {:induction false} TablesStayRaised(inc: string -> Py<string>, bodys: seq<string>, n: nat, m: nat)
    requires n <= m <= |bodys| && Tables(inc, bodys, n).Raised?
    ensures Tables(inc, bodys, m) == Tables(inc, bodys, n)
    decreases m
  {
    if m > n {
      TablesStayRaised(inc, bodys, n, m - 1);
    }
  }

  /**
   * The loop `for body in bodys` that appends each initializer; inc is get_vsop87_include for the
   * version, which GetVsop87Include computes.
   */
  method WriteTables(inc: string -> Py<string>, bodys: seq<string>) returns (r: Py<string>)
    ensures r == Tables(inc, bodys, |bodys|)
  {
    var s := "";
    var b := 0;
    while b < |bodys|
      invariant 0 <= b <= |bodys|
      invariant Tables(inc, bodys, b) == Value(s)
    {
      var next := inc(bodys[b]);
      if next.Raised? {
        TablesStayRaised(inc, bodys, b + 1, |bodys|);
        return Raised(next.error);
      }
      s := s + next.value;
      b := b + 1;
    }
    return Value(s);
  }

  /** The array declaration and the loop that lists the address of each table. */
  method WriteArray(version: string, bodys: seq<string>) returns (s: string)
    ensures s == ArrayText(version, bodys)
  {
    s := "struct vsop_planetary_components *" + version + "_planetary_components[" + IntToString(|bodys|) + "] = {\n";
    ghost var head := s;
    var b := 0;
    while b < |bodys|
      invariant 0 <= b <= |bodys|
      invariant s == head + ArrayEntries(version, bodys, b)
    {
      s := s + "    &" + version + "_" + bodys[b] + "_pc,\n";
      b := b + 1;
    }
  }

  /** The script's top level; the text it prints (followed by a newline) is the result. */
  method GenerateHeader(read: string -> seq<string>, fixed11: string -> Option<string>) returns (r: Py<string>)
    ensures r == HeaderText(read, fixed11)
  {
    var tables := WriteTables(IncludeOf("vsop87d", read, fixed11), Bodys);
    if tables.Raised? {
      return Raised(tables.error);
    }
    var arrayText := WriteArray("vsop87d", Bodys);
    return Value(Prelude + tables.value + arrayText + "};\n\n#endif");
  }
}
