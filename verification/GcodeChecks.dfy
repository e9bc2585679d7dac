/** G-code programs as token lists, and the static validator
  (tpt-vertex-slicer/src/gcode_validate.rs). */
module GcodeChecks {
  import opened Options

  /** A whitespace-separated word. `Word` is any other letter with its number (F, S, T). */
  datatype Token = G(code: nat) | M(code: nat) | E(value: real) | X(value: real) | Y(value: real) | Z(value: real)
                 | Word(letter: char, value: real)

  /** A line without its comment; a line holding only a comment is empty. */
  type Line = seq<Token>

  datatype Issue =
    | UnsupportedCommand(line: nat, token: Token)
    | NegativeExtrusion(line: nat, e: real)
    | OutOfBounds(line: nat, axis: char, value: real, limit: real)
    | MissingHome
    | NoExtrusion

  datatype Volume = Volume(x: real, y: real, z: real)

  predicate Supported(t: Token) {
    match t
    case G(n) => n in {0, 1, 21, 28, 90, 91}
    case M(n) => n in {82, 83, 84, 104, 106, 107, 109, 140, 190}
    case _ => true
  }

  /** The decimal form of the number starts with a 1. */
  predicate LeadingOne(n: nat) {
    n == 1 || (n >= 10 && LeadingOne(n / 10))
  }

  predicate HasE(line: Line) {
    exists k :: 0 <= k < |line| && line[k].E?
  }

  /** The line starts with the text `G1` or has the word `G1` between two others. */
  predicate SaysG1(line: Line) {
    && line != []
    && ((line[0].G? && LeadingOne(line[0].code)) || exists k :: 0 < k < |line| - 1 && line[k] == G(1))
  }

  /** The validator's variables. */
  datatype Check = Check(issues: seq<Issue>, e: real, absolute: bool, homed: bool, reportedHome: bool, sawExtrusion: bool)
  {
    function Report(issue: Issue): Check {
      this.(issues := issues + [issue])
    }
  }

  const FRESH := Check([], 0.0, true, false, false, false)
  const SLACK: real := 0.000000001

  function CoordinateChecked(c: Check, n: nat, axis: char, value: real, limit: Option<real>): Check {
    if limit.Some? && value > limit.value + 0.000001 then c.Report(OutOfBounds(n, axis, value, limit.value)) else c
  }

  function CommandChecked(c: Check, n: nat, t: Token): Check {
    var c1 := if Supported(t) then c else c.Report(UnsupportedCommand(n, t));
    if t == G(28) then c1.(homed := true)
    else if t == M(82) then c1.(absolute := true)
    else if t == M(83) then c1.(absolute := false)
    else c1
  }

  /** In absolute mode a negative value is reported twice. */
  function ExtrusionChecked(c: Check, n: nat, value: real): Check {
    var c1 := if c.absolute && value < -SLACK then c.Report(NegativeExtrusion(n, value)) else c;
    var c2 := c1.(e := if c.absolute then value else c.e + value);
    if c2.e < -SLACK then c2.Report(NegativeExtrusion(n, c2.e)) else c2
  }

  function TokenChecked(c: Check, n: nat, t: Token, bounds: Option<Volume>): Check {
    match t
    case G(_) => CommandChecked(c, n, t)
    case M(_) => CommandChecked(c, n, t)
    case E(v) => ExtrusionChecked(c, n, v)
    case X(v) => CoordinateChecked(c, n, 'X', v, if bounds.Some? then Some(bounds.value.x) else None)
    case Y(v) => CoordinateChecked(c, n, 'Y', v, if bounds.Some? then Some(bounds.value.y) else None)
    case Z(v) => CoordinateChecked(c, n, 'Z', v, if bounds.Some? then Some(bounds.value.z) else None)
    case Word(_, _) => c
  }

  function TokensChecked(c: Check, n: nat, line: Line, bounds: Option<Volume>): Check
    decreases |line|
  {
    if line == [] then c
    else TokenChecked(TokensChecked(c, n, line[..|line| - 1], bounds), n, line[|line| - 1], bounds)
  }

  /** Extruding before homing is reported once. */
  function MoveNoted(c: Check, line: Line): Check {
    if !(SaysG1(line) && HasE(line)) then c
    else
      var c1 := c.(sawExtrusion := true);
      if c.homed || c.reportedHome then c1 else c1.Report(MissingHome).(reportedHome := true)
  }

  function LinesChecked(lines: seq<Line>, bounds: Option<Volume>): Check {
    if lines == [] then FRESH
    else
      var line := lines[|lines| - 1];
      var c := LinesChecked(lines[..|lines| - 1], bounds);
      if line == [] then c else TokensChecked(MoveNoted(c, line), |lines|, line, bounds)
  }

  function Verdict(c: Check): seq<Issue> {
    c.issues + if c.sawExtrusion then [] else [NoExtrusion]
  }

  method CheckTokens(c: Check, n: nat, line: Line, bounds: Option<Volume>) returns (d: Check)
    ensures d == TokensChecked(c, n, line, bounds)
  {
    hide TokenChecked;
    d := c;
    var k := 0;
    while k < |line|
      invariant 0 <= k <= |line| && d == TokensChecked(c, n, line[..k], bounds)
    {
      assert line[..k + 1][..k] == line[..k];
      d := TokenChecked(d, n, line[k], bounds);
      k := k + 1;
    }
    assert line[..k] == line;
  }

  method ValidateGcode(lines: seq<Line>, bounds: Option<Volume>) returns (issues: seq<Issue>)
    ensures issues == Verdict(LinesChecked(lines, bounds))
  {
    hide MoveNoted, TokensChecked;
    var c := FRESH;
    var i := 0;
    while i < |lines|
      invariant 0 <= i <= |lines| && c == LinesChecked(lines[..i], bounds)
    {
      assert lines[..i + 1][..i] == lines[..i];
      if lines[i] != [] {
        c := CheckTokens(MoveNoted(c, lines[i]), i + 1, lines[i], bounds);
      }
      i := i + 1;
    }
    assert lines[..i] == lines;
    issues := Verdict(c);
  }

  // ----- What an empty verdict means for programs of the slicer's shape

  /** The extrusion values of a line and of a program, in order. */
  function Es(line: Line): seq<real> {
    if line == [] then []
    else Es(line[..|line| - 1]) + if line[|line| - 1].E? then [line[|line| - 1].value] else []
  }

  function EsOf(lines: seq<Line>): seq<real> {
    if lines == [] then [] else EsOf(lines[..|lines| - 1]) + Es(lines[|lines| - 1])
  }

  ghost predicate Fine(es: seq<real>) {
    forall i | 0 <= i < |es| :: es[i] >= -SLACK
  }

  /** Supported commands only, never leaving absolute extrusion, and extrusion only in G1 lines. */
  ghost predicate BodyLine(line: Line) {
    && (forall k | 0 <= k < |line| :: Supported(line[k]) && line[k] != M(83))
    && (HasE(line) ==> line[0] == G(1))
  }

  ghost predicate Body(lines: seq<Line>) {
    forall i | 0 <= i < |lines| :: BodyLine(lines[i])
  }

  /** Homed, absolute, nothing reported. */
  ghost predicate Clean(c: Check) {
    c.homed && c.absolute && c.issues == []
  }

  /** Once homed and absolute, a body line is reported on exactly when it has a negative extrusion value. */
  lemma {:induction false} BodyTokens(c: Check, n: nat, line: Line)
    requires c.homed && c.absolute && forall k | 0 <= k < |line| :: Supported(line[k]) && line[k] != M(83)
    ensures var d := TokensChecked(c, n, line, None);
            && d.homed && d.absolute && d.sawExtrusion == c.sawExtrusion
            && (Clean(d) <==> Clean(c) && Fine(Es(line)))
  {
    if line != [] {
      BodyTokens(c, n, line[..|line| - 1]);
      OneToken(TokensChecked(c, n, line[..|line| - 1], None), n, line[|line| - 1]);
      var t := line[|line| - 1];
      FineMore(Es(line[..|line| - 1]), if t.E? then [t.value] else []);
      assert t.E? ==> [t.value][0] == t.value;
    }
  }

  lemma OneToken(c: Check, n: nat, t: Token)
    requires c.homed && c.absolute && Supported(t) && t != M(83)
    ensures var d := TokenChecked(c, n, t, None);
            && d.homed && d.absolute && d.sawExtrusion == c.sawExtrusion
            && (Clean(d) <==> Clean(c) && (t.E? ==> t.value >= -SLACK))
  {
  }

  lemma FineMore(x: seq<real>, y: seq<real>)
    ensures Fine(x + y) <==> Fine(x) && Fine(y)
  {
    if Fine(x + y) {
      assert forall i | 0 <= i < |x| :: (x + y)[i] == x[i];
      assert forall i | 0 <= i < |y| :: (x + y)[|x| + i] == y[i];
    }
  }

  lemma {:induction false} EsIffHasE(line: Line)
    ensures Es(line) != [] <==> HasE(line)
  {
    if line != [] {
      var rest := line[..|line| - 1];
      EsIffHasE(rest);
      if HasE(rest) {
        var k :| 0 <= k < |rest| && rest[k].E?;
        assert line[k].E?;
      }
      if HasE(line) && !line[|line| - 1].E? {
        var k :| 0 <= k < |line| && line[k].E?;
        assert rest[k].E?;
      }
    }
  }

  lemma {:induction false} EsConcat(x: seq<Line>, y: seq<Line>)
    ensures EsOf(x + y) == EsOf(x) + EsOf(y)
  {
    hide Es;
    if y == [] {
      assert x + y == x;
    } else {
      EsConcat(x, y[..|y| - 1]);
      assert (x + y)[..|x + y| - 1] == x + y[..|y| - 1];
    }
  }

  /** A program whose header has homed and set absolute extrusion before any extrusion passes the validator exactly when
    its body extrudes at all and never to a negative value. */
  lemma {:induction false} BodyChecked(header: seq<Line>, body: seq<Line>)
    requires Clean(LinesChecked(header, None)) && !LinesChecked(header, None).sawExtrusion && Body(body)
    ensures var c := LinesChecked(header + body, None);
            && c.homed && c.absolute && (c.sawExtrusion <==> EsOf(body) != [])
            && (Clean(c) <==> Fine(EsOf(body)))
  {
    if body == [] {
      assert header + body == header;
    } else {
      var rest, line := body[..|body| - 1], body[|body| - 1];
      BodyChecked(header, rest);
      assert BodyLine(line);
      assert (header + body)[..|header + body| - 1] == header + rest;
      hide LinesChecked, EsOf, Fine;
      FineMore(EsOf(rest), Es(line));
      LineOfBody(header, body);
    }
  }

  lemma LineOfBody(header: seq<Line>, body: seq<Line>)
    requires body != [] && BodyLine(body[|body| - 1])
    requires var c := LinesChecked(header + body[..|body| - 1], None); c.homed && c.absolute
    ensures var c, d := LinesChecked(header + body[..|body| - 1], None), LinesChecked(header + body, None);
            && d.homed && d.absolute && (d.sawExtrusion <==> c.sawExtrusion || Es(body[|body| - 1]) != [])
            && (Clean(d) <==> Clean(c) && Fine(Es(body[|body| - 1])))
    ensures EsOf(body) == EsOf(body[..|body| - 1]) + Es(body[|body| - 1])
  {
    var rest, line := body[..|body| - 1], body[|body| - 1];
    assert (header + body)[..|header + body| - 1] == header + rest;
    var c := LinesChecked(header + rest, None);
    EsIffHasE(line);
    if line != [] {
      assert LinesChecked(header + body, None) == TokensChecked(MoveNoted(c, line), |header + body|, line, None);
      hide LinesChecked, TokensChecked, Es, Fine, HasE;
      BodyTokens(MoveNoted(c, line), |header + body|, line);
    }
  }

  lemma PassesIff(header: seq<Line>, body: seq<Line>)
    requires Clean(LinesChecked(header, None)) && !LinesChecked(header, None).sawExtrusion && Body(body)
    ensures Verdict(LinesChecked(header + body, None)) == [] <==> EsOf(body) != [] && Fine(EsOf(body))
  {
    BodyChecked(header, body);
  }
}
