/** When exactly the validator reports what, said of the program's lines and words and not of the validator's variables
  (tpt-vertex-slicer/src/gcode_validate.rs:17-43, :65-154). */
module GcodeReports {
  import opened Options
  import opened GcodeChecks

  /** A word with the number of its line, counted from 1. */
  datatype Numbered = Numbered(line: nat, token: Token)

  function Tagged(n: nat, line: Line): seq<Numbered> {
    seq(|line|, k requires 0 <= k < |line| => Numbered(n, line[k]))
  }

  /** All words of a program in order. */
  function Words(lines: seq<Line>): seq<Numbered> {
    if lines == [] then [] else Words(lines[..|lines| - 1]) + Tagged(|lines|, lines[|lines| - 1])
  }

  /** The last of the words M82 and M83, if there is one, is M83. */
  ghost predicate Relative(words: seq<Numbered>) {
    exists i :: 0 <= i < |words| && words[i].token == M(83) && forall j :: i < j < |words| ==> words[j].token != M(82)
  }

  /** Where the words leave the extrusion axis. */
  ghost function Filament(words: seq<Numbered>): real {
    if words == [] then 0.0
    else
      var before, last := words[..|words| - 1], words[|words| - 1].token;
      if !last.E? then Filament(before)
      else if Relative(before) then Filament(before) + last.value
      else last.value
  }

  ghost predicate Homed(words: seq<Numbered>) {
    exists i :: 0 <= i < |words| && words[i].token == G(28)
  }

  ghost predicate Extrudes(line: Line) {
    SaysG1(line) && HasE(line)
  }

  /** The word is a coordinate on an axis of the build volume. */
  predicate OnAxis(t: Token, axis: char, value: real, bounds: Volume, limit: real) {
    match t
    case X(v) => axis == 'X' && v == value && limit == bounds.x
    case Y(v) => axis == 'Y' && v == value && limit == bounds.y
    case Z(v) => axis == 'Z' && v == value && limit == bounds.z
    case _ => false
  }

  /** The word at an index gives reason for a report. */
  ghost predicate Warrants(words: seq<Numbered>, i: nat, bounds: Option<Volume>, issue: Issue)
    requires i < |words|
  {
    match issue
    case UnsupportedCommand(n, t) => words[i] == Numbered(n, t) && !Supported(t)
    case NegativeExtrusion(n, e) => words[i].line == n && words[i].token.E? && e == Filament(words[..i + 1]) && e < -SLACK
    case OutOfBounds(n, axis, value, limit) =>
      words[i].line == n && bounds.Some? && OnAxis(words[i].token, axis, value, bounds.value, limit) && value > limit + 0.000001
    case MissingHome => false
    case NoExtrusion => false
  }

  ghost predicate Warranted(words: seq<Numbered>, bounds: Option<Volume>, issue: Issue) {
    exists i :: 0 <= i < |words| && Warrants(words, i, bounds, issue)
  }

  /** Some line extrudes with no G28 in any line before it. */
  ghost predicate ExtrudesUnhomed(lines: seq<Line>) {
    exists n :: 0 <= n < |lines| && Extrudes(lines[n]) && !Homed(Words(lines[..n]))
  }

  /** The validator's variables and reports after some words. */
  ghost predicate Knows(c: Check, words: seq<Numbered>, bounds: Option<Volume>) {
    && c.absolute == !Relative(words) && c.e == Filament(words) && c.homed == Homed(words)
    && forall issue: Issue :: !issue.MissingHome? ==> (issue in c.issues <==> Warranted(words, bounds, issue))
  }

  lemma RelativeMore(words: seq<Numbered>, w: Numbered)
    ensures Relative(words + [w]) <==> w.token == M(83) || (Relative(words) && w.token != M(82))
  {
    var more := words + [w];
    if w.token == M(83) {
      assert more[|words|].token == M(83);
    }
    if Relative(words) && w.token != M(82) {
      var i :| 0 <= i < |words| && words[i].token == M(83) && forall j :: i < j < |words| ==> words[j].token != M(82);
      assert more[i].token == M(83);
    }
    if Relative(more) && w.token != M(83) {
      var i :| 0 <= i < |more| && more[i].token == M(83) && forall j :: i < j < |more| ==> more[j].token != M(82);
      assert words[i].token == M(83) && more[|words|] == w;
      assert forall j :: i < j < |words| ==> words[j] == more[j];
    }
  }

  lemma FilamentMore(words: seq<Numbered>, w: Numbered)
    ensures Filament(words + [w])
            == if !w.token.E? then Filament(words) else if Relative(words) then Filament(words) + w.token.value else w.token.value
  {
    assert (words + [w])[..|words|] == words;
  }

  lemma HomedMore(words: seq<Numbered>, w: Numbered)
    ensures Homed(words + [w]) <==> Homed(words) || w.token == G(28)
  {
    assert (words + [w])[|words|] == w;
    if Homed(words) {
      var i :| 0 <= i < |words| && words[i].token == G(28);
      assert (words + [w])[i].token == G(28);
    }
  }

  lemma WarrantsMore(words: seq<Numbered>, w: Numbered, bounds: Option<Volume>, issue: Issue)
    ensures Warranted(words + [w], bounds, issue)
            <==> Warranted(words, bounds, issue) || Warrants(words + [w], |words|, bounds, issue)
  {
    hide Filament, Supported, OnAxis;
    var more := words + [w];
    assert forall i | 0 <= i < |words| :: more[i] == words[i] && more[..i + 1] == words[..i + 1];
    if Warranted(words, bounds, issue) {
      var i :| 0 <= i < |words| && Warrants(words, i, bounds, issue);
      assert Warrants(more, i, bounds, issue);
    }
    if Warranted(more, bounds, issue) && !Warrants(more, |words|, bounds, issue) {
      var i :| 0 <= i < |more| && Warrants(more, i, bounds, issue);
      assert Warrants(words, i, bounds, issue);
    }
  }

  lemma CommandReports(c: Check, n: nat, t: Token, issue: Issue)
    ensures issue in CommandChecked(c, n, t).issues <==> issue in c.issues || (issue == UnsupportedCommand(n, t) && !Supported(t))
    ensures CommandChecked(c, n, t) == Check(CommandChecked(c, n, t).issues, c.e, t == M(82) || (c.absolute && t != M(83)),
                                             c.homed || t == G(28), c.reportedHome, c.sawExtrusion)
  {
    hide Supported;
  }

  lemma CoordinateReports(c: Check, n: nat, axis: char, value: real, limit: Option<real>, issue: Issue)
    ensures issue in CoordinateChecked(c, n, axis, value, limit).issues
            <==> || issue in c.issues
                 || (limit.Some? && value > limit.value + 0.000001 && issue == OutOfBounds(n, axis, value, limit.value))
    ensures CoordinateChecked(c, n, axis, value, limit) == c.(issues := CoordinateChecked(c, n, axis, value, limit).issues)
  {
  }

  lemma ExtrusionReports(c: Check, n: nat, value: real, issue: Issue)
    ensures var e := if c.absolute then value else c.e + value;
            issue in ExtrusionChecked(c, n, value).issues
            <==> issue in c.issues || (issue == NegativeExtrusion(n, e) && e < -SLACK)
    ensures var e := if c.absolute then value else c.e + value;
            ExtrusionChecked(c, n, value) == c.(issues := ExtrusionChecked(c, n, value).issues, e := e)
  {
  }

  lemma OnlyCommandsUnsupported(t: Token)
    ensures !t.G? && !t.M? ==> Supported(t)
  {
  }

  /** The issues a single word adds. */
  lemma WordReports(c: Check, n: nat, t: Token, bounds: Option<Volume>, words: seq<Numbered>, issue: Issue)
    requires c.absolute == !Relative(words) && c.e == Filament(words)
    requires !issue.MissingHome?
    ensures issue in TokenChecked(c, n, t, bounds).issues
            <==> issue in c.issues || Warrants(words + [Numbered(n, t)], |words|, bounds, issue)
  {
    hide Filament, Relative, Supported, CommandChecked, CoordinateChecked, ExtrusionChecked;
    var more := words + [Numbered(n, t)];
    FilamentMore(words, Numbered(n, t));
    OnlyCommandsUnsupported(t);
    assert more[|words|] == Numbered(n, t) && more[..|words| + 1] == more;
    match t
    case G(_) => CommandReports(c, n, t, issue);
    case M(_) => CommandReports(c, n, t, issue);
    case E(v) => ExtrusionReports(c, n, v, issue);
    case X(v) => CoordinateReports(c, n, 'X', v, if bounds.Some? then Some(bounds.value.x) else None, issue);
    case Y(v) => CoordinateReports(c, n, 'Y', v, if bounds.Some? then Some(bounds.value.y) else None, issue);
    case Z(v) => CoordinateReports(c, n, 'Z', v, if bounds.Some? then Some(bounds.value.z) else None, issue);
    case Word(_, _) =>
  }

  /** What a single word changes besides. */
  lemma WordChanges(c: Check, n: nat, t: Token, bounds: Option<Volume>)
    ensures var d := TokenChecked(c, n, t, bounds);
            && d.absolute == (t == M(82) || (c.absolute && t != M(83)))
            && d.homed == (c.homed || t == G(28))
            && d.e == (if !t.E? then c.e else if c.absolute then t.value else c.e + t.value)
            && d.sawExtrusion == c.sawExtrusion && d.reportedHome == c.reportedHome
            && (MissingHome in d.issues <==> MissingHome in c.issues)
  {
    hide CommandChecked, CoordinateChecked, ExtrusionChecked;
    match t
    case G(_) => CommandReports(c, n, t, MissingHome);
    case M(_) => CommandReports(c, n, t, MissingHome);
    case E(v) => ExtrusionReports(c, n, v, MissingHome);
    case X(v) => CoordinateReports(c, n, 'X', v, if bounds.Some? then Some(bounds.value.x) else None, MissingHome);
    case Y(v) => CoordinateReports(c, n, 'Y', v, if bounds.Some? then Some(bounds.value.y) else None, MissingHome);
    case Z(v) => CoordinateReports(c, n, 'Z', v, if bounds.Some? then Some(bounds.value.z) else None, MissingHome);
    case Word(_, _) =>
  }

  lemma WordKnown(c: Check, n: nat, t: Token, bounds: Option<Volume>, words: seq<Numbered>)
    requires Knows(c, words, bounds)
    ensures Knows(TokenChecked(c, n, t, bounds), words + [Numbered(n, t)], bounds)
    ensures MissingHome in TokenChecked(c, n, t, bounds).issues <==> MissingHome in c.issues
    ensures TokenChecked(c, n, t, bounds).sawExtrusion == c.sawExtrusion && TokenChecked(c, n, t, bounds).reportedHome == c.reportedHome
  {
    hide Relative, Filament, Homed, Warranted, Warrants, TokenChecked;
    var w := Numbered(n, t);
    RelativeMore(words, w);
    FilamentMore(words, w);
    HomedMore(words, w);
    WordChanges(c, n, t, bounds);
    var d := TokenChecked(c, n, t, bounds);
    forall issue: Issue | !issue.MissingHome?
      ensures issue in d.issues <==> Warranted(words + [w], bounds, issue)
    {
      WordReports(c, n, t, bounds, words, issue);
      WarrantsMore(words, w, bounds, issue);
    }
  }

  lemma {:induction false} WordsKnown(c: Check, n: nat, line: Line, bounds: Option<Volume>, words: seq<Numbered>)
    requires Knows(c, words, bounds)
    ensures var d := TokensChecked(c, n, line, bounds);
            && Knows(d, words + Tagged(n, line), bounds) && (MissingHome in d.issues <==> MissingHome in c.issues)
            && d.sawExtrusion == c.sawExtrusion && d.reportedHome == c.reportedHome
  {
    hide Knows, TokenChecked;
    if line == [] {
      assert words + Tagged(n, line) == words;
    } else {
      var rest, t := line[..|line| - 1], line[|line| - 1];
      WordsKnown(c, n, rest, bounds, words);
      WordKnown(TokensChecked(c, n, rest, bounds), n, t, bounds, words + Tagged(n, rest));
      assert words + Tagged(n, line) == words + Tagged(n, rest) + [Numbered(n, t)];
    }
  }

  /** What the validator knows after some lines. */
  ghost predicate KnowsLines(c: Check, lines: seq<Line>, bounds: Option<Volume>) {
    && Knows(c, Words(lines), bounds)
    && (MissingHome in c.issues <==> ExtrudesUnhomed(lines)) && c.reportedHome == (MissingHome in c.issues)
    && (c.sawExtrusion <==> exists n :: 0 <= n < |lines| && Extrudes(lines[n]))
  }

  lemma ExtrudesMore(lines: seq<Line>)
    requires lines != []
    ensures var rest, line := lines[..|lines| - 1], lines[|lines| - 1];
            && (ExtrudesUnhomed(lines) <==> ExtrudesUnhomed(rest) || (Extrudes(line) && !Homed(Words(rest))))
            && ((exists n :: 0 <= n < |lines| && Extrudes(lines[n])) <==> (exists n :: 0 <= n < |rest| && Extrudes(rest[n])) || Extrudes(line))
  {
    hide Homed, Words, Extrudes;
    var rest, line := lines[..|lines| - 1], lines[|lines| - 1];
    assert forall n | 0 <= n < |rest| :: rest[n] == lines[n] && rest[..n] == lines[..n];
    if ExtrudesUnhomed(rest) {
      var n :| 0 <= n < |rest| && Extrudes(rest[n]) && !Homed(Words(rest[..n]));
      assert Extrudes(lines[n]) && !Homed(Words(lines[..n]));
    }
    if exists n :: 0 <= n < |rest| && Extrudes(rest[n]) {
      var n :| 0 <= n < |rest| && Extrudes(rest[n]);
      assert Extrudes(lines[n]);
    }
    if (exists n :: 0 <= n < |lines| && Extrudes(lines[n])) && !Extrudes(line) {
      var n :| 0 <= n < |lines| && Extrudes(lines[n]);
      assert Extrudes(rest[n]);
    }
  }

  lemma {:induction false} LinesKnown(lines: seq<Line>, bounds: Option<Volume>)
    ensures KnowsLines(LinesChecked(lines, bounds), lines, bounds)
  {
    if lines != [] {
      var rest, line := lines[..|lines| - 1], lines[|lines| - 1];
      var c := LinesChecked(rest, bounds);
      LinesKnown(rest, bounds);
      ExtrudesMore(lines);
      if line == [] {
        assert Tagged(|lines|, line) == [] && Words(rest) + [] == Words(rest);
        assert !Extrudes(line);
      } else {
        var c1 := MoveNoted(c, line);
        hide Relative, Filament, Homed, Warranted, ExtrudesUnhomed, Words, TokensChecked, HasE, SaysG1;
        assert Knows(c1, Words(rest), bounds);
        WordsKnown(c1, |lines|, line, bounds, Words(rest));
        hide Knows;
      }
    }
  }

  /** What is reported, of any program: a word is reported exactly when it is a command outside the supported ones, a
    coordinate beyond its axis of the build volume, or leaves the extrusion axis below zero; a missing home exactly when a
    line extrudes with no G28 in any line before it; and no extrusion exactly when no line extrudes. */
  lemma ReportedIff(lines: seq<Line>, bounds: Option<Volume>, issue: Issue)
    ensures issue in Verdict(LinesChecked(lines, bounds))
            <==> match issue
                 case MissingHome => ExtrudesUnhomed(lines)
                 case NoExtrusion => forall n | 0 <= n < |lines| :: !Extrudes(lines[n])
                 case _ => Warranted(Words(lines), bounds, issue)
  {
    LinesKnown(lines, bounds);
    hide LinesChecked, Words, Extrudes, ExtrudesUnhomed;
    if issue == NoExtrusion {
      assert !Warranted(Words(lines), bounds, issue);
    }
  }

  /** The words are those of the lines, in order. */
  lemma {:induction false} WordIsOfLine(lines: seq<Line>, w: Numbered)
    ensures w in Words(lines) <==> 1 <= w.line <= |lines| && w.token in lines[w.line - 1]
  {
    if lines != [] {
      var rest, line := lines[..|lines| - 1], lines[|lines| - 1];
      WordIsOfLine(rest, w);
      var tagged := Tagged(|lines|, line);
      if w.line == |lines| && w.token in line {
        var k :| 0 <= k < |line| && line[k] == w.token;
        assert tagged[k] == w;
      }
    }
  }

  /** A coordinate is reported exactly when its line has a word on that axis beyond the limit of the build volume. */
  lemma OutOfBoundsIff(lines: seq<Line>, bounds: Option<Volume>, n: nat, axis: char, value: real, limit: real)
    ensures OutOfBounds(n, axis, value, limit) in Verdict(LinesChecked(lines, bounds))
            <==> && 1 <= n <= |lines| && bounds.Some? && value > limit + 0.000001
                 && exists t :: t in lines[n - 1] && OnAxis(t, axis, value, bounds.value, limit)
  {
    var issue := OutOfBounds(n, axis, value, limit);
    ReportedIff(lines, bounds, issue);
    hide LinesChecked, Words, OnAxis;
    var words := Words(lines);
    if Warranted(words, bounds, issue) {
      var i :| 0 <= i < |words| && Warrants(words, i, bounds, issue);
      WordIsOfLine(lines, words[i]);
      assert words[i].token in lines[n - 1];
    }
    if 1 <= n <= |lines| && bounds.Some? && value > limit + 0.000001
       && exists t :: t in lines[n - 1] && OnAxis(t, axis, value, bounds.value, limit) {
      var t :| t in lines[n - 1] && OnAxis(t, axis, value, bounds.value, limit);
      WordIsOfLine(lines, Numbered(n, t));
      var i :| 0 <= i < |words| && words[i] == Numbered(n, t);
      assert Warrants(words, i, bounds, issue);
    }
  }
}
