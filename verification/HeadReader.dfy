/** A reader of G-code programs that follows the print head: where each line moves it, how much is extruded, how fast, with
  which tool and fan. It knows nothing of the emitter. */
module HeadReader {
  import opened Options
  import opened Planar
  import opened GcodeChecks

  /** One line that moves the head in the plane. */
  datatype Motion = Motion(rapid: bool, from: Option<P2>, to: P2, z: Option<real>, e: Option<real>, feed: Option<real>,
                           tool: real, fan: Option<real>)

  datatype Head = Head(at: Option<P2>, z: Option<real>, tool: real, fan: Option<real>, motions: seq<Motion>)

  const PARKED := Head(None, None, 0.0, None, [])

  function Read(t: Token, letter: char): Option<real> {
    match t
    case X(v) => if letter == 'X' then Some(v) else None
    case Y(v) => if letter == 'Y' then Some(v) else None
    case Z(v) => if letter == 'Z' then Some(v) else None
    case E(v) => if letter == 'E' then Some(v) else None
    case Word(l, v) => if letter == l then Some(v) else None
    case _ => None
  }

  function Later(a: Option<real>, b: Option<real>): Option<real> {
    if b.Some? then b else a
  }

  /** The value of a letter in a line, the last one if it occurs repeatedly. */
  function WordOf(line: Line, letter: char): Option<real> {
    if line == [] then None else Later(WordOf(line[..|line| - 1], letter), Read(line[|line| - 1], letter))
  }

  /** A coordinate that is not mentioned stays. */
  function MovedTo(at: Option<P2>, x: Option<real>, y: Option<real>): Option<P2> {
    if x.Some? && y.Some? then Some(P2(x.value, y.value))
    else if at.None? then None
    else Some(P2(if x.Some? then x.value else at.value.x, if y.Some? then y.value else at.value.y))
  }

  function AfterLine(h: Head, line: Line): Head {
    var x, y, t := WordOf(line, 'X'), WordOf(line, 'Y'), WordOf(line, 'T');
    var to, z := MovedTo(h.at, x, y), Later(h.z, WordOf(line, 'Z'));
    var tool := if t.Some? then t.value else h.tool;
    var fan := if M(107) in line then Some(0.0) else if M(106) in line then WordOf(line, 'S') else h.fan;
    var moves := (x.Some? || y.Some?) && to.Some?;
    Head(to, z, tool, fan,
         if moves then h.motions + [Motion(G(0) in line, h.at, to.value, z, WordOf(line, 'E'), WordOf(line, 'F'), tool, fan)]
         else h.motions)
  }

  function HeadAfter(lines: seq<Line>): Head {
    if lines == [] then PARKED else AfterLine(HeadAfter(lines[..|lines| - 1]), lines[|lines| - 1])
  }

  /** The motions of a program, in order. */
  function Motions(lines: seq<Line>): seq<Motion> {
    HeadAfter(lines).motions
  }

  lemma HeadAfterMore(lines: seq<Line>, line: Line)
    ensures HeadAfter(lines + [line]) == AfterLine(HeadAfter(lines), line)
  {
    assert (lines + [line])[..|lines|] == lines;
  }

  lemma WordOfMore(line: Line, t: Token, letter: char)
    ensures WordOf(line + [t], letter) == Later(WordOf(line, letter), Read(t, letter))
  {
    assert (line + [t])[..|line|] == line;
  }

  // ----- Short lines

  lemma OneWord(a: Token, letter: char)
    ensures WordOf([a], letter) == Read(a, letter)
  {
    assert [a] == [] + [a];
    WordOfMore([], a, letter);
  }

  lemma TwoWords(a: Token, b: Token, letter: char)
    ensures WordOf([a, b], letter) == Later(Read(a, letter), Read(b, letter))
  {
    OneWord(a, letter);
    assert [a, b] == [a] + [b];
    WordOfMore([a], b, letter);
  }

  lemma ThreeWords(a: Token, b: Token, c: Token, letter: char)
    ensures WordOf([a, b, c], letter) == Later(Later(Read(a, letter), Read(b, letter)), Read(c, letter))
  {
    TwoWords(a, b, letter);
    assert [a, b, c] == [a, b] + [c];
    WordOfMore([a, b], c, letter);
  }

  lemma FourWords(a: Token, b: Token, c: Token, d: Token, letter: char)
    ensures WordOf([a, b, c, d], letter)
            == Later(Later(Later(Read(a, letter), Read(b, letter)), Read(c, letter)), Read(d, letter))
  {
    ThreeWords(a, b, c, letter);
    assert [a, b, c, d] == [a, b, c] + [d];
    WordOfMore([a, b, c], d, letter);
  }

  lemma FiveWords(a: Token, b: Token, c: Token, d: Token, e: Token, letter: char)
    ensures WordOf([a, b, c, d, e], letter)
            == Later(Later(Later(Later(Read(a, letter), Read(b, letter)), Read(c, letter)), Read(d, letter)), Read(e, letter))
  {
    FourWords(a, b, c, d, letter);
    assert [a, b, c, d, e] == [a, b, c, d] + [e];
    WordOfMore([a, b, c, d], e, letter);
  }

  // ----- What the emitter's kinds of lines do

  lemma EmptyLine(h: Head)
    ensures AfterLine(h, []) == h
  {
  }

  /** A move in the plane without extrusion. */
  lemma PlaneMove(h: Head, code: nat, x: real, y: real, f: real)
    ensures AfterLine(h, [G(code), X(x), Y(y), Word('F', f)])
            == h.(at := Some(P2(x, y)),
                  motions := h.motions + [Motion(code == 0, h.at, P2(x, y), h.z, None, Some(f), h.tool, h.fan)])
  {
    forall letter
      ensures WordOf([G(code), X(x), Y(y), Word('F', f)], letter)
              == if letter == 'X' then Some(x) else if letter == 'Y' then Some(y) else if letter == 'F' then Some(f) else None
    {
      FourWords(G(code), X(x), Y(y), Word('F', f), letter);
    }
    hide WordOf;
  }

  /** An extruding move in the plane. */
  lemma DrawMove(h: Head, x: real, y: real, e: real, f: real)
    ensures AfterLine(h, [G(1), X(x), Y(y), E(e), Word('F', f)])
            == h.(at := Some(P2(x, y)),
                  motions := h.motions + [Motion(false, h.at, P2(x, y), h.z, Some(e), Some(f), h.tool, h.fan)])
  {
    forall letter
      ensures WordOf([G(1), X(x), Y(y), E(e), Word('F', f)], letter)
              == if letter == 'X' then Some(x) else if letter == 'Y' then Some(y) else if letter == 'E' then Some(e)
                 else if letter == 'F' then Some(f) else None
    {
      FiveWords(G(1), X(x), Y(y), E(e), Word('F', f), letter);
    }
    hide WordOf;
  }

  /** A move up or down. */
  lemma HeightMove(h: Head, z: real, f: real)
    ensures AfterLine(h, [G(1), Z(z), Word('F', f)]) == h.(z := Some(z))
  {
    forall letter
      ensures WordOf([G(1), Z(z), Word('F', f)], letter) == if letter == 'Z' then Some(z) else if letter == 'F' then Some(f) else None
    {
      ThreeWords(G(1), Z(z), Word('F', f), letter);
    }
    hide WordOf;
  }

  /** Feeding filament without moving. */
  lemma FeedMove(h: Head, e: real, f: real)
    ensures AfterLine(h, [G(1), E(e), Word('F', f)]) == h
  {
    forall letter
      ensures WordOf([G(1), E(e), Word('F', f)], letter) == if letter == 'E' then Some(e) else if letter == 'F' then Some(f) else None
    {
      ThreeWords(G(1), E(e), Word('F', f), letter);
    }
    hide WordOf;
  }

  lemma ToolLine(h: Head, tool: real)
    ensures AfterLine(h, [Word('T', tool)]) == h.(tool := tool)
  {
    forall letter
      ensures WordOf([Word('T', tool)], letter) == if letter == 'T' then Some(tool) else None
    {
      OneWord(Word('T', tool), letter);
    }
    hide WordOf;
  }

  /** A machine code, perhaps with an S word: only the fan codes matter. */
  lemma MachineLine(h: Head, code: nat, s: real)
    ensures AfterLine(h, [M(code), Word('S', s)])
            == if code == 107 then h.(fan := Some(0.0)) else if code == 106 then h.(fan := Some(s)) else h
    ensures AfterLine(h, [M(code)]) == if code == 107 then h.(fan := Some(0.0)) else if code == 106 then h.(fan := None) else h
  {
    forall letter
      ensures WordOf([M(code), Word('S', s)], letter) == if letter == 'S' then Some(s) else None
      ensures WordOf([M(code)], letter) == None
    {
      TwoWords(M(code), Word('S', s), letter);
      OneWord(M(code), letter);
    }
    hide WordOf;
  }

  lemma PlainCode(h: Head, code: nat)
    ensures AfterLine(h, [G(code)]) == h
  {
    forall letter
      ensures WordOf([G(code)], letter) == None
    {
      OneWord(G(code), letter);
    }
    hide WordOf;
  }
}
