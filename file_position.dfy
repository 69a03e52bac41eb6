/** The scanner's line and column counter. It is the observer of the line
    feed states of the lexical automaton: every carriage return, line feed
    and carriage return + line feed pair moves it to the start of the next
    line. */
module FilePositions {
  import opened CharacterClassification
  import opened Automaton

  const CarriageReturn: Byte := 0x0D
  const LineFeed: Byte := 0x0A

  /** The counter's whole state: the current line and column, and whether a
      carriage return is waiting to be counted. */
  datatype Position = Position(line: nat, column: nat, carriageReturn: bool)

  /** A notification as the automaton delivers it to on_state_change. */
  datatype Signal = Signal(direction: Direction, symbol: Byte)

  const Start: Position := Position(1, 1, false)

  /** increment_line: the next line, at column 1, nothing pending. */
  function NewLine(p: Position): (r: Position)
    ensures r.line == p.line + 1 && r.column == 1 && !r.carriageReturn
  {
    Position(p.line + 1, 1, false)
  }

  /** What on_state_change does. Entering on a carriage return only remembers it;
      entering on anything else is a line break. Leaving while a carriage
      return is pending is a line break unless the symbol is the line feed
      of a CR LF pair, whose entry counts instead. */
  function AfterSignal(p: Position, s: Signal): Position {
    match s.direction
    case Enter => if s.symbol == CarriageReturn then p.(carriageReturn := true) else NewLine(p)
    case Exit => if p.carriageReturn && s.symbol != LineFeed then NewLine(p) else p
  }

  /** The position after a list of notifications, in order. */
  function Replay(p: Position, signals: seq<Signal>): Position
    decreases |signals|
  {
    if signals == [] then p else Replay(AfterSignal(p, signals[0]), signals[1..])
  }

  lemma {:induction false} ReplayConcat(p: Position, a: seq<Signal>, b: seq<Signal>)
    ensures Replay(p, a + b) == Replay(Replay(p, a), b)
    decreases |a|
  {
    if a == [] {
      assert a + b == b;
    } else {
      assert (a + b)[1..] == a[1..] + b;
      ReplayConcat(AfterSignal(p, a[0]), a[1..], b);
    }
  }

  lemma ReplayOne(p: Position, s: Signal)
    ensures Replay(p, [s]) == AfterSignal(p, s)
  {
    assert [s][1..] == [];
  }

  lemma ReplayTwo(p: Position, s: Signal, t: Signal)
    ensures Replay(p, [s, t]) == AfterSignal(AfterSignal(p, s), t)
  {
    assert [s, t][1..] == [t];
    ReplayOne(AfterSignal(p, s), t);
  }

  /** A single notification never moves back and moves at most one line;
      whenever it moves, the column is back at 1 and nothing is pending. */
  lemma OneSignal(p: Position, s: Signal)
    ensures AfterSignal(p, s).line == p.line || AfterSignal(p, s).line == p.line + 1
    ensures AfterSignal(p, s).line == p.line + 1 <==>
              (s.direction == Enter && s.symbol != CarriageReturn)
              || (s.direction == Exit && p.carriageReturn && s.symbol != LineFeed)
    ensures AfterSignal(p, s).line == p.line + 1 ==>
              AfterSignal(p, s).column == 1 && !AfterSignal(p, s).carriageReturn
    ensures AfterSignal(p, s).line == p.line ==> AfterSignal(p, s).column == p.column
  {
  }

  // The line feed group of the scanner's automaton: a carriage return state
  // and a line feed state, both callback final states, each reachable from
  // the other and from itself on '\r' and '\n' respectively. A lexeme of
  // line breaks w therefore notifies Enter w[0], then Exit w[i] and Enter
  // w[i] for every later symbol, and the symbol after the lexeme leaves the
  // group with one more Exit.

  predicate IsBreak(c: Byte) {
    c == CarriageReturn || c == LineFeed
  }

  /** The notifications while the automaton walks through the line feed
      states on `w`. */
  function Walk(w: seq<Byte>): seq<Signal>
    requires w != []
    decreases |w|
  {
    if |w| == 1 then [Signal(Enter, w[0])]
    else Walk(w[..|w| - 1]) + [Signal(Exit, w[|w| - 1]), Signal(Enter, w[|w| - 1])]
  }

  /** The number of line breaks in `w`: every carriage return, and every line
      feed that does not complete a carriage return + line feed pair. */
  function Breaks(w: seq<Byte>): nat
    decreases |w|
  {
    if w == [] then 0
    else
      var c := w[|w| - 1];
      var pairs := c == LineFeed && |w| >= 2 && w[|w| - 2] == CarriageReturn;
      Breaks(w[..|w| - 1]) + if IsBreak(c) && !pairs then 1 else 0
  }

  /** While the walk is inside the group, every break is counted except a
      trailing carriage return, which is pending. */
  lemma {:induction false} WalkCounts(p: Position, w: seq<Byte>)
    requires w != [] && !p.carriageReturn
    requires forall i :: 0 <= i < |w| ==> IsBreak(w[i])
    ensures Replay(p, Walk(w)).carriageReturn == (w[|w| - 1] == CarriageReturn)
    ensures Replay(p, Walk(w)).line + (if w[|w| - 1] == CarriageReturn then 1 else 0) == p.line + Breaks(w)
    ensures w != [CarriageReturn] ==> Replay(p, Walk(w)).column == 1
    decreases |w|
  {
    if |w| == 1 {
      assert w[..0] == [];
      assert Replay(p, Walk(w)) == AfterSignal(p, Signal(Enter, w[0]));
    } else {
      var u := w[..|w| - 1];
      var c := w[|w| - 1];
      WalkCounts(p, u);
      var q := Replay(p, Walk(u));
      ReplayConcat(p, Walk(u), [Signal(Exit, c), Signal(Enter, c)]);
      assert u[|u| - 1] == w[|w| - 2];
      ReplayTwo(q, Signal(Exit, c), Signal(Enter, c));
    }
  }

  /** A lexeme of line breaks followed by any symbol that ends it moves the
      counter by exactly the number of line breaks the lexeme holds, to
      column 1 and with nothing pending. */
  lemma LineBreakLexeme(p: Position, w: seq<Byte>, next: Byte)
    requires w != [] && !p.carriageReturn && !IsBreak(next)
    requires forall i :: 0 <= i < |w| ==> IsBreak(w[i])
    ensures Replay(p, Walk(w) + [Signal(Exit, next)]) == Position(p.line + Breaks(w), 1, false)
  {
    WalkCounts(p, w);
    ReplayConcat(p, Walk(w), [Signal(Exit, next)]);
    ReplayOne(Replay(p, Walk(w)), Signal(Exit, next));
  }

  /** "\r\n" is one line break: Enter '\r', then Exit '\n' and Enter '\n'. */
  lemma CarriageReturnLineFeed(p: Position)
    requires !p.carriageReturn
    ensures Replay(p, Walk([CarriageReturn, LineFeed])) == NewLine(p)
  {
    var w := [CarriageReturn, LineFeed];
    assert w[..1] == [CarriageReturn];
    assert Walk(w) == [Signal(Enter, CarriageReturn)] + [Signal(Exit, LineFeed), Signal(Enter, LineFeed)];
    ReplayConcat(p, [Signal(Enter, CarriageReturn)], [Signal(Exit, LineFeed), Signal(Enter, LineFeed)]);
    ReplayOne(p, Signal(Enter, CarriageReturn));
    ReplayTwo(p.(carriageReturn := true), Signal(Exit, LineFeed), Signal(Enter, LineFeed));
  }

  /** "\r\r" is two line breaks: the second carriage return's Exit counts
      the first. */
  lemma TwoCarriageReturns(p: Position, next: Byte)
    requires !p.carriageReturn && !IsBreak(next)
    ensures Replay(p, Walk([CarriageReturn, CarriageReturn]) + [Signal(Exit, next)]).line == p.line + 2
  {
    var w := [CarriageReturn, CarriageReturn];
    LineBreakLexeme(p, w, next);
    assert w[..1] == [CarriageReturn];
    assert w[..1][..0] == [];
    assert Breaks(w[..1]) == 1;
  }

  /** The counter object of the scanner. */
  class FilePosition {
    var line: nat
    var column: nat
    var carriageReturn: bool

    function Current(): Position
      reads this
    {
      Position(line, column, carriageReturn)
    }

    constructor()
      ensures Current() == Start
    {
      line, column, carriageReturn := 1, 1, false;
    }

    method OnStateChange(direction: Direction, symbol: Byte)
      modifies this
      ensures Current() == AfterSignal(old(Current()), Signal(direction, symbol))
    {
      match direction
      case Enter =>
        if symbol == CarriageReturn {
          carriageReturn := true;
        } else {
          IncrementLine();
        }
      case Exit =>
        if carriageReturn && symbol != LineFeed {
          IncrementLine();
        }
    }

    method IncrementColumn()
      modifies this
      ensures Current() == old(Current()).(column := old(column) + 1)
    {
      column := column + 1;
    }

    method IncrementColumnBy(count: nat)
      modifies this
      ensures Current() == old(Current()).(column := old(column) + count)
    {
      column := column + count;
    }

    method IncrementLine()
      modifies this
      ensures Current() == NewLine(old(Current()))
    {
      carriageReturn := false;
      line := line + 1;
      column := 1;
    }
  }
}
