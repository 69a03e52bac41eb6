/** The table-driven lexical automaton: a graph of states joined by character
    and character-class transitions, flattened into a branch matrix with one
    row per reachable state and one column per 7-bit code. */
module Automaton {
  import opened Results
  import opened Tokens
  import opened CharacterClassification

  const CrashIndex: nat := 0
  const StartIndex: nat := 1
  /** The largest state index a `state_type` (unsigned char) can hold. */
  const StateTypeMax: nat := 255
  /** The number of columns the source gives the branch matrix. */
  const WidthAsWritten: nat := 127
  /** One column for every code 0x00..0x7F. */
  const Width: nat := 128

  datatype StateType = Regular | Final | CallbackFinal
  datatype Direction = Enter | Exit

  /** A regular state, or a final state with the token it produces; callback
      final states also notify their observer on entry and exit. */
  datatype StateKind = RegularState | FinalState(token: TokenType) | CallbackFinalState(token: TokenType)

  /** A transition names its destination by index into the state arena. */
  datatype Transition =
    | CharTransition(symbol: Byte, next: nat)
    | TypeTransition(charClass: CharClass, next: nat)

  datatype State = State(kind: StateKind, transitions: seq<Transition>)

  /** An entry of the machine's state list: the built-in crash state or an
      arena state. */
  datatype StateRef = Crash | Node(index: nat)

  /** A callback notification: the state whose callback fired, the direction
      and the symbol being processed. */
  datatype CallbackEvent = CallbackEvent(state: nat, direction: Direction, symbol: Byte)

  function TypeOf(kind: StateKind): (r: StateType)
    ensures r == Regular <==> kind.RegularState?
  {
    match kind
    case RegularState => Regular
    case FinalState(_) => Final
    case CallbackFinalState(_) => CallbackFinal
  }

  /** Transition::process: the destination when the transition accepts the
      symbol; a character class `Any` accepts every symbol. */
  predicate Accepts(t: Transition, c: Byte) {
    match t
    case CharTransition(s, _) => c == s
    case TypeTransition(k, _) =>
      match k
      case Numeric => IsDigit(c)
      case Alpha => IsAlpha(c)
      case AlphaNumeric => IsAlnum(c)
      case Any => true
  }

  function ProcessTransition(t: Transition, c: Byte): (r: Option<nat>)
    ensures r.Some? <==> Accepts(t, c)
    ensures r.Some? ==> r.value == t.next
  {
    if Accepts(t, c) then Some(t.next) else None
  }

  /** The columns a transition writes: its symbol, or its class's values. */
  function Columns(t: Transition): seq<Byte> {
    match t
    case CharTransition(s, _) => [s]
    case TypeTransition(k, _) => ClassValues(k)
  }

  /** Below 0x80 a transition writes exactly the columns it accepts. */
  lemma ColumnsAccepted(t: Transition, c: Byte)
    requires c <= SupportedEncodingMax
    ensures c in Columns(t) <==> Accepts(t, c)
  {
    if t.TypeTransition? {
      ClassValuesExact(t.charClass, c);
    }
  }

  // ---------------------------------------------------------------------
  // The state graph (State::add)

  /** Every transition leads to a state of the arena. */
  ghost predicate ClosedGraph(graph: seq<State>) {
    forall i, t :: 0 <= i < |graph| && t in graph[i].transitions ==> t.next < |graph|
  }

  /** The arena in which a lexer's states are built; `Add` and `AddOne` are
      State::add for a list of transitions and for one transition. */
  class StateGraph {
    var states: seq<State>

    constructor ()
      ensures states == []
    {
      states := [];
    }

    method NewState(kind: StateKind, transitions: seq<Transition>) returns (index: nat)
      modifies this
      ensures index == |old(states)| && states == old(states) + [State(kind, transitions)]
    {
      index := |states|;
      states := states + [State(kind, transitions)];
    }

    method Add(index: nat, transitions: seq<Transition>)
      requires index < |states|
      modifies this
      ensures |states| == |old(states)|
      ensures states[index] == old(states[index]).(transitions := old(states[index].transitions) + transitions)
      ensures forall i :: 0 <= i < |states| && i != index ==> states[i] == old(states[i])
    {
      states := states[index := states[index].(transitions := states[index].transitions + transitions)];
    }

    method AddOne(index: nat, transition: Transition)
      requires index < |states|
      modifies this
      ensures |states| == |old(states)|
      ensures states[index] == old(states[index]).(transitions := old(states[index].transitions) + [transition])
      ensures forall i :: 0 <= i < |states| && i != index ==> states[i] == old(states[i])
    {
      Add(index, [transition]);
    }
  }

  // ---------------------------------------------------------------------
  // The machine's state list (gather_states)

  function Kind(graph: seq<State>, r: StateRef): StateKind
    requires r.Node? ==> r.index < |graph|
  {
    match r
    case Crash => FinalState(DeadBeef)
    case Node(i) => graph[i].kind
  }

  function Transitions(graph: seq<State>, r: StateRef): seq<Transition>
    requires r.Node? ==> r.index < |graph|
  {
    match r
    case Crash => []
    case Node(i) => graph[i].transitions
  }

  ghost predicate Distinct(states: seq<StateRef>) {
    forall i, j :: 0 <= i < j < |states| ==> states[i] != states[j]
  }

  ghost predicate InArena(graph: seq<State>, states: seq<StateRef>) {
    forall i :: 0 <= i < |states| && states[i].Node? ==> states[i].index < |graph|
  }

  /** Every destination of every listed state is listed. */
  ghost predicate Closed(graph: seq<State>, states: seq<StateRef>)
    requires InArena(graph, states)
  {
    forall i, t :: 0 <= i < |states| && t in Transitions(graph, states[i]) ==> Node(t.next) in states
  }

  /** The properties of gather_states' result: crash first, start second,
      no repetitions, closed under transitions, and every later entry is
      the destination of a transition of an earlier one. */
  ghost predicate Gathered(graph: seq<State>, start: nat, states: seq<StateRef>) {
    2 <= |states| && states[0] == Crash && states[1] == Node(start)
    && Distinct(states) && InArena(graph, states) && Closed(graph, states)
    && forall k :: 2 <= k < |states| ==>
         exists j :: 0 <= j < k && states[k] in Destinations(Transitions(graph, states[j]))
  }

  /** The destinations of a list of transitions, in order. */
  function Destinations(ts: seq<Transition>): (ds: seq<StateRef>)
    ensures |ds| == |ts|
    ensures forall m :: 0 <= m < |ts| ==> ds[m] == Node(ts[m].next)
  {
    seq(|ts|, m requires 0 <= m < |ts| => Node(ts[m].next))
  }

  ghost function Universe(graph: seq<State>): set<StateRef> {
    {Crash} + set i | 0 <= i < |graph| :: Node(i)
  }

  /** `states` followed by each of `ds` that is not listed yet, in the
      order of `ds`: the entries a state's transitions add to the list. */
  function Discover(states: seq<StateRef>, ds: seq<StateRef>): (r: seq<StateRef>)
    ensures states <= r
    ensures Distinct(states) ==> Distinct(r)
    ensures forall d :: d in ds ==> d in r
    ensures forall k :: |states| <= k < |r| ==> r[k] in ds
    decreases |ds|
  {
    if ds == [] then states
    else
      var next := if ds[0] in states then states else states + [ds[0]];
      assert forall d :: d in ds ==> d == ds[0] || d in ds[1..];
      var r := Discover(next, ds[1..]);
      assert forall k :: |states| <= k < |next| ==> next[k] == ds[0];
      assert ds[0] in next && next <= r;
      assert r[..|next|] == next;
      r
  }

  /** The list all arena states are in. */
  ghost predicate InUniverse(graph: seq<State>, states: seq<StateRef>) {
    forall r :: r in states ==> r in Universe(graph)
  }

  /** Breadth-first discovery as gather_states performs it: the entries from
      `i` on are visited in list order, and each appends the destinations of
      its transitions, in transition order, that are not listed yet. The
      position of a state in the result is its row in the branch matrix. */
  ghost function GatherFrom(graph: seq<State>, states: seq<StateRef>, i: nat): seq<StateRef>
    requires ClosedGraph(graph) && Distinct(states) && InUniverse(graph, states) && i <= |states|
    decreases Universe(graph) - set r | r in states, |states| - i
  {
    if i == |states| then states
    else
      assert states[i] in states;
      var ds := Destinations(Transitions(graph, states[i]));
      var grown := Discover(states, ds);
      DiscoverStep(graph, states, i, grown);
      GatherFrom(graph, grown, i + 1)
  }

  /** The state list gather_states computes from `start`. */
  ghost function Gather(graph: seq<State>, start: nat): seq<StateRef>
    requires start < |graph| && ClosedGraph(graph)
  {
    assert InUniverse(graph, [Crash, Node(start)]);
    GatherFrom(graph, [Crash, Node(start)], 0)
  }

  /** One visit keeps the list inside the arena and shrinks the measure. */
  lemma DiscoverStep(graph: seq<State>, states: seq<StateRef>, i: nat, grown: seq<StateRef>)
    requires ClosedGraph(graph) && Distinct(states) && InUniverse(graph, states) && i < |states|
    requires states[i] in Universe(graph)
    requires grown == Discover(states, Destinations(Transitions(graph, states[i])))
    ensures Distinct(grown) && InUniverse(graph, grown)
    ensures (Universe(graph) - set r | r in grown) < (Universe(graph) - set r | r in states)
         || ((Universe(graph) - set r | r in grown) == (Universe(graph) - set r | r in states) && |grown| - (i + 1) < |states| - i)
  {
    DestinationsInUniverse(graph, states[i]);
    forall r | r in grown ensures r in Universe(graph) {
      var k :| 0 <= k < |grown| && grown[k] == r;
      if k < |states| {
        assert states[k] == r;
      }
    }
    ExtensionShrinks(Universe(graph), states, grown, i);
  }

  /** One visit of the outer loop of gather_states, as GatherFrom takes it. */
  lemma GatherFromStep(graph: seq<State>, states: seq<StateRef>, i: nat, grown: seq<StateRef>)
    requires ClosedGraph(graph) && Distinct(states) && InUniverse(graph, states) && i < |states|
    requires InArena(graph, states)
    requires grown == Discover(states, Destinations(Transitions(graph, states[i])))
    ensures Distinct(grown) && InUniverse(graph, grown) && InArena(graph, grown)
    ensures GatherFrom(graph, states, i) == GatherFrom(graph, grown, i + 1)
    ensures (Universe(graph) - set r | r in grown) < (Universe(graph) - set r | r in states)
         || ((Universe(graph) - set r | r in grown) == (Universe(graph) - set r | r in states) && |grown| - (i + 1) < |states| - i)
  {
    assert states[i] in states;
    DiscoverStep(graph, states, i, grown);
    forall k | 0 <= k < |grown| && grown[k].Node?
      ensures grown[k].index < |graph|
    {
      assert grown[k] in grown;
    }
  }

  /** The list GatherFrom computes has the properties of Gathered: the
      loop invariant of gather_states, carried to the end of the list. */
  lemma {:induction false} GatheredFrom(graph: seq<State>, start: nat, states: seq<StateRef>, i: nat)
    requires start < |graph| && ClosedGraph(graph) && i <= |states|
    requires GatherInvariant(graph, start, states, i) && InUniverse(graph, states)
    ensures Gathered(graph, start, GatherFrom(graph, states, i))
    decreases Universe(graph) - set r | r in states, |states| - i
  {
    if i == |states| {
      GatherDone(graph, start, states);
    } else {
      var grown := Discover(states, Destinations(Transitions(graph, states[i])));
      GatherStep(graph, start, states, i, grown);
      GatherFromStep(graph, states, i, grown);
      GatheredFrom(graph, start, grown, i + 1);
    }
  }

  /** gather_states: the crash state and the start state, then every state
      reachable from the start, in breadth-first discovery order. */
  method GatherStates(graph: seq<State>, start: nat) returns (states: seq<StateRef>)
    requires start < |graph| && ClosedGraph(graph)
    ensures states == Gather(graph, start)
    ensures Gathered(graph, start, states)
  {
    states := [Crash, Node(start)];
    assert InUniverse(graph, states);
    GatheredFrom(graph, start, states, 0);
    var i := 0;
    while i < |states|
      invariant 0 <= i <= |states|
      invariant Distinct(states) && InUniverse(graph, states) && InArena(graph, states)
      invariant GatherFrom(graph, states, i) == Gather(graph, start)
      decreases Universe(graph) - set r | r in states, |states| - i
    {
      var ts := Transitions(graph, states[i]);
      var grown := AddDestinations(states, ts);
      GatherFromStep(graph, states, i, grown);
      states, i := grown, i + 1;
    }
  }

  /** What the outer loop of gather_states keeps: the destinations of the
      first `i` entries are listed. */
  ghost predicate GatherInvariant(graph: seq<State>, start: nat, states: seq<StateRef>, i: nat) {
    2 <= |states| && states[0] == Crash && states[1] == Node(start)
    && Distinct(states) && InArena(graph, states)
    && (forall j, d :: 0 <= j < i && j < |states| && d in Destinations(Transitions(graph, states[j])) ==> d in states)
    && (forall k :: 2 <= k < |states| ==>
         exists j :: 0 <= j < k && states[k] in Destinations(Transitions(graph, states[j])))
    && (forall r :: r in states ==> r in Universe(graph))
  }

  /** The inner loop of gather_states: append each destination not yet listed. */
  method AddDestinations(states: seq<StateRef>, ts: seq<Transition>) returns (r: seq<StateRef>)
    requires Distinct(states)
    ensures r == Discover(states, Destinations(ts))
    ensures states <= r && Distinct(r)
    ensures forall d :: d in Destinations(ts) ==> d in r
    ensures forall k :: |states| <= k < |r| ==> r[k] in Destinations(ts)
  {
    r := states;
    var j := 0;
    while j < |ts|
      invariant 0 <= j <= |ts|
      invariant Discover(r, Destinations(ts)[j..]) == Discover(states, Destinations(ts))
    {
      var next := Node(ts[j].next);
      assert next == Destinations(ts)[j];
      assert Destinations(ts)[j..][1..] == Destinations(ts)[j + 1..];
      if next !in r {
        r := r + [next];
      }
      j := j + 1;
    }
    assert Destinations(ts)[j..] == [];
  }

  lemma GatherStep(graph: seq<State>, start: nat, states: seq<StateRef>, i: nat, grown: seq<StateRef>)
    requires start < |graph| && ClosedGraph(graph) && i < |states|
    requires GatherInvariant(graph, start, states, i)
    requires states <= grown && Distinct(grown)
    requires forall d :: d in Destinations(Transitions(graph, states[i])) ==> d in grown
    requires forall k :: |states| <= k < |grown| ==> grown[k] in Destinations(Transitions(graph, states[i]))
    ensures GatherInvariant(graph, start, grown, i + 1)
    ensures (Universe(graph) - set r | r in grown) < (Universe(graph) - set r | r in states)
         || ((Universe(graph) - set r | r in grown) == (Universe(graph) - set r | r in states) && |grown| - (i + 1) < |states| - i)
  {
    GrownInUniverse(graph, start, states, i, grown);
    GrownDestinations(graph, start, states, i, grown);
    GrownWitnessed(graph, start, states, i, grown);
    ExtensionShrinks(Universe(graph), states, grown, i);
  }

  lemma GrownInUniverse(graph: seq<State>, start: nat, states: seq<StateRef>, i: nat, grown: seq<StateRef>)
    requires ClosedGraph(graph) && i < |states|
    requires GatherInvariant(graph, start, states, i)
    requires states <= grown
    requires forall k :: |states| <= k < |grown| ==> grown[k] in Destinations(Transitions(graph, states[i]))
    ensures forall r :: r in grown ==> r in Universe(graph)
    ensures InArena(graph, grown)
  {
    DestinationsInUniverse(graph, states[i]);
    forall r | r in grown ensures r in Universe(graph) {
      var k :| 0 <= k < |grown| && grown[k] == r;
      if k < |states| {
        assert states[k] == r;
      }
    }
    forall k | 0 <= k < |grown| && grown[k].Node?
      ensures grown[k].index < |graph|
    {
      assert grown[k] in grown;
    }
  }

  lemma GrownDestinations(graph: seq<State>, start: nat, states: seq<StateRef>, i: nat, grown: seq<StateRef>)
    requires i < |states|
    requires GatherInvariant(graph, start, states, i)
    requires states <= grown && InArena(graph, grown)
    requires forall d :: d in Destinations(Transitions(graph, states[i])) ==> d in grown
    ensures forall j, d :: 0 <= j < i + 1 && j < |grown| && d in Destinations(Transitions(graph, grown[j])) ==> d in grown
  {
    PrefixContains(states, grown);
    forall j, d | 0 <= j < i + 1 && j < |grown| && d in Destinations(Transitions(graph, grown[j]))
      ensures d in grown
    {
      assert grown[j] == states[j];
    }
  }

  lemma PrefixContains(states: seq<StateRef>, grown: seq<StateRef>)
    requires states <= grown
    ensures forall d :: d in states ==> d in grown
  {
    forall d | d in states ensures d in grown {
      var k :| 0 <= k < |states| && states[k] == d;
      assert grown[k] == d;
    }
  }

  lemma GrownWitnessed(graph: seq<State>, start: nat, states: seq<StateRef>, i: nat, grown: seq<StateRef>)
    requires i < |states|
    requires GatherInvariant(graph, start, states, i)
    requires states <= grown && InArena(graph, grown)
    requires forall k :: |states| <= k < |grown| ==> grown[k] in Destinations(Transitions(graph, states[i]))
    ensures forall k :: 2 <= k < |grown| ==>
              exists j :: 0 <= j < k && grown[k] in Destinations(Transitions(graph, grown[j]))
  {
    forall k | 2 <= k < |grown|
      ensures exists j :: 0 <= j < k && grown[k] in Destinations(Transitions(graph, grown[j]))
    {
      if k < |states| {
        var j :| 0 <= j < k && states[k] in Destinations(Transitions(graph, states[j]));
        assert grown[j] == states[j];
      } else {
        assert grown[i] == states[i];
      }
    }
  }

  /** Extending a list without repetitions either lists something new or
      leaves it as it was. */
  lemma ExtensionShrinks(u: set<StateRef>, states: seq<StateRef>, grown: seq<StateRef>, i: nat)
    requires states <= grown && Distinct(grown) && i < |states|
    ensures (u - set r | r in grown) < (u - set r | r in states)
         || ((u - set r | r in grown) == (u - set r | r in states) && |grown| - (i + 1) < |states| - i)
         || exists r :: r in grown && r !in u
  {
    if |grown| > |states| {
      var x := grown[|states|];
      assert x !in states by {
        forall k | 0 <= k < |states| ensures states[k] != x {
          assert grown[k] == states[k];
        }
      }
      assert x in grown;
      if x in u {
        assert x in (u - set r | r in states) && x !in (u - set r | r in grown);
      }
    } else {
      assert grown == states;
    }
  }

  lemma DestinationsInUniverse(graph: seq<State>, r: StateRef)
    requires ClosedGraph(graph) && (r.Node? ==> r.index < |graph|)
    ensures forall d :: d in Destinations(Transitions(graph, r)) ==> d in Universe(graph)
  {
    var ts := Transitions(graph, r);
    forall d | d in Destinations(ts) ensures d in Universe(graph) {
      var m :| 0 <= m < |ts| && Destinations(ts)[m] == d;
      assert ts[m] in graph[r.index].transitions;
    }
  }

  /** Once every entry has had its destinations added, the list is closed. */
  lemma GatherDone(graph: seq<State>, start: nat, states: seq<StateRef>)
    requires GatherInvariant(graph, start, states, |states|)
    ensures Gathered(graph, start, states)
  {
    forall i, t | 0 <= i < |states| && t in Transitions(graph, states[i])
      ensures Node(t.next) in states
    {
      var ts := Transitions(graph, states[i]);
      var m :| 0 <= m < |ts| && ts[m] == t;
      assert Node(t.next) == Destinations(ts)[m];
    }
  }

  /** The index of a listed state (the `find` of init_branch_matrix). */
  function IndexOf(states: seq<StateRef>, r: StateRef): (i: nat)
    requires r in states
    ensures i < |states| && states[i] == r
    ensures forall j :: 0 <= j < i ==> states[j] != r
  {
    if states[0] == r then 0 else 1 + IndexOf(states[1..], r)
  }

  method FindIndex(states: seq<StateRef>, r: StateRef) returns (i: nat)
    requires r in states
    ensures i == IndexOf(states, r)
  {
    i := 0;
    while states[i] != r
      invariant 0 <= i <= IndexOf(states, r)
      decreases IndexOf(states, r) - i
    {
      i := i + 1;
    }
  }

  // ---------------------------------------------------------------------
  // The branch matrix

  /** A `dimensionX` by `dimensionY` matrix stored row by row in one flat
      buffer; `set` and `get` compute the flat index without checking that
      the column is below `dimensionY`. */
  class BranchMatrix<T> {
    const values: array<T>
    const dimensionY: nat

    constructor (dimensionX: nat, dimensionY: nat, default: T)
      ensures this.dimensionY == dimensionY && fresh(values)
      ensures values.Length == dimensionX * dimensionY
      ensures forall k :: 0 <= k < values.Length ==> values[k] == default
    {
      this.dimensionY := dimensionY;
      values := new T[dimensionX * dimensionY](_ => default);
    }

    method Set(x: nat, y: nat, item: T)
      requires x * dimensionY + y < values.Length
      modifies values
      ensures values[..] == old(values[..])[x * dimensionY + y := item]
    {
      values[x * dimensionY + y] := item;
    }

    function Get(x: nat, y: nat): (r: T)
      reads values
      requires x * dimensionY + y < values.Length
      ensures r == values[x * dimensionY + y]
    {
      values[x * dimensionY + y]
    }
  }

  /** One `set` of init_branch_matrix: row, column, destination index. */
  datatype CellWrite = CellWrite(row: nat, column: Byte, value: nat)

  function ColumnWrites(row: nat, columns: seq<Byte>, value: nat): (ws: seq<CellWrite>)
    ensures |ws| == |columns|
    ensures forall i :: 0 <= i < |ws| ==> ws[i] == CellWrite(row, columns[i], value)
  {
    if columns == [] then []
    else ColumnWrites(row, columns[..|columns| - 1], value) + [CellWrite(row, columns[|columns| - 1], value)]
  }

  ghost predicate TransitionsListed(states: seq<StateRef>, ts: seq<Transition>) {
    forall t :: t in ts ==> Node(t.next) in states
  }

  /** The writes for one state's transitions, in order. */
  function StateWrites(states: seq<StateRef>, row: nat, ts: seq<Transition>): seq<CellWrite>
    requires TransitionsListed(states, ts)
  {
    if ts == [] then []
    else
      var t := ts[|ts| - 1];
      StateWrites(states, row, ts[..|ts| - 1]) + ColumnWrites(row, Columns(t), IndexOf(states, Node(t.next)))
  }

  /** The writes for the transitions of the state in row `r`. */
  function RowWrites(graph: seq<State>, states: seq<StateRef>, r: nat): seq<CellWrite>
    requires InArena(graph, states) && Closed(graph, states) && r < |states|
  {
    var ts := Transitions(graph, states[r]);
    assert TransitionsListed(states, ts) by {
      forall t | t in ts ensures Node(t.next) in states {
      }
    }
    StateWrites(states, r, ts)
  }

  /** The writes of every row, row by row. */
  function Rows(graph: seq<State>, states: seq<StateRef>): (rows: seq<seq<CellWrite>>)
    requires InArena(graph, states) && Closed(graph, states)
    ensures |rows| == |states|
  {
    seq(|states|, r requires 0 <= r < |states| => RowWrites(graph, states, r))
  }

  function Flatten(rows: seq<seq<CellWrite>>): seq<CellWrite> {
    if rows == [] then [] else Flatten(rows[..|rows| - 1]) + rows[|rows| - 1]
  }

  function Flat(w: CellWrite, width: nat): nat {
    w.row * width + w.column
  }

  function ApplyWrite(cells: seq<nat>, width: nat, w: CellWrite): (r: seq<nat>)
    ensures |r| == |cells|
  {
    if Flat(w, width) < |cells| then cells[Flat(w, width) := w.value] else cells
  }

  /** The buffer after performing the writes in order; a write past the end
      of the buffer is dropped. */
  function ApplyWrites(cells: seq<nat>, width: nat, ws: seq<CellWrite>): (r: seq<nat>)
    ensures |r| == |cells|
  {
    if ws == [] then cells
    else ApplyWrite(ApplyWrites(cells, width, ws[..|ws| - 1]), width, ws[|ws| - 1])
  }

  /** The branch matrix init_branch_matrix builds, for a given row width,
      starting from all cells set to the crash state. */
  function Table(graph: seq<State>, states: seq<StateRef>, width: nat): (r: seq<nat>)
    requires InArena(graph, states) && Closed(graph, states)
    ensures |r| == |states| * width
  {
    ApplyWrites(seq(|states| * width, _ => CrashIndex), width, Flatten(Rows(graph, states)))
  }

  /** The intended meaning of a cell: the index of the destination of the
      last transition of the list that accepts `c`, the crash state if none
      does. */
  function Target(states: seq<StateRef>, ts: seq<Transition>, c: Byte): (r: nat)
    requires TransitionsListed(states, ts)
    ensures r < |states| || (r == CrashIndex && ts == [])
  {
    if ts == [] then CrashIndex
    else if Accepts(ts[|ts| - 1], c) then IndexOf(states, Node(ts[|ts| - 1].next))
    else Target(states, ts[..|ts| - 1], c)
  }

  /** No character transition of the list has a symbol above 0x7F. */
  ghost predicate EncodableTransitions(ts: seq<Transition>) {
    forall t :: t in ts && t.CharTransition? ==> t.symbol <= SupportedEncodingMax
  }

  /** No listed state has a character transition above 0x7F. */
  ghost predicate Encodable(graph: seq<State>, states: seq<StateRef>)
    requires InArena(graph, states)
  {
    EncodableUpTo(graph, states, |states|)
  }

  /** The first `n` listed states have no character transition above 0x7F. */
  ghost predicate EncodableUpTo(graph: seq<State>, states: seq<StateRef>, n: nat)
    requires InArena(graph, states) && n <= |states|
  {
    forall i :: 0 <= i < n ==> EncodableTransitions(Transitions(graph, states[i]))
  }

  lemma EncodableNext(graph: seq<State>, states: seq<StateRef>, n: nat)
    requires InArena(graph, states) && n < |states| && EncodableUpTo(graph, states, n)
    requires EncodableTransitions(Transitions(graph, states[n]))
    ensures EncodableUpTo(graph, states, n + 1)
  {
  }

  lemma ColumnsEncodable(t: Transition)
    requires t.CharTransition? ==> t.symbol <= SupportedEncodingMax
    ensures forall c :: c in Columns(t) ==> c <= SupportedEncodingMax
  {
    if t.TypeTransition? {
      forall c | c in Columns(t) ensures c <= SupportedEncodingMax {
        ClassValuesExact(t.charClass, c);
      }
    }
  }

  lemma ApplyWritesConcat(cells: seq<nat>, width: nat, a: seq<CellWrite>, b: seq<CellWrite>)
    ensures ApplyWrites(cells, width, a + b) == ApplyWrites(ApplyWrites(cells, width, a), width, b)
    decreases |b|
  {
    if b != [] {
      assert (a + b)[..|a + b| - 1] == a + b[..|b| - 1];
      ApplyWritesConcat(cells, width, a, b[..|b| - 1]);
    } else {
      assert a + b == a;
    }
  }

  /** The value a cell holds after a list of writes, starting from `d`. */
  function CellAfter(d: nat, width: nat, ws: seq<CellWrite>, k: nat): nat {
    if ws == [] then d
    else if Flat(ws[|ws| - 1], width) == k then ws[|ws| - 1].value
    else CellAfter(d, width, ws[..|ws| - 1], k)
  }

  lemma {:induction false} ApplyWritesAt(cells: seq<nat>, width: nat, ws: seq<CellWrite>, k: nat)
    requires k < |cells|
    ensures ApplyWrites(cells, width, ws)[k] == CellAfter(cells[k], width, ws, k)
    decreases |ws|
  {
    if ws != [] {
      ApplyWritesAt(cells, width, ws[..|ws| - 1], k);
    }
  }

  lemma {:induction false} CellAfterConcat(d: nat, width: nat, a: seq<CellWrite>, b: seq<CellWrite>, k: nat)
    ensures CellAfter(d, width, a + b, k) == CellAfter(CellAfter(d, width, a, k), width, b, k)
    decreases |b|
  {
    if b == [] {
      assert a + b == a;
    } else {
      assert (a + b)[..|a + b| - 1] == a + b[..|b| - 1];
      CellAfterConcat(d, width, a, b[..|b| - 1], k);
    }
  }

  lemma {:induction false} ColumnWritesCell(d: nat, row: nat, columns: seq<Byte>, value: nat, c: Byte)
    requires c < Width
    ensures CellAfter(d, Width, ColumnWrites(row, columns, value), row * Width + c)
         == if c in columns then value else d
    decreases |columns|
  {
    if columns != [] {
      var ws := ColumnWrites(row, columns, value);
      assert ws[..|ws| - 1] == ColumnWrites(row, columns[..|columns| - 1], value);
      ColumnWritesCell(d, row, columns[..|columns| - 1], value, c);
      assert columns == columns[..|columns| - 1] + [columns[|columns| - 1]];
    }
  }

  /** Every write of `ws` lands in row `row`, inside the 128 columns. */
  ghost predicate RowShaped(ws: seq<CellWrite>, row: nat) {
    forall m :: 0 <= m < |ws| ==> ws[m].row == row && ws[m].column < Width
  }

  /** Row `r` of the list writes only into row `r` of the matrix. */
  ghost predicate RowsShaped(rows: seq<seq<CellWrite>>) {
    forall r :: 0 <= r < |rows| ==> RowShaped(rows[r], r)
  }

  /** Every write of a row's list is in that row, and below column 0x80
      when no symbol of the row exceeds 0x7F. */
  lemma {:induction false} StateWritesShape(states: seq<StateRef>, row: nat, ts: seq<Transition>)
    requires TransitionsListed(states, ts) && EncodableTransitions(ts)
    ensures RowShaped(StateWrites(states, row, ts), row)
    decreases |ts|
  {
    if ts != [] {
      var t := ts[|ts| - 1];
      assert t in ts;
      ColumnsEncodable(t);
      var prefix := StateWrites(states, row, ts[..|ts| - 1]);
      var cw := ColumnWrites(row, Columns(t), IndexOf(states, Node(t.next)));
      StateWritesShape(states, row, ts[..|ts| - 1]);
      forall m | 0 <= m < |cw| ensures cw[m].row == row && cw[m].column < Width {
        assert Columns(t)[m] in Columns(t);
      }
      ShapedConcat(prefix, cw, row);
    }
  }

  lemma ShapedConcat(a: seq<CellWrite>, b: seq<CellWrite>, row: nat)
    requires RowShaped(a, row) && RowShaped(b, row)
    ensures RowShaped(a + b, row)
  {
    forall m | 0 <= m < |a + b| ensures (a + b)[m].row == row && (a + b)[m].column < Width {
      if m < |a| {
        assert (a + b)[m] == a[m];
      } else {
        assert (a + b)[m] == b[m - |a|];
      }
    }
  }

  /** Writes of one row leave every cell of another row alone. */
  lemma {:induction false} OtherRowUntouched(d: nat, ws: seq<CellWrite>, row: nat, s: nat, c: Byte)
    requires row != s && c < Width
    requires RowShaped(ws, row)
    ensures CellAfter(d, Width, ws, s * Width + c) == d
    decreases |ws|
  {
    if ws != [] {
      var w := ws[|ws| - 1];
      assert w.row == row && w.column < Width;
      assert Flat(w, Width) != s * Width + c by {
        if row < s {
          assert w.row * Width + w.column < (w.row + 1) * Width <= s * Width;
        } else {
          assert s * Width + c < (s + 1) * Width <= w.row * Width;
        }
      }
      var prefix := ws[..|ws| - 1];
      assert RowShaped(prefix, row) by {
        forall m | 0 <= m < |prefix| ensures prefix[m].row == row && prefix[m].column < Width {
          assert prefix[m] == ws[m];
        }
      }
      OtherRowUntouched(d, prefix, row, s, c);
    }
  }

  lemma {:induction false} StateWritesCell(states: seq<StateRef>, s: nat, ts: seq<Transition>, c: Byte)
    requires TransitionsListed(states, ts) && c < Width
    ensures CellAfter(CrashIndex, Width, StateWrites(states, s, ts), s * Width + c) == Target(states, ts, c)
    decreases |ts|
  {
    if ts != [] {
      var t := ts[|ts| - 1];
      var v := IndexOf(states, Node(t.next));
      var prefix := StateWrites(states, s, ts[..|ts| - 1]);
      StateWritesCell(states, s, ts[..|ts| - 1], c);
      CellAfterConcat(CrashIndex, Width, prefix, ColumnWrites(s, Columns(t), v), s * Width + c);
      ColumnWritesCell(CellAfter(CrashIndex, Width, prefix, s * Width + c), s, Columns(t), v, c);
      ColumnsAccepted(t, c);
    }
  }

  lemma ShapedPrefix(rows: seq<seq<CellWrite>>, n: nat)
    requires n <= |rows| && RowsShaped(rows)
    ensures RowsShaped(rows[..n])
  {
    forall r | 0 <= r < n ensures RowShaped(rows[..n][r], r) {
      assert rows[..n][r] == rows[r];
    }
  }

  /** When row `r` of the list writes only into row `r`, a cell of row `s`
      ends up as row `s`'s own writes leave it. */
  lemma {:induction false} FlattenCell(rows: seq<seq<CellWrite>>, s: nat, c: Byte)
    requires s < |rows| && c < Width
    requires RowsShaped(rows)
    ensures CellAfter(CrashIndex, Width, Flatten(rows), s * Width + c) == CellAfter(CrashIndex, Width, rows[s], s * Width + c)
    decreases |rows|
  {
    var r := |rows| - 1;
    var prefix := rows[..r];
    ShapedPrefix(rows, r);
    assert Flatten(rows) == Flatten(prefix) + rows[r];
    CellAfterConcat(CrashIndex, Width, Flatten(prefix), rows[r], s * Width + c);
    if s < r {
      FlattenCell(prefix, s, c);
      assert RowShaped(rows[r], r);
      OtherRowUntouched(CellAfter(CrashIndex, Width, Flatten(prefix), s * Width + c), rows[r], r, s, c);
      assert prefix[s] == rows[s];
    } else {
      FlattenUntouched(prefix, s, c);
    }
  }

  lemma {:induction false} FlattenUntouched(rows: seq<seq<CellWrite>>, s: nat, c: Byte)
    requires |rows| <= s && c < Width
    requires RowsShaped(rows)
    ensures CellAfter(CrashIndex, Width, Flatten(rows), s * Width + c) == CrashIndex
    decreases |rows|
  {
    if rows != [] {
      var r := |rows| - 1;
      var prefix := rows[..r];
      ShapedPrefix(rows, r);
      FlattenUntouched(prefix, s, c);
      assert Flatten(rows) == Flatten(prefix) + rows[r];
      CellAfterConcat(CrashIndex, Width, Flatten(prefix), rows[r], s * Width + c);
      assert RowShaped(rows[r], r);
      OtherRowUntouched(CrashIndex, rows[r], r, s, c);
    }
  }

  /** The branch matrix with 128 columns sends state `s` on code `c` to the
      destination of the last transition of `s` that accepts `c`, and to the
      crash state when none does. */
  lemma TableCell(graph: seq<State>, states: seq<StateRef>, s: nat, c: Byte)
    requires InArena(graph, states) && Closed(graph, states) && Encodable(graph, states)
    requires s < |states| && c < Width
    ensures TransitionsListed(states, Transitions(graph, states[s]))
    ensures s * Width + c < |Table(graph, states, Width)|
    ensures Table(graph, states, Width)[s * Width + c] == Target(states, Transitions(graph, states[s]), c)
  {
    var rows := Rows(graph, states);
    var ts := Transitions(graph, states[s]);
    RowsShape(graph, states);
    RowsCell(rows, s, c);
    assert TransitionsListed(states, ts) by {
      forall t | t in ts ensures Node(t.next) in states {
      }
    }
    assert rows[s] == StateWrites(states, s, ts);
    StateWritesCell(states, s, ts, c);
  }

  /** Applying the rows in order to a matrix of crash cells leaves in each
      cell what that cell's own row writes there. */
  lemma RowsCell(rows: seq<seq<CellWrite>>, s: nat, c: Byte)
    requires s < |rows| && c < Width
    requires RowsShaped(rows)
    ensures s * Width + c < |rows| * Width
    ensures ApplyWrites(seq(|rows| * Width, _ => CrashIndex), Width, Flatten(rows))[s * Width + c]
         == CellAfter(CrashIndex, Width, rows[s], s * Width + c)
  {
    var zeros := seq(|rows| * Width, _ => CrashIndex);
    assert s * Width + c < (s + 1) * Width <= |rows| * Width;
    ApplyWritesAt(zeros, Width, Flatten(rows), s * Width + c);
    FlattenCell(rows, s, c);
  }

  lemma RowsShape(graph: seq<State>, states: seq<StateRef>)
    requires InArena(graph, states) && Closed(graph, states) && Encodable(graph, states)
    ensures RowsShaped(Rows(graph, states))
  {
    var rows := Rows(graph, states);
    forall r | 0 <= r < |rows| ensures RowShaped(rows[r], r) {
      RowShape(graph, states, r);
    }
  }

  lemma RowShape(graph: seq<State>, states: seq<StateRef>, r: nat)
    requires InArena(graph, states) && Closed(graph, states) && Encodable(graph, states) && r < |states|
    ensures RowShaped(RowWrites(graph, states, r), r)
  {
    var ts := Transitions(graph, states[r]);
    assert TransitionsListed(states, ts) by {
      forall t | t in ts ensures Node(t.next) in states {
      }
    }
    StateWritesShape(states, r, ts);
  }

  // The table as written has 127 columns, so column 0x7F of row s is cell
  // 0 of row s + 1. A two-state lexer shows it: the start state moves on
  // 0x7F to a final state; in the 127-wide table that final state then
  // moves to itself on 0x00, where the 128-wide table crashes.

  const AliasGraph: seq<State> := [
    State(RegularState, [CharTransition(0x7F, 1)]),
    State(FinalState(Identifier), [])
  ]
  const AliasStates: seq<StateRef> := [Crash, Node(0), Node(1)]

  lemma AliasStatesGathered()
    ensures ClosedGraph(AliasGraph) && Gathered(AliasGraph, 0, AliasStates)
  {
    assert AliasStates[2] == Node(AliasGraph[0].transitions[0].next);
  }

  /** gather_states lists crash, the start state and the final state, so
      the final state's row is row 2. */
  lemma AliasGatherOrder()
    ensures ClosedGraph(AliasGraph) && AliasStates == Gather(AliasGraph, 0)
  {
    var first := [Crash, Node(0)];
    AliasLists();
    AliasVisits();
    assert GatherFrom(AliasGraph, AliasStates, 3) == AliasStates;
    assert GatherFrom(AliasGraph, AliasStates, 2) == AliasStates;
    assert GatherFrom(AliasGraph, first, 1) == AliasStates;
  }

  lemma AliasLists()
    ensures ClosedGraph(AliasGraph)
    ensures Distinct([Crash, Node(0)]) && InUniverse(AliasGraph, [Crash, Node(0)])
    ensures Distinct(AliasStates) && InUniverse(AliasGraph, AliasStates)
  {
    assert Node(0) in Universe(AliasGraph) && Node(1) in Universe(AliasGraph);
  }

  /** What each visit of gather_states adds on the alias graph. */
  lemma AliasVisits()
    ensures Discover([Crash, Node(0)], Destinations(Transitions(AliasGraph, Crash))) == [Crash, Node(0)]
    ensures Discover([Crash, Node(0)], Destinations(Transitions(AliasGraph, Node(0)))) == AliasStates
    ensures Discover(AliasStates, Destinations(Transitions(AliasGraph, Node(1)))) == AliasStates
  {
    assert Destinations(Transitions(AliasGraph, Node(0))) == [Node(1)];
    assert Destinations(Transitions(AliasGraph, Node(1))) == [];
  }

  lemma TableAsWrittenAliases()
    ensures ClosedGraph(AliasGraph) && AliasStates == Gather(AliasGraph, 0)
    ensures Table(AliasGraph, AliasStates, WidthAsWritten)[2 * WidthAsWritten + 0] == 2
    ensures Target(AliasStates, Transitions(AliasGraph, AliasStates[2]), 0) == CrashIndex
  {
    AliasGatherOrder();
    AliasStatesGathered();
    var ws := [CellWrite(1, 0x7F, 2)];
    AliasWrites();
    var zeros := seq(|AliasStates| * WidthAsWritten, _ => CrashIndex);
    ApplyWritesAt(zeros, WidthAsWritten, ws, 2 * WidthAsWritten);
    assert ws[..0] == [];
  }

  lemma AliasArena()
    ensures InArena(AliasGraph, AliasStates) && Closed(AliasGraph, AliasStates)
  {
    AliasStatesGathered();
  }

  /** State 1 of the alias graph writes 0x7F into its row, pointing at state 2. */
  lemma AliasRowOne()
    ensures InArena(AliasGraph, AliasStates) && Closed(AliasGraph, AliasStates)
    ensures RowWrites(AliasGraph, AliasStates, 1) == [CellWrite(1, 0x7F, 2)]
  {
    AliasArena();
    var t := CharTransition(0x7F, 1);
    assert Transitions(AliasGraph, AliasStates[1]) == [t];
    assert IndexOf(AliasStates, Node(1)) == 2;
    assert [t][..0] == [];
  }

  /** The crash state and the final state have no transitions. */
  lemma AliasRowsEmpty()
    ensures InArena(AliasGraph, AliasStates) && Closed(AliasGraph, AliasStates)
    ensures RowWrites(AliasGraph, AliasStates, 0) == []
    ensures RowWrites(AliasGraph, AliasStates, 2) == []
  {
    AliasArena();
    assert Transitions(AliasGraph, AliasStates[0]) == [];
    assert Transitions(AliasGraph, AliasStates[2]) == [];
  }

  lemma FlattenThree(a: seq<CellWrite>, b: seq<CellWrite>, c: seq<CellWrite>)
    ensures Flatten([a, b, c]) == a + b + c
  {
    assert [a][..0] == [];
    assert Flatten([a]) == a by {
      assert [] + a == a;
    }
    assert [a, b][..1] == [a];
    assert Flatten([a, b]) == a + b;
    assert [a, b, c][..2] == [a, b];
  }

  /** The only write for the alias graph: state 1 on 0x7F goes to state 2. */
  lemma AliasWrites()
    ensures InArena(AliasGraph, AliasStates) && Closed(AliasGraph, AliasStates)
    ensures Flatten(Rows(AliasGraph, AliasStates)) == [CellWrite(1, 0x7F, 2)]
  {
    AliasRowOne();
    AliasRowsEmpty();
    var ws := [CellWrite(1, 0x7F, 2)];
    var rows := Rows(AliasGraph, AliasStates);
    assert rows == [[], ws, []];
    FlattenThree([], ws, []);
    assert [] + ws + [] == ws;
  }

  /** Applying row `i` after the rows before it gives the first `i + 1` rows. */
  lemma RowStep(graph: seq<State>, states: seq<StateRef>, zeros: seq<nat>, i: nat)
    requires InArena(graph, states) && Closed(graph, states) && i < |states|
    ensures ApplyWrites(ApplyWrites(zeros, Width, Flatten(Rows(graph, states)[..i])), Width, RowWrites(graph, states, i))
         == ApplyWrites(zeros, Width, Flatten(Rows(graph, states)[..i + 1]))
  {
    var rows := Rows(graph, states);
    ApplyWritesConcat(zeros, Width, Flatten(rows[..i]), rows[i]);
    assert rows[..i + 1][..i] == rows[..i];
  }

  /** init_branch_matrix on a matrix of crash cells with 128 columns: fails
      exactly when a listed state has a character transition above 0x7F;
      otherwise the matrix holds `Table(graph, states, Width)`. */
  method InitBranchMatrix(graph: seq<State>, states: seq<StateRef>, matrix: BranchMatrix<nat>) returns (ok: bool)
    requires InArena(graph, states) && Closed(graph, states)
    requires matrix.dimensionY == Width && matrix.values.Length == |states| * Width
    requires matrix.values[..] == seq(|states| * Width, _ => CrashIndex)
    modifies matrix.values
    ensures ok <==> Encodable(graph, states)
    ensures ok ==> matrix.values[..] == Table(graph, states, Width)
  {
    ghost var zeros := matrix.values[..];
    ghost var rows := Rows(graph, states);
    assert rows[..0] == [];
    var i := 0;
    while i < |states|
      invariant 0 <= i <= |states|
      invariant EncodableUpTo(graph, states, i)
      invariant matrix.values[..] == ApplyWrites(zeros, Width, Flatten(rows[..i]))
    {
      var ts := Transitions(graph, states[i]);
      assert TransitionsListed(states, ts) by {
        forall t | t in ts ensures Node(t.next) in states {
        }
      }
      ok := StateEntries(states, i, ts, matrix);
      if !ok {
        return;
      }
      RowStep(graph, states, zeros, i);
      assert matrix.values[..] == ApplyWrites(zeros, Width, Flatten(rows[..i + 1]));
      EncodableNext(graph, states, i);
      i := i + 1;
    }
    assert rows[..i] == rows;
    ok := true;
  }

  /** The entries of one state's row, transition by transition: fails
      exactly when a character transition's symbol is above 0x7F. */
  lemma SymbolTooWide(ts: seq<Transition>, j: nat)
    requires j < |ts| && ts[j].CharTransition? && ts[j].symbol > SupportedEncodingMax
    ensures !EncodableTransitions(ts)
  {
    assert ts[j] in ts;
  }

  method StateEntries(states: seq<StateRef>, row: nat, ts: seq<Transition>, matrix: BranchMatrix<nat>) returns (ok: bool)
    requires TransitionsListed(states, ts) && row < |states|
    requires matrix.dimensionY == Width && matrix.values.Length == |states| * Width
    modifies matrix.values
    ensures ok <==> EncodableTransitions(ts)
    ensures ok ==> matrix.values[..] == ApplyWrites(old(matrix.values[..]), Width, StateWrites(states, row, ts))
  {
    ghost var start := matrix.values[..];
    var j := 0;
    while j < |ts|
      invariant 0 <= j <= |ts|
      invariant EncodableTransitions(ts[..j])
      invariant matrix.values[..] == ApplyWrites(start, Width, StateWrites(states, row, ts[..j]))
    {
      StateWritesStep(states, row, ts, j);
      var dest := FindIndex(states, Node(ts[j].next));
      ghost var before := matrix.values[..];
      ok := TransitionEntry(matrix, ts[j], row, dest, |states|);
      if !ok {
        SymbolTooWide(ts, j);
        return;
      }
      EntryStep(start, before, states, row, ts, j);
      j := j + 1;
    }
    assert ts[..j] == ts;
    ok := true;
  }

  /** branch_matrix_entry for one transition: a character transition writes
      its symbol's column after checking that it is at most 0x7F, a class
      transition writes the column of every value of its class. */
  method TransitionEntry(matrix: BranchMatrix<nat>, t: Transition, row: nat, dest: nat, rows: nat) returns (ok: bool)
    requires matrix.dimensionY == Width && matrix.values.Length == rows * Width && row < rows
    modifies matrix.values
    ensures ok <==> (t.CharTransition? ==> t.symbol <= SupportedEncodingMax)
    ensures ok ==> matrix.values[..] == ApplyWrites(old(matrix.values[..]), Width, ColumnWrites(row, Columns(t), dest))
  {
    if t.CharTransition? {
      if t.symbol > SupportedEncodingMax {
        return false;
      }
      SingleCell(row, t.symbol, rows);
      ghost var before := matrix.values[..];
      matrix.Set(row, t.symbol, dest);
      SingleWrite(before, t, row, dest);
    } else {
      ColumnsEncodable(t);
      ClassEntry(matrix, row, ClassValues(t.charClass), dest, rows);
    }
    ok := true;
  }

  /** Extending the prefix of a transition list by one transition. */
  /** Writing the columns of transition `j` after those of the transitions
      before it gives the writes of the first `j + 1` transitions. */
  lemma EntryStep(start: seq<nat>, before: seq<nat>, states: seq<StateRef>, row: nat, ts: seq<Transition>, j: nat)
    requires TransitionsListed(states, ts) && j < |ts|
    requires TransitionsListed(states, ts[..j])
    requires before == ApplyWrites(start, Width, StateWrites(states, row, ts[..j]))
    ensures Node(ts[j].next) in states
    ensures ApplyWrites(before, Width, ColumnWrites(row, Columns(ts[j]), IndexOf(states, Node(ts[j].next))))
         == ApplyWrites(start, Width, StateWrites(states, row, ts[..j + 1]))
  {
    StateWritesStep(states, row, ts, j);
    ApplyWritesConcat(start, Width, StateWrites(states, row, ts[..j]), ColumnWrites(row, Columns(ts[j]), IndexOf(states, Node(ts[j].next))));
  }

  lemma StateWritesStep(states: seq<StateRef>, row: nat, ts: seq<Transition>, j: nat)
    requires TransitionsListed(states, ts) && j < |ts|
    ensures TransitionsListed(states, ts[..j]) && TransitionsListed(states, ts[..j + 1])
    ensures Node(ts[j].next) in states
    ensures StateWrites(states, row, ts[..j + 1])
         == StateWrites(states, row, ts[..j]) + ColumnWrites(row, Columns(ts[j]), IndexOf(states, Node(ts[j].next)))
    ensures EncodableTransitions(ts[..j + 1])
        <==> EncodableTransitions(ts[..j]) && (ts[j].CharTransition? ==> ts[j].symbol <= SupportedEncodingMax)
  {
    assert ts[j] in ts;
    assert ts[..j + 1][..j] == ts[..j];
    assert ts[..j + 1] == ts[..j] + [ts[j]];
  }

  lemma SingleCell(row: nat, c: Byte, rows: nat)
    requires row < rows && c <= SupportedEncodingMax
    ensures row * Width + c < rows * Width
  {
    assert row * Width + c < (row + 1) * Width <= rows * Width;
  }

  lemma SingleWrite(cells: seq<nat>, t: Transition, row: nat, dest: nat)
    requires t.CharTransition? && row * Width + t.symbol < |cells|
    ensures cells[row * Width + t.symbol := dest] == ApplyWrites(cells, Width, ColumnWrites(row, Columns(t), dest))
  {
    var ws := ColumnWrites(row, Columns(t), dest);
    assert ws == [CellWrite(row, t.symbol, dest)];
    assert ws[..0] == [];
  }

  /** The loop over a class's values (branch_matrix_entry for a type
      transition): one write per value, in order. */
  method ClassEntry(matrix: BranchMatrix<nat>, row: nat, columns: seq<Byte>, dest: nat, rows: nat)
    requires matrix.dimensionY == Width && matrix.values.Length == rows * Width && row < rows
    requires forall c :: c in columns ==> c <= SupportedEncodingMax
    modifies matrix.values
    ensures matrix.values[..] == ApplyWrites(old(matrix.values[..]), Width, ColumnWrites(row, columns, dest))
  {
    ghost var start := matrix.values[..];
    var m := 0;
    while m < |columns|
      invariant 0 <= m <= |columns|
      invariant matrix.values[..] == ApplyWrites(start, Width, ColumnWrites(row, columns[..m], dest))
    {
      var c := columns[m];
      assert c in columns;
      assert row * Width + c < rows * Width by {
        assert row * Width + c < (row + 1) * Width <= rows * Width;
      }
      matrix.Set(row, c, dest);
      assert columns[..m + 1][..m] == columns[..m];
      assert ColumnWrites(row, columns[..m + 1], dest)[..m] == ColumnWrites(row, columns[..m], dest);
      assert matrix.values[..] == ApplyWrites(start, Width, ColumnWrites(row, columns[..m + 1], dest));
      m := m + 1;
    }
    assert columns[..m] == columns;
  }

  // ---------------------------------------------------------------------
  // Running the machine

  /** A symbol the branch matrix has a column for. */
  type Code = c: Byte | c <= 0x7F

  /** The bookkeeping of a machine between symbols. */
  datatype Config = Config(current: nat, steps: nat, lastFinal: nat)

  const Initial: Config := Config(StartIndex, 0, CrashIndex)

  /** The kind of each listed state, by index. */
  function Kinds(graph: seq<State>, states: seq<StateRef>): (kinds: seq<StateKind>)
    requires InArena(graph, states)
    ensures |kinds| == |states|
    ensures forall s :: 0 <= s < |states| ==> kinds[s] == Kind(graph, states[s])
  {
    seq(|states|, s requires 0 <= s < |states| => Kind(graph, states[s]))
  }

  /** What process() needs of its branch matrix: a crash state and a start
      state, one row of 128 cells per state, and every cell naming a state. */
  ghost predicate Runnable(cells: seq<nat>, kinds: seq<StateKind>) {
    2 <= |kinds| && |cells| == |kinds| * Width
    && forall k :: 0 <= k < |cells| ==> cells[k] < |kinds|
  }

  lemma CellIndex(s: nat, c: Code, rows: nat)
    requires s < rows
    ensures s * Width + c < rows * Width
  {
    assert s * Width + c < (s + 1) * Width <= rows * Width;
  }

  /** The state the branch matrix moves `s` to on `c`. */
  function Move(cells: seq<nat>, kinds: seq<StateKind>, s: nat, c: Code): (r: nat)
    requires Runnable(cells, kinds) && s < |kinds|
    ensures r < |kinds|
  {
    CellIndex(s, c, |kinds|);
    cells[s * Width + c]
  }

  /** The test process() makes after moving: a state other than crash whose
      type is final or callback final. */
  predicate Accepting(kinds: seq<StateKind>, s: nat)
    requires s < |kinds|
  {
    s != CrashIndex && !kinds[s].RegularState?
  }

  /** The configuration after one symbol. */
  function Step(cells: seq<nat>, kinds: seq<StateKind>, cfg: Config, c: Code): (r: Config)
    requires Runnable(cells, kinds) && cfg.current < |kinds|
    ensures r.current < |kinds|
  {
    var n := Move(cells, kinds, cfg.current, c);
    if Accepting(kinds, n) then Config(n, 0, n)
    else Config(n, cfg.steps + 1, cfg.lastFinal)
  }

  function Run(cells: seq<nat>, kinds: seq<StateKind>, cfg: Config, w: seq<Code>): (r: Config)
    requires Runnable(cells, kinds) && cfg.current < |kinds|
    ensures r.current < |kinds|
  {
    if w == [] then cfg
    else Step(cells, kinds, Run(cells, kinds, cfg, w[..|w| - 1]), w[|w| - 1])
  }

  /** The state reached from `s` on the word `w`. */
  function Reach(cells: seq<nat>, kinds: seq<StateKind>, s: nat, w: seq<Code>): (r: nat)
    requires Runnable(cells, kinds) && s < |kinds|
    ensures r < |kinds|
  {
    if w == [] then s
    else Move(cells, kinds, Reach(cells, kinds, s, w[..|w| - 1]), w[|w| - 1])
  }

  /** The table of a list of states is runnable, and its first row, the
      crash state's, sends every symbol back to the crash state. */
  lemma TableRunnable(graph: seq<State>, states: seq<StateRef>)
    requires InArena(graph, states) && Closed(graph, states) && Encodable(graph, states)
    requires 2 <= |states| && states[0] == Crash
    ensures Runnable(Table(graph, states, Width), Kinds(graph, states))
    ensures forall c: Code :: Table(graph, states, Width)[c] == CrashIndex
  {
    var cells := Table(graph, states, Width);
    forall k | 0 <= k < |cells| ensures cells[k] < |states| {
      var s, c := k / Width, k % Width;
      assert s < |states| && k == s * Width + c;
      TableCell(graph, states, s, c);
    }
    forall c: Code ensures cells[c] == CrashIndex {
      TableCell(graph, states, 0, c);
    }
  }

  /** Once the crash state is reached it is never left. */
  lemma {:induction false} CrashIsAbsorbing(cells: seq<nat>, kinds: seq<StateKind>, w: seq<Code>)
    requires Runnable(cells, kinds)
    requires forall c: Code :: cells[c] == CrashIndex
    ensures Reach(cells, kinds, CrashIndex, w) == CrashIndex
    decreases |w|
  {
    if w != [] {
      CrashIsAbsorbing(cells, kinds, w[..|w| - 1]);
      var c := w[|w| - 1];
      assert 0 * Width + c == c;
    }
  }

  /** The length of the longest non-empty prefix of `w` that ends in an
      accepting state, 0 when there is none. */
  function LongestAccepted(cells: seq<nat>, kinds: seq<StateKind>, w: seq<Code>): (r: nat)
    requires Runnable(cells, kinds)
    ensures r <= |w|
  {
    if w == [] then 0
    else if Accepting(kinds, Reach(cells, kinds, StartIndex, w)) then |w|
    else LongestAccepted(cells, kinds, w[..|w| - 1])
  }

  /** `LongestAccepted` is what its name says: the prefix it names is
      accepted, and no longer one is. */
  lemma {:induction false} LongestAcceptedIsLongest(cells: seq<nat>, kinds: seq<StateKind>, w: seq<Code>)
    requires Runnable(cells, kinds)
    ensures var r := LongestAccepted(cells, kinds, w);
      && (r > 0 ==> Accepting(kinds, Reach(cells, kinds, StartIndex, w[..r])))
      && forall k :: r < k <= |w| ==> !Accepting(kinds, Reach(cells, kinds, StartIndex, w[..k]))
    decreases |w|
  {
    if w != [] {
      var p := w[..|w| - 1];
      assert w[..|w|] == w;
      if !Accepting(kinds, Reach(cells, kinds, StartIndex, w)) {
        LongestAcceptedIsLongest(cells, kinds, p);
        forall k | 0 <= k <= |p| ensures w[..k] == p[..k] {
        }
      }
    }
  }

  /** The counters after running the machine from the start configuration
      on `w`: the state `w` reaches, the symbols read since the longest
      accepted prefix, and the state that prefix reaches (the crash state
      when there is none). */
  lemma {:induction false} RunCounters(cells: seq<nat>, kinds: seq<StateKind>, w: seq<Code>)
    requires Runnable(cells, kinds)
    ensures var cfg, r := Run(cells, kinds, Initial, w), LongestAccepted(cells, kinds, w);
      && cfg.current == Reach(cells, kinds, StartIndex, w)
      && cfg.steps == |w| - r
      && cfg.lastFinal == (if r == 0 then CrashIndex else Reach(cells, kinds, StartIndex, w[..r]))
    decreases |w|
  {
    if w != [] {
      var p := w[..|w| - 1];
      RunCounters(cells, kinds, p);
      assert w[..|w|] == w;
      var r := LongestAccepted(cells, kinds, p);
      if r > 0 {
        assert w[..r] == p[..r];
      }
    }
  }

  /** Maximal munch, as the scanner uses it: after the word `w` from the
      start configuration the machine is in the state `w` reaches; when
      `steps` is below `|w|`, dropping the last `steps` symbols gives the
      longest accepted prefix and `lastFinal` is the state it reaches;
      otherwise no non-empty prefix is accepted and `lastFinal` is the
      crash state. */
  lemma MaximalMunch(cells: seq<nat>, kinds: seq<StateKind>, w: seq<Code>)
    requires Runnable(cells, kinds)
    ensures var cfg := Run(cells, kinds, Initial, w);
      && cfg.current == Reach(cells, kinds, StartIndex, w)
      && cfg.steps <= |w|
      && (cfg.steps < |w| ==>
            cfg.lastFinal == Reach(cells, kinds, StartIndex, w[..|w| - cfg.steps])
            && Accepting(kinds, cfg.lastFinal))
      && (cfg.steps == |w| ==> cfg.lastFinal == CrashIndex)
      && forall k :: |w| - cfg.steps < k <= |w| ==> !Accepting(kinds, Reach(cells, kinds, StartIndex, w[..k]))
  {
    RunCounters(cells, kinds, w);
    LongestAcceptedIsLongest(cells, kinds, w);
  }

  // ---------------------------------------------------------------------
  // The machine

  /** Creates the machine: gathers the states, refuses more than 256 of
      them and any character transition above 0x7F, and fills a branch
      matrix of 128 columns. `gathered` is the state list computed. */
  method NewMachine(graph: seq<State>, start: nat) returns (r: Result<FiniteStateMachine>, ghost gathered: seq<StateRef>)
    requires start < |graph| && ClosedGraph(graph)
    ensures gathered == Gather(graph, start) && Gathered(graph, start, gathered)
    ensures r.Err? <==> |gathered| - 1 > StateTypeMax || !Encodable(graph, gathered)
    ensures r.Err? && |gathered| - 1 > StateTypeMax ==> r.error == TooManyMachineStates
    ensures r.Err? && |gathered| - 1 <= StateTypeMax ==> r.error == UnsupportedCharacterEncoding
    ensures r.Ok? ==> fresh(r.value) && fresh(r.value.matrix.values) && r.value.Valid()
    ensures r.Ok? ==> r.value.graph == graph && r.value.states == gathered && r.value.Configuration() == Initial
  {
    var states := GatherStates(graph, start);
    gathered := states;
    var matrix := new BranchMatrix<nat>(|states|, Width, CrashIndex);
    if |states| - 1 > StateTypeMax {
      return Err(TooManyMachineStates), gathered;
    }
    assert matrix.values[..] == seq(|states| * Width, _ => CrashIndex);
    var ok := InitBranchMatrix(graph, states, matrix);
    if !ok {
      return Err(UnsupportedCharacterEncoding), gathered;
    }
    var m := new FiniteStateMachine(graph, states, matrix);
    r := Ok(m);
  }

  class FiniteStateMachine {
    const graph: seq<State>
    const states: seq<StateRef>
    const matrix: BranchMatrix<nat>
    var current: nat
    var steps: nat
    var lastFinal: nat

    ghost predicate Valid()
      reads this, matrix, matrix.values
    {
      2 <= |states| && states[0] == Crash && |states| - 1 <= StateTypeMax
      && InArena(graph, states) && Closed(graph, states) && Encodable(graph, states)
      && matrix.dimensionY == Width && matrix.values[..] == Table(graph, states, Width)
      && Runnable(matrix.values[..], Kinds(graph, states))
      && current < |states| && lastFinal < |states|
      && !Kind(graph, states[lastFinal]).RegularState?
    }

    function Configuration(): Config
      reads this
    {
      Config(current, steps, lastFinal)
    }

    constructor (graph: seq<State>, states: seq<StateRef>, matrix: BranchMatrix<nat>)
      requires 2 <= |states| && states[0] == Crash && |states| - 1 <= StateTypeMax
      requires InArena(graph, states) && Closed(graph, states) && Encodable(graph, states)
      requires matrix.dimensionY == Width && matrix.values[..] == Table(graph, states, Width)
      ensures Valid() && Configuration() == Initial
      ensures this.graph == graph && this.states == states && this.matrix == matrix
    {
      this.graph := graph;
      this.states := states;
      this.matrix := matrix;
      current := StartIndex;
      steps := 0;
      lastFinal := CrashIndex;
      new;
      TableRunnable(graph, states);
    }

    /** The callback of a callback final state, as an event list. */
    function Notify(s: nat, direction: Direction, symbol: Byte): (events: seq<CallbackEvent>)
      reads this
      requires InArena(graph, states) && s < |states|
      ensures |events| <= 1
      ensures events != [] <==> Kind(graph, states[s]).CallbackFinalState?
    {
      if Kind(graph, states[s]).CallbackFinalState? then [CallbackEvent(s, direction, symbol)] else []
    }

    /** process(symbol): refuses a symbol above 0x7F without any effect;
        otherwise notifies the state left, moves along the branch matrix,
        notifies the state entered, and updates the bookkeeping. The result
        says whether the machine has not crashed. */
    method Process(symbol: Byte) returns (r: Result<bool>, events: seq<CallbackEvent>)
      requires Valid()
      modifies this
      ensures Valid()
      ensures symbol > SupportedEncodingMax ==>
        r == Err(UnsupportedCharacterEncoding) && events == [] && Configuration() == old(Configuration())
      ensures symbol <= SupportedEncodingMax ==>
        && Configuration() == Step(matrix.values[..], Kinds(graph, states), old(Configuration()), symbol as Code)
        && r == Ok(current != CrashIndex)
        && events == Notify(old(current), Exit, symbol) + Notify(current, Enter, symbol)
    {
      if symbol > SupportedEncodingMax {
        return Err(UnsupportedCharacterEncoding), [];
      }
      ghost var cells, kinds, before := matrix.values[..], Kinds(graph, states), Configuration();
      events := Notify(current, Exit, symbol);
      CellIndex(current, symbol as Code, |states|);
      current := matrix.Get(current, symbol);
      assert current == Move(cells, kinds, before.current, symbol as Code);
      assert Accepting(kinds, current) <==> current != CrashIndex && IsFinalState();
      events := events + Notify(current, Enter, symbol);
      if current != CrashIndex && IsFinalState() {
        lastFinal := current;
        steps := 0;
      } else {
        steps := steps + 1;
      }
      assert Configuration() == Step(cells, kinds, before, symbol as Code);
      r := Ok(current != CrashIndex);
    }

    /** is_final_state: whatever its argument, it tests the current state. */
    predicate IsFinalState()
      reads this
      requires InArena(graph, states) && current < |states|
    {
      TypeOf(Kind(graph, states[current])) != Regular
    }

    method Reset()
      requires Valid()
      modifies this
      ensures Valid() && Configuration() == Initial
    {
      current := StartIndex;
      steps := 0;
      lastFinal := CrashIndex;
    }

    function StepsSinceLastFinalState(): nat
      reads this
    {
      steps
    }

    /** get_last_final_state: the token of the last accepting state; the
        state is always final, so the source's downcast is sound. */
    function LastFinalToken(): (t: TokenType)
      reads this, matrix, matrix.values
      requires Valid()
      ensures Kind(graph, states[lastFinal]) == FinalState(t)
           || Kind(graph, states[lastFinal]) == CallbackFinalState(t)
    {
      Kind(graph, states[lastFinal]).token
    }
  }
}
