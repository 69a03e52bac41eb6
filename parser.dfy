/** The LL(1) predictive parser. It keeps a stack of lookup bodies (each a
    production reversed, so its next value is last) and a cursor into an
    append-only parse tree. One token is processed at a time: variables on
    top are expanded through the table until a terminal matches the token
    or no rule applies. Errors are reported once per run of bad tokens
    (panic-mode recovery), and `finalize` feeds the end-of-input marker. */
module Parsers {
  import opened Results
  import opened Tokens
  import opened Grammars
  import opened ParseTrees
  import opened ParserTables

  /** The userdata of a parse-tree node: a variable or a token. */
  datatype TreeData = VariableData(variable: Variable) | TokenData(token: Token)

  /** What the parser reports for an unexpected token: the token and the
      token kinds it expected instead. */
  datatype Report = Report(token: Token, expected: seq<TokenType>)

  /** The parser's mutable state: the stack, the tree, the active node, the
      recovery and validity flags, and the reports written so far. */
  datatype Config = Config(stack: seq<Production>, nodes: seq<Node<TreeData>>, active: nat,
                           recovery: bool, valid: bool, reports: seq<Report>)

  /** The token finalize feeds: EPSILON at line 0, column 0. */
  const EndOfInput: Token := Token(0, 0, Epsilon, NoValue)

  /** Every body on the stack fits the table. */
  predicate StackFits(stack: seq<Production>, width: nat)
    decreases |stack|
  {
    stack == [] || (StackFits(stack[..|stack| - 1], width) && BodyFits(stack[|stack| - 1], width))
  }

  lemma {:induction false} StackFitsPrefix(stack: seq<Production>, width: nat, n: nat)
    requires StackFits(stack, width) && n <= |stack|
    ensures StackFits(stack[..n], width)
    decreases |stack|
  {
    if n < |stack| {
      StackFitsPrefix(stack[..|stack| - 1], width, n);
      assert stack[..|stack| - 1][..n] == stack[..n];
    } else {
      assert stack[..n] == stack;
    }
  }

  lemma {:induction false} StackFitsAt(stack: seq<Production>, width: nat, k: nat)
    requires StackFits(stack, width) && k < |stack|
    ensures BodyFits(stack[k], width)
    decreases |stack|
  {
    if k < |stack| - 1 {
      StackFitsAt(stack[..|stack| - 1], width, k);
    }
  }

  /** Pushing a fitting body keeps the stack fitting. */
  lemma StackFitsPush(stack: seq<Production>, width: nat, body: Production)
    requires StackFits(stack, width) && BodyFits(body, width)
    ensures StackFits(stack + [body], width)
  {
    assert (stack + [body])[..|stack|] == stack;
  }

  ghost predicate ConfigShaped(c: Config, width: nat) {
    Rooted(c.nodes) && c.active < |c.nodes| && StackFits(c.stack, width)
  }

  /** The stack is empty or has a value on top. */
  predicate Peekable(stack: seq<Production>) {
    stack == [] || stack[|stack| - 1] != []
  }

  function Last<T>(s: seq<T>): T
    requires s != []
  {
    s[|s| - 1]
  }

  /** stack_rule_pop: the top value leaves the top body. */
  function PopValue(stack: seq<Production>): (r: seq<Production>)
    requires stack != [] && Last(stack) != []
    ensures |r| == |stack| && r[..|r| - 1] == stack[..|stack| - 1]
    ensures Last(r) + [Last(Last(stack))] == Last(stack)
  {
    stack[..|stack| - 1] + [Last(stack)[..|Last(stack)| - 1]]
  }

  lemma PopValueFits(stack: seq<Production>, width: nat)
    requires stack != [] && Last(stack) != [] && StackFits(stack, width)
    ensures StackFits(PopValue(stack), width)
  {
    var r := PopValue(stack);
    var top := Last(stack);
    forall i | 0 <= i < |Last(r)| ensures ValueFits(Last(r)[i], width) {
      assert Last(r)[i] == top[i];
    }
  }

  // ------------------------------------------------------------------
  // cleanup_stack

  /** The node reached from node n by following parent links `steps` times;
      the root is its own parent. */
  function Ancestor<T>(nodes: seq<Node<T>>, n: nat, steps: nat): (r: nat)
    requires Rooted(nodes) && n < |nodes|
    ensures r <= n
    decreases steps
  {
    if steps == 0 then n else Ancestor(nodes, nodes[n].parent, steps - 1)
  }

  /** cleanup_stack: pops empty bodies, moving the active node to its parent
      once per pop. */
  function Cleanup(c: Config): (r: Config)
    requires Rooted(c.nodes) && c.active < |c.nodes|
    ensures Rooted(r.nodes) && r.active < |r.nodes| && Peekable(r.stack)
    ensures |r.stack| <= |c.stack| && r.stack == c.stack[..|r.stack|]
    ensures forall k :: |r.stack| <= k < |c.stack| ==> c.stack[k] == []
    ensures r.active == Ancestor(c.nodes, c.active, |c.stack| - |r.stack|)
    ensures r.nodes == c.nodes && r.recovery == c.recovery && r.valid == c.valid && r.reports == c.reports
    decreases |c.stack|
  {
    if c.stack != [] && Last(c.stack) == [] then
      Cleanup(c.(stack := c.stack[..|c.stack| - 1], active := c.nodes[c.active].parent))
    else c
  }

  lemma CleanupFits(c: Config, width: nat)
    requires ConfigShaped(c, width)
    ensures ConfigShaped(Cleanup(c), width)
  {
    StackFitsPrefix(c.stack, width, |Cleanup(c).stack|);
  }

  // ------------------------------------------------------------------
  // The expected set

  /** The rows below n, other than the EPSILON row, whose cell in column y
      names a body, in ascending order: the rows gather_expected_token's
      loop collects. */
  function CandidateRows(t: Table, width: nat, y: nat, n: nat): (r: seq<nat>)
    requires TableShaped(t, width) && y < width && n <= TokenTypeCount
    ensures forall i :: 0 <= i < |r| ==> r[i] < n
    decreases n
  {
    if n == 0 then []
    else
      var prev := CandidateRows(t, width, y, n - 1);
      prev
      + if n - 1 != EpsilonRow && t.cells[n - 1][y] != InvalidRuleReference then [n - 1] else []
  }

  lemma CandidateRowsNext(t: Table, width: nat, y: nat, m: nat, n: nat)
    requires TableShaped(t, width) && y < width && n <= TokenTypeCount && n == m + 1
    ensures CandidateRows(t, width, y, n)
            == CandidateRows(t, width, y, m) + if m != EpsilonRow && t.cells[m][y] != InvalidRuleReference then [m] else []
  {
  }

  /** Every row of `rows` lies below n, is not the EPSILON row, and has a
      cell in column y that names a body. */
  ghost predicate RowsWithRules(t: Table, width: nat, y: nat, n: nat, rows: seq<nat>)
    requires TableShaped(t, width) && y < width && n <= TokenTypeCount
  {
    forall i :: 0 <= i < |rows| ==> rows[i] < n && rows[i] != EpsilonRow && t.cells[rows[i]][y] != InvalidRuleReference
  }

  ghost predicate Increasing(rows: seq<nat>) {
    forall i, j :: 0 <= i < j < |rows| ==> rows[i] < rows[j]
  }

  lemma {:induction false} CandidateRowsSound(t: Table, width: nat, y: nat, n: nat)
    requires TableShaped(t, width) && y < width && n <= TokenTypeCount
    ensures RowsWithRules(t, width, y, n, CandidateRows(t, width, y, n))
    decreases n
  {
    if n > 0 {
      CandidateRowsSound(t, width, y, n - 1);
      var prev, r := CandidateRows(t, width, y, n - 1), CandidateRows(t, width, y, n);
      if n - 1 != EpsilonRow && t.cells[n - 1][y] != InvalidRuleReference {
        assert r == prev + [n - 1];
        assert forall i :: 0 <= i < |prev| ==> r[i] == prev[i];
      } else {
        assert r == prev;
      }
    }
  }

  /** The candidate rows ascend, so none repeats. */
  lemma {:induction false} CandidateRowsAscending(t: Table, width: nat, y: nat, n: nat)
    requires TableShaped(t, width) && y < width && n <= TokenTypeCount
    ensures Increasing(CandidateRows(t, width, y, n))
    decreases n
  {
    if n > 0 {
      CandidateRowsAscending(t, width, y, n - 1);
      var prev, r := CandidateRows(t, width, y, n - 1), CandidateRows(t, width, y, n);
      if n - 1 != EpsilonRow && t.cells[n - 1][y] != InvalidRuleReference {
        assert r == prev + [n - 1];
        assert forall i :: 0 <= i < |prev| ==> r[i] == prev[i];
      } else {
        assert r == prev;
      }
    }
  }

  /** Every row below n, other than the EPSILON row, whose cell in column y
      names a body is a candidate row. */
  lemma {:induction false} CandidateRowsComplete(t: Table, width: nat, y: nat, n: nat)
    requires TableShaped(t, width) && y < width && n <= TokenTypeCount
    ensures forall x :: 0 <= x < n && x != EpsilonRow && t.cells[x][y] != InvalidRuleReference
              ==> x in CandidateRows(t, width, y, n)
    decreases n
  {
    if n > 0 {
      CandidateRowsComplete(t, width, y, n - 1);
    }
  }

  /** The kind of a table row other than the EPSILON row is a real kind
      other than EPSILON, whose row it is. */
  lemma KindOfRow(x: nat)
    requires x < TokenTypeCount && x != EpsilonRow
    ensures KindAt(x) != EnumEntryCount && KindAt(x) != Epsilon && Ordinal(KindAt(x)) == x
  {
    OrdinalOfKindAt(x);
  }

  /** The token kinds of a list of rows. */
  function Kinds(rows: seq<nat>): (r: seq<TokenType>)
    requires forall i :: 0 <= i < |rows| ==> rows[i] < TokenTypeCount
    ensures |r| == |rows| && forall i :: 0 <= i < |rows| ==> r[i] == KindAt(rows[i])
    decreases |rows|
  {
    if rows == [] then []
    else Kinds(rows[..|rows| - 1]) + [KindAt(rows[|rows| - 1])]
  }

  lemma KindsPush(rows: seq<nat>, x: nat)
    requires forall i :: 0 <= i < |rows| ==> rows[i] < TokenTypeCount
    requires x < TokenTypeCount
    ensures Kinds(rows + [x]) == Kinds(rows) + [KindAt(x)]
  {
    assert (rows + [x])[..|rows|] == rows;
  }

  /** The token kinds other than EPSILON whose row lies below n and whose
      cell in column y names a body, in ascending order of kind. */
  function Candidates(t: Table, width: nat, y: nat, n: nat): seq<TokenType>
    requires TableShaped(t, width) && y < width && n <= TokenTypeCount
  {
    Kinds(CandidateRows(t, width, y, n))
  }

  /** The kinds of `r` have strictly increasing ordinals. */
  ghost predicate OrdinalsIncreasing(r: seq<TokenType>) {
    forall i, j :: 0 <= i < j < |r| ==> Ordinal(r[i]) < Ordinal(r[j])
  }

  /** Every kind in `r` is a kind other than EPSILON below ordinal n whose
      cell in column y names a body. */
  ghost predicate KindsWithRules(t: Table, width: nat, y: nat, n: nat, r: seq<TokenType>)
    requires TableShaped(t, width) && y < width && n <= TokenTypeCount
  {
    forall i :: 0 <= i < |r| ==>
      r[i] != EnumEntryCount && r[i] != Epsilon && Ordinal(r[i]) < n && t.cells[Row(r[i])][y] != InvalidRuleReference
  }

  /** Every kind other than EPSILON below ordinal n whose cell in column y
      names a body is in `r`. */
  ghost predicate KindsCovered(t: Table, width: nat, y: nat, n: nat, r: seq<TokenType>)
    requires TableShaped(t, width) && y < width && n <= TokenTypeCount
  {
    forall tt :: tt != EnumEntryCount && tt != Epsilon && Ordinal(tt) < n && t.cells[Row(tt)][y] != InvalidRuleReference
                 ==> tt in r
  }

  /** Candidate i is the kind of candidate row i, a real kind other than
      EPSILON. */
  lemma CandidateKinds(t: Table, width: nat, y: nat, n: nat)
    requires TableShaped(t, width) && y < width && n <= TokenTypeCount
    ensures |Candidates(t, width, y, n)| == |CandidateRows(t, width, y, n)|
    ensures forall i :: 0 <= i < |Candidates(t, width, y, n)| ==>
              Candidates(t, width, y, n)[i] != EnumEntryCount && Candidates(t, width, y, n)[i] != Epsilon
              && Ordinal(Candidates(t, width, y, n)[i]) == CandidateRows(t, width, y, n)[i]
  {
    var rows, r := CandidateRows(t, width, y, n), Candidates(t, width, y, n);
    CandidateRowsSound(t, width, y, n);
    forall i | 0 <= i < |r|
      ensures r[i] != EnumEntryCount && r[i] != Epsilon && Ordinal(r[i]) == rows[i]
    {
      KindOfRow(rows[i]);
    }
  }

  /** The candidates come in ascending order of kind, so none repeats. */
  lemma CandidatesIncreasing(t: Table, width: nat, y: nat, n: nat)
    requires TableShaped(t, width) && y < width && n <= TokenTypeCount
    ensures OrdinalsIncreasing(Candidates(t, width, y, n))
  {
    CandidateKinds(t, width, y, n);
    CandidateRowsAscending(t, width, y, n);
  }

  /** The candidates are kinds other than EPSILON below ordinal n whose
      cell in column y names a body. */
  lemma CandidatesSound(t: Table, width: nat, y: nat, n: nat)
    requires TableShaped(t, width) && y < width && n <= TokenTypeCount
    ensures KindsWithRules(t, width, y, n, Candidates(t, width, y, n))
  {
    CandidateKinds(t, width, y, n);
    CandidateRowsSound(t, width, y, n);
  }

  /** Every such kind is a candidate. */
  lemma CandidatesComplete(t: Table, width: nat, y: nat, n: nat)
    requires TableShaped(t, width) && y < width && n <= TokenTypeCount
    ensures KindsCovered(t, width, y, n, Candidates(t, width, y, n))
  {
    forall tt | tt != EnumEntryCount && tt != Epsilon && Ordinal(tt) < n && t.cells[Row(tt)][y] != InvalidRuleReference
      ensures tt in Candidates(t, width, y, n)
    {
      KindIsCandidate(t, width, y, n, tt);
    }
  }

  lemma KindIsCandidate(t: Table, width: nat, y: nat, n: nat, tt: TokenType)
    requires TableShaped(t, width) && y < width && n <= TokenTypeCount
    requires tt != EnumEntryCount && tt != Epsilon && Ordinal(tt) < n && t.cells[Row(tt)][y] != InvalidRuleReference
    ensures tt in Candidates(t, width, y, n)
  {
    var rows := CandidateRows(t, width, y, n);
    var x := Ordinal(tt);
    OrdinalBijective(tt, Epsilon);
    assert x != EpsilonRow;
    CandidateRowsComplete(t, width, y, n);
    assert x in rows;
    var i :| 0 <= i < |rows| && rows[i] == x;
    CandidateKinds(t, width, y, n);
    KindAtOrdinal(tt);
    assert Candidates(t, width, y, n)[i] == tt;
  }

  /** is_epsilon_replaceable: every value of the body is a variable whose
      EPSILON cell names a body that is itself replaceable. The source
      recurses without a bound; `fuel` bounds the depth. */
  predicate Replaceable(t: Table, width: nat, body: Production, fuel: nat)
    requires TableShaped(t, width) && BodyFits(body, width)
    decreases fuel, 1
  {
    forall i :: 0 <= i < |body| ==> ReplaceableValue(t, width, body[i], fuel)
  }

  predicate ReplaceableValue(t: Table, width: nat, x: Value, fuel: nat)
    requires TableShaped(t, width) && ValueFits(x, width)
    decreases fuel, 0
  {
    fuel > 0 && x.VariableValue?
    && t.cells[EpsilonRow][VariableOrdinal(x.variable)] != InvalidRuleReference
    && Replaceable(t, width, t.lookup[t.cells[EpsilonRow][VariableOrdinal(x.variable)]], fuel - 1)
  }

  /** The recursion depth given to is_epsilon_replaceable: a deeper chain of
      EPSILON entries repeats one of the table's entries, and the source's
      recursion then never ends. */
  function ReplaceDepth(t: Table): nat {
    |t.lookup| + 1
  }

  /** is_eof_expectable: every body on the stack can derive the empty word. */
  predicate EofExpectable(t: Table, width: nat, stack: seq<Production>)
    requires TableShaped(t, width) && StackFits(stack, width)
    decreases |stack|
  {
    stack == []
    || (Replaceable(t, width, stack[|stack| - 1], ReplaceDepth(t)) && EofExpectable(t, width, stack[..|stack| - 1]))
  }

  /** is_eof_expectable holds exactly when every body on the stack is
      replaceable. */
  lemma {:induction false} EofExpectableMeaning(t: Table, width: nat, stack: seq<Production>)
    requires TableShaped(t, width) && StackFits(stack, width)
    requires forall k :: 0 <= k < |stack| ==> BodyFits(stack[k], width)
    ensures EofExpectable(t, width, stack) <==>
            forall k :: 0 <= k < |stack| ==> Replaceable(t, width, stack[k], ReplaceDepth(t))
    decreases |stack|
  {
    if stack != [] {
      var front := stack[..|stack| - 1];
      assert forall k :: 0 <= k < |front| ==> front[k] == stack[k];
      EofExpectableMeaning(t, width, front);
    }
  }

  /** gather_expected_token: [EPSILON] on an empty stack, the terminal on top,
      or every token kind with a rule for the variable on top, followed by
      EPSILON when the variable has an EPSILON rule and the whole stack can
      vanish. */
  function ExpectedFor(t: Table, width: nat, stack: seq<Production>): seq<TokenType>
    requires TableShaped(t, width) && StackFits(stack, width) && Peekable(stack)
  {
    if stack == [] then [Epsilon]
    else
      assert ValueFits(Last(Last(stack)), width) by {
        assert BodyFits(Last(stack), width);
      }
      match Last(Last(stack))
      case TerminalValue(tt) => [tt]
      case VariableValue(v) =>
        Candidates(t, width, VariableOrdinal(v), TokenTypeCount)
        + if t.cells[EpsilonRow][VariableOrdinal(v)] != InvalidRuleReference && EofExpectable(t, width, stack)
          then [Epsilon] else []
  }

  /** With a variable on top, the expected set is the candidates of its
      column, then EPSILON when the column has an EPSILON rule and the stack
      can vanish. */
  lemma ExpectedOfVariable(t: Table, width: nat, stack: seq<Production>, v: Variable)
    requires TableShaped(t, width) && StackFits(stack, width) && Peekable(stack)
    requires stack != [] && Last(Last(stack)) == VariableValue(v)
    ensures VariableOrdinal(v) < width
    ensures ExpectedFor(t, width, stack) == Candidates(t, width, VariableOrdinal(v), TokenTypeCount)
              + if t.cells[EpsilonRow][VariableOrdinal(v)] != InvalidRuleReference && EofExpectable(t, width, stack)
                then [Epsilon] else []
  {
    assert BodyFits(stack[|stack| - 1], width);
  }

  /** Every candidate comes before EPSILON. */
  lemma CandidatesBeforeEpsilon(t: Table, width: nat, y: nat, n: nat)
    requires TableShaped(t, width) && y < width && n <= TokenTypeCount
    ensures forall i :: 0 <= i < |Candidates(t, width, y, n)| ==> Ordinal(Candidates(t, width, y, n)[i]) < EpsilonRow
  {
    forall i | 0 <= i < |Candidates(t, width, y, n)| ensures Ordinal(Candidates(t, width, y, n)[i]) < EpsilonRow {
      CandidateBeforeEpsilon(t, width, y, n, i);
    }
  }

  lemma CandidateBeforeEpsilon(t: Table, width: nat, y: nat, n: nat, i: nat)
    requires TableShaped(t, width) && y < width && n <= TokenTypeCount && i < |Candidates(t, width, y, n)|
    ensures Ordinal(Candidates(t, width, y, n)[i]) < EpsilonRow
  {
    var rows := CandidateRows(t, width, y, n);
    CandidateKinds(t, width, y, n);
    CandidateRowsSound(t, width, y, n);
    assert rows[i] < n && rows[i] != EpsilonRow;
  }

  /** Kinds in ascending order that all come before EPSILON stay in
      ascending order with EPSILON appended, and EPSILON is only last. */
  lemma AppendEpsilonOrdered(c: seq<TokenType>)
    requires OrdinalsIncreasing(c) && forall i :: 0 <= i < |c| ==> Ordinal(c[i]) < EpsilonRow
    ensures OrdinalsIncreasing(c + [Epsilon])
    ensures forall i :: 0 <= i < |c| ==> (c + [Epsilon])[i] != Epsilon
  {
    var r := c + [Epsilon];
    assert Ordinal(Epsilon) == EpsilonRow;
    forall i, j | 0 <= i < j < |r| ensures Ordinal(r[i]) < Ordinal(r[j]) {
      assert r[i] == c[i];
      if j < |c| {
        assert r[j] == c[j];
      }
    }
  }

  /** The expected set lists distinct kinds in ascending order, so EPSILON
      (the end of input) can only come last. */
  lemma ExpectedOrdered(t: Table, width: nat, stack: seq<Production>, v: Variable)
    requires TableShaped(t, width) && StackFits(stack, width) && Peekable(stack)
    requires stack != [] && Last(Last(stack)) == VariableValue(v)
    ensures OrdinalsIncreasing(ExpectedFor(t, width, stack))
    ensures forall i :: 0 <= i < |ExpectedFor(t, width, stack)| - 1 ==> ExpectedFor(t, width, stack)[i] != Epsilon
  {
    ExpectedOfVariable(t, width, stack, v);
    var y := VariableOrdinal(v);
    var c := Candidates(t, width, y, TokenTypeCount);
    CandidatesIncreasing(t, width, y, TokenTypeCount);
    if ExpectedFor(t, width, stack) == c {
      CandidateKinds(t, width, y, TokenTypeCount);
    } else {
      CandidatesBeforeEpsilon(t, width, y, TokenTypeCount);
      AppendEpsilonOrdered(c);
    }
  }

  /** The expected set holds exactly the kinds other than EPSILON with a
      rule for the variable on top, and EPSILON exactly when the variable
      has an EPSILON rule and the whole stack can vanish. */
  lemma ExpectedMembers(t: Table, width: nat, stack: seq<Production>, v: Variable)
    requires TableShaped(t, width) && StackFits(stack, width) && Peekable(stack)
    requires stack != [] && Last(Last(stack)) == VariableValue(v)
    ensures VariableOrdinal(v) < width
    ensures forall tt :: tt != EnumEntryCount && tt != Epsilon ==>
              (tt in ExpectedFor(t, width, stack) <==> t.cells[Row(tt)][VariableOrdinal(v)] != InvalidRuleReference)
    ensures Epsilon in ExpectedFor(t, width, stack) <==>
              t.cells[EpsilonRow][VariableOrdinal(v)] != InvalidRuleReference && EofExpectable(t, width, stack)
  {
    ExpectedOfVariable(t, width, stack, v);
    forall tt | tt != EnumEntryCount && tt != Epsilon
      ensures tt in ExpectedFor(t, width, stack) <==> t.cells[Row(tt)][VariableOrdinal(v)] != InvalidRuleReference
    {
      ExpectedKind(t, width, stack, v, tt);
    }
    ExpectedEpsilon(t, width, stack, v);
  }

  lemma ExpectedKind(t: Table, width: nat, stack: seq<Production>, v: Variable, tt: TokenType)
    requires TableShaped(t, width) && StackFits(stack, width) && Peekable(stack)
    requires stack != [] && Last(Last(stack)) == VariableValue(v)
    requires tt != EnumEntryCount && tt != Epsilon
    ensures VariableOrdinal(v) < width
    ensures tt in ExpectedFor(t, width, stack) <==> t.cells[Row(tt)][VariableOrdinal(v)] != InvalidRuleReference
  {
    ExpectedOfVariable(t, width, stack, v);
    CandidateIff(t, width, VariableOrdinal(v), tt);
  }

  /** A kind other than EPSILON is a candidate of column y exactly when its
      cell in that column names a body. */
  lemma CandidateIff(t: Table, width: nat, y: nat, tt: TokenType)
    requires TableShaped(t, width) && y < width
    requires tt != EnumEntryCount && tt != Epsilon
    ensures tt in Candidates(t, width, y, TokenTypeCount) <==> t.cells[Row(tt)][y] != InvalidRuleReference
  {
    var cands := Candidates(t, width, y, TokenTypeCount);
    if tt in cands {
      CandidatesSound(t, width, y, TokenTypeCount);
      var i :| 0 <= i < |cands| && cands[i] == tt;
      assert t.cells[Row(cands[i])][y] != InvalidRuleReference;
    }
    if t.cells[Row(tt)][y] != InvalidRuleReference {
      KindIsCandidate(t, width, y, TokenTypeCount, tt);
    }
  }

  lemma ExpectedEpsilon(t: Table, width: nat, stack: seq<Production>, v: Variable)
    requires TableShaped(t, width) && StackFits(stack, width) && Peekable(stack)
    requires stack != [] && Last(Last(stack)) == VariableValue(v)
    ensures VariableOrdinal(v) < width
    ensures Epsilon in ExpectedFor(t, width, stack) <==>
              t.cells[EpsilonRow][VariableOrdinal(v)] != InvalidRuleReference && EofExpectable(t, width, stack)
  {
    ExpectedOfVariable(t, width, stack, v);
    CandidateKinds(t, width, VariableOrdinal(v), TokenTypeCount);
  }

  // ------------------------------------------------------------------
  // handle_unexpected_token

  /** handle_unexpected_token: unless forced, nothing happens in recovery or
      at the end of input. Otherwise the expected set is reported; a token
      other than OUT_OF_RANGE_INTEGER then pops the value on top (if any) and
      enters recovery. */
  function HandleUnexpected(t: Table, width: nat, c: Config, token: Token, force: bool): (r: Config)
    requires TableShaped(t, width) && ConfigShaped(c, width) && Peekable(c.stack)
    ensures ConfigShaped(r, width)
    ensures r.nodes == c.nodes && r.active == c.active && r.valid == c.valid
  {
    if !force && (c.recovery || token.kind == Epsilon) then c
    else
      var reported := c.(reports := c.reports + [Report(token, ExpectedFor(t, width, c.stack))]);
      if token.kind == OutOfRangeInteger then reported
      else if c.stack == [] then reported.(recovery := true)
      else
        PopValueFits(c.stack, width);
        reported.(stack := PopValue(c.stack), recovery := true)
  }

  /** A run of bad tokens is reported once: in recovery, an unforced call
      changes nothing, and a reported token other than OUT_OF_RANGE_INTEGER
      leaves the parser in recovery with exactly one more report. */
  lemma ReportOnce(t: Table, width: nat, c: Config, token: Token)
    requires TableShaped(t, width) && ConfigShaped(c, width) && Peekable(c.stack)
    ensures c.recovery ==> HandleUnexpected(t, width, c, token, false) == c
    ensures var r := HandleUnexpected(t, width, c, token, false);
            |r.reports| <= |c.reports| + 1
            && (|r.reports| == |c.reports| + 1 && token.kind != OutOfRangeInteger ==> r.recovery)
            && (|r.reports| == |c.reports| + 1 <==> !c.recovery && token.kind != Epsilon)
  {
  }

  // ------------------------------------------------------------------
  // process

  datatype StepResult = Continue(config: Config) | Done(config: Config, accepted: bool)

  /** The value on top of a stack whose top body is not empty. */
  function Top(stack: seq<Production>): Value
    requires stack != [] && Last(stack) != []
  {
    Last(Last(stack))
  }

  lemma TopFits(stack: seq<Production>, width: nat)
    requires stack != [] && Last(stack) != [] && StackFits(stack, width)
    ensures ValueFits(Top(stack), width)
  {
    assert BodyFits(stack[|stack| - 1], width);
  }

  /** has_rule: a variable whose cell for the token kind names a body. */
  predicate HasRule(t: Table, width: nat, x: Value, kind: TokenType)
    requires TableShaped(t, width) && ValueFits(x, width) && kind != EnumEntryCount
  {
    x.VariableValue? && t.cells[Row(kind)][VariableOrdinal(x.variable)] != InvalidRuleReference
  }

  /** The failure paths of process: the token is handled as unexpected and
      the parse is marked invalid. */
  function Reject(t: Table, width: nat, c0: Config, token: Token): (r: Config)
    requires TableShaped(t, width) && ConfigShaped(c0, width) && Peekable(c0.stack)
    ensures ConfigShaped(r, width) && !r.valid
  {
    HandleUnexpected(t, width, c0, token, false).(valid := false)
  }

  /** A terminal on top matches the token: it is popped, a leaf carrying the
      token is added under the active node, and recovery ends. */
  function Match(c0: Config, token: Token): (r: Config)
    requires Rooted(c0.nodes) && c0.active < |c0.nodes| && c0.stack != [] && Last(c0.stack) != []
    ensures Rooted(r.nodes) && r.active < |r.nodes| && |r.nodes| == |c0.nodes| + 1
    ensures r.nodes[|c0.nodes|].userdata == Some(TokenData(token)) && !r.recovery
  {
    c0.(stack := PopValue(c0.stack), nodes := AddChild(c0.nodes, c0.active, TokenData(token)), recovery := false)
  }

  /** A variable on top with a rule for the token is replaced by the rule's
      body, which is left off the stack when the token is EPSILON and the
      body is empty. */
  function ExpandedStack(t: Table, width: nat, stack: seq<Production>, kind: TokenType): (r: seq<Production>)
    requires TableShaped(t, width) && StackFits(stack, width) && stack != [] && Last(stack) != []
    requires kind != EnumEntryCount && ValueFits(Top(stack), width) && HasRule(t, width, Top(stack), kind)
    ensures StackFits(r, width) && |r| <= |stack| + 1
  {
    var body := t.lookup[t.cells[Row(kind)][VariableOrdinal(Top(stack).variable)]];
    PopValueFits(stack, width);
    var popped := PopValue(stack);
    StackFitsPush(popped, width, body);
    if kind != Epsilon || body != [] then popped + [body] else popped
  }

  /** The expansion: the stack as above, and a new node for the variable
      becomes the active node. */
  function Expand(t: Table, width: nat, c0: Config, token: Token): (r: Config)
    requires TableShaped(t, width) && ConfigShaped(c0, width) && c0.stack != [] && Last(c0.stack) != []
    requires token.kind != EnumEntryCount && ValueFits(Top(c0.stack), width)
    requires HasRule(t, width, Top(c0.stack), token.kind)
    ensures ConfigShaped(r, width) && |r.nodes| == |c0.nodes| + 1
    ensures r.recovery == c0.recovery && r.valid == c0.valid && r.reports == c0.reports
  {
    c0.(stack := ExpandedStack(t, width, c0.stack, token.kind),
        nodes := AddChild(c0.nodes, c0.active, VariableData(Top(c0.stack).variable)), active := |c0.nodes|)
  }

  /** One pass of process's loop: clean up the stack; fail on an empty
      stack; match a terminal on top against the token; expand a variable on
      top that has a rule for the token; fail otherwise. */
  function Step(t: Table, width: nat, c: Config, token: Token): (r: StepResult)
    requires TableShaped(t, width) && ConfigShaped(c, width) && token.kind != EnumEntryCount
    ensures ConfigShaped(r.config, width)
  {
    CleanupFits(c, width);
    var c0 := Cleanup(c);
    if c0.stack == [] then Done(Reject(t, width, c0, token), false)
    else
      TopFits(c0.stack, width);
      PopValueFits(c0.stack, width);
      var x := Top(c0.stack);
      if x == TerminalValue(token.kind) then Done(Match(c0, token), true)
      else if HasRule(t, width, x, token.kind) then Continue(Expand(t, width, c0, token))
      else Done(Reject(t, width, c0, token), false)
  }

  /** A pass that fails marks the parse invalid; an expansion leaves the
      flag alone. */
  lemma StepValid(t: Table, width: nat, c: Config, token: Token)
    requires TableShaped(t, width) && ConfigShaped(c, width) && token.kind != EnumEntryCount
    ensures var r := Step(t, width, c, token);
            (r.Done? && !r.accepted ==> !r.config.valid)
            && (r.Continue? ==> r.config.valid == c.valid)
  {
    CleanupFits(c, width);
    var c0 := Cleanup(c);
    if c0.stack != [] {
      TopFits(c0.stack, width);
    }
  }

  /** A pass that accepts adds a leaf for the token as the newest node and
      ends recovery; an expansion adds one node. */
  lemma StepAccepts(t: Table, width: nat, c: Config, token: Token)
    requires TableShaped(t, width) && ConfigShaped(c, width) && token.kind != EnumEntryCount
    ensures var r := Step(t, width, c, token);
            (r.Done? && r.accepted ==>
               !r.config.recovery && |r.config.nodes| == |c.nodes| + 1
               && r.config.nodes[|c.nodes|].userdata == Some(TokenData(token)))
            && (r.Continue? ==> |r.config.nodes| == |c.nodes| + 1)
  {
    CleanupFits(c, width);
    var c0 := Cleanup(c);
    if c0.stack != [] {
      TopFits(c0.stack, width);
    }
  }

  /** In recovery, a pass that fails or expands adds no report and stays in
      recovery. */
  lemma StepInRecovery(t: Table, width: nat, c: Config, token: Token)
    requires TableShaped(t, width) && ConfigShaped(c, width) && token.kind != EnumEntryCount
    ensures var r := Step(t, width, c, token);
            c.recovery && !(r.Done? && r.accepted) ==> r.config.recovery && r.config.reports == c.reports
  {
    CleanupFits(c, width);
    var c0 := Cleanup(c);
    if c0.stack != [] {
      TopFits(c0.stack, width);
    }
  }

  /** The end-of-input marker is never matched, since no pushed body holds
      an EPSILON terminal; a pass that rejects it leaves the top as it was. */
  lemma StepAtEndOfInput(t: Table, width: nat, c: Config, token: Token)
    requires TableShaped(t, width) && ConfigShaped(c, width) && token.kind != EnumEntryCount
    ensures var r := Step(t, width, c, token);
            token.kind == Epsilon ==> !(r.Done? && r.accepted) && (r.Done? ==> Peekable(r.config.stack))
  {
    CleanupFits(c, width);
    var c0 := Cleanup(c);
    if c0.stack != [] {
      TopFits(c0.stack, width);
    }
  }

  datatype Outcome = Outcome(config: Config, accepted: bool)

  /** What process promises of a settled token, for a pass that started
      from `c`: it returns true only after appending a leaf for the token
      as the newest node and leaving recovery, and false only with the
      parse marked invalid; once in recovery, a failure adds no report; and
      the end-of-input marker is never accepted, a rejection of it leaving
      the stack empty or with a value on top. */
  ghost predicate Settled(c: Config, token: Token, o: Outcome) {
    (o.accepted ==>
       !o.config.recovery && |o.config.nodes| > |c.nodes|
       && o.config.nodes[|o.config.nodes| - 1].userdata == Some(TokenData(token)))
    && (!o.accepted ==> !o.config.valid)
    && (!o.accepted && c.recovery ==> o.config.reports == c.reports && o.config.recovery)
    && (token.kind == Epsilon ==> !o.accepted && Peekable(o.config.stack))
  }

  /** An expansion adds one node and, in recovery, stays in recovery
      without adding a report. */
  ghost predicate Passed(c: Config, c1: Config) {
    |c1.nodes| == |c.nodes| + 1 && (c.recovery ==> c1.recovery && c1.reports == c.reports)
  }

  lemma StepSound(t: Table, width: nat, c: Config, token: Token)
    requires TableShaped(t, width) && ConfigShaped(c, width) && token.kind != EnumEntryCount
    ensures Step(t, width, c, token).Done? ==>
              Settled(c, token, Outcome(Step(t, width, c, token).config, Step(t, width, c, token).accepted))
    ensures Step(t, width, c, token).Continue? ==> Passed(c, Step(t, width, c, token).config)
  {
    StepValid(t, width, c, token);
    StepAccepts(t, width, c, token);
    StepInRecovery(t, width, c, token);
    StepAtEndOfInput(t, width, c, token);
  }

  /** What holds of a token settled after an expansion holds from before
      the expansion. */
  lemma SettledAfterPass(c: Config, c1: Config, token: Token, r: Option<Outcome>)
    requires Passed(c, c1) && (r.Some? ==> Settled(c1, token, r.value))
    ensures r.Some? ==> Settled(c, token, r.value)
  {
  }

  /** process with at most `fuel` passes of its loop; None when the fuel
      runs out. */
  function Run(t: Table, width: nat, c: Config, token: Token, fuel: nat): (r: Option<Outcome>)
    requires TableShaped(t, width) && ConfigShaped(c, width) && token.kind != EnumEntryCount
    ensures r.Some? ==> ConfigShaped(r.value.config, width) && Settled(c, token, r.value)
    decreases fuel
  {
    if fuel == 0 then None
    else
      var s := Step(t, width, c, token);
      StepSound(t, width, c, token);
      if s.Done? then Some(Outcome(s.config, s.accepted))
      else
        var r := Run(t, width, s.config, token, fuel - 1);
        SettledAfterPass(c, s.config, token, r);
        r
  }

  /** A pass that does not settle the token leaves one pass fewer. */
  lemma RunContinues(t: Table, width: nat, c: Config, token: Token, fuel: nat, rest: nat)
    requires TableShaped(t, width) && ConfigShaped(c, width) && token.kind != EnumEntryCount
    requires Step(t, width, c, token).Continue? && fuel == rest + 1
    ensures Run(t, width, c, token, fuel) == Run(t, width, Step(t, width, c, token).config, token, rest)
  {
    RunOneMore(t, width, c, token, rest);
  }

  lemma RunOneMore(t: Table, width: nat, c: Config, token: Token, rest: nat)
    requires TableShaped(t, width) && ConfigShaped(c, width) && token.kind != EnumEntryCount
    requires Step(t, width, c, token).Continue?
    ensures Run(t, width, c, token, rest + 1) == Run(t, width, Step(t, width, c, token).config, token, rest)
  {
  }

  /** A pass that settles the token settles the run. */
  lemma RunSettles(t: Table, width: nat, c: Config, token: Token, fuel: nat)
    requires TableShaped(t, width) && ConfigShaped(c, width) && token.kind != EnumEntryCount
    requires Step(t, width, c, token).Done? && fuel > 0
    ensures Run(t, width, c, token, fuel) == Some(Outcome(Step(t, width, c, token).config, Step(t, width, c, token).accepted))
  {
  }

  // ------------------------------------------------------------------
  // The depth of the active node

  /** Away from the root, the active node is one level below the root for
      each body on the stack beyond the first. */
  ghost predicate DepthMatches(c: Config)
    requires Rooted(c.nodes) && c.active < |c.nodes|
  {
    c.stack != [] ==> Depth(c.nodes, c.active) + 1 == |c.stack|
  }

  lemma {:induction false} CleanupKeepsDepth(c: Config)
    requires Rooted(c.nodes) && c.active < |c.nodes| && DepthMatches(c)
    ensures DepthMatches(Cleanup(c))
    decreases |c.stack|
  {
    if c.stack != [] && Last(c.stack) == [] {
      var c1 := c.(stack := c.stack[..|c.stack| - 1], active := c.nodes[c.active].parent);
      if c1.stack != [] {
        assert c.active != 0;
      }
      CleanupKeepsDepth(c1);
    }
  }

  /** Every pass keeps the active node's depth in step with the stack,
      except the expansion of a variable by an empty body on the
      end-of-input marker: the cursor then descends but nothing is pushed. */
  lemma StepKeepsDepth(t: Table, width: nat, c: Config, token: Token)
    requires TableShaped(t, width) && ConfigShaped(c, width) && token.kind != EnumEntryCount && DepthMatches(c)
    ensures var r := Step(t, width, c, token).config;
            DepthMatches(r) || (token.kind == Epsilon && Step(t, width, c, token).Continue?
                                && Depth(r.nodes, r.active) == |r.stack|)
  {
    CleanupKeepsDepth(c);
    CleanupFits(c, width);
    var c0 := Cleanup(c);
    if c0.stack != [] {
      TopFits(c0.stack, width);
      var x := Top(c0.stack);
      if x == TerminalValue(token.kind) {
        MatchKeepsDepth(c0, token);
      } else if HasRule(t, width, x, token.kind) {
        ExpandKeepsDepth(t, width, c0, token);
      }
    }
  }

  /** A match pops a value and leaves the cursor where it was. */
  lemma MatchKeepsDepth(c0: Config, token: Token)
    requires Rooted(c0.nodes) && c0.active < |c0.nodes| && c0.stack != [] && Last(c0.stack) != []
    requires DepthMatches(c0)
    ensures DepthMatches(Match(c0, token))
  {
    AddChildDepth(c0.nodes, c0.active, TokenData(token), c0.active);
  }

  /** An expansion pushes a body and moves the cursor one level down,
      except that an empty body on the end-of-input marker is not pushed. */
  lemma ExpandKeepsDepth(t: Table, width: nat, c0: Config, token: Token)
    requires TableShaped(t, width) && ConfigShaped(c0, width) && c0.stack != [] && Last(c0.stack) != []
    requires token.kind != EnumEntryCount && ValueFits(Top(c0.stack), width)
    requires HasRule(t, width, Top(c0.stack), token.kind) && DepthMatches(c0)
    ensures var r := Expand(t, width, c0, token);
            DepthMatches(r) || (token.kind == Epsilon && Depth(r.nodes, r.active) == |r.stack|)
  {
    AddChildDepth(c0.nodes, c0.active, VariableData(Top(c0.stack).variable), |c0.nodes|);
  }

  /** The configuration of a fresh parser whose start variable is v. */
  function StartConfig(v: Variable): Config {
    Config([[VariableValue(v)]], [RootNode()], RootIndex, false, true, [])
  }

  lemma StartShaped(width: nat, v: Variable)
    requires VariableOrdinal(v) < width
    ensures ConfigShaped(StartConfig(v), width) && DepthMatches(StartConfig(v))
  {
    var c := StartConfig(v);
    assert BodyFits(c.stack[0], width) by {
      assert ValueFits(c.stack[0][0], width);
    }
    assert StackFits(c.stack, width) by {
      assert c.stack[..0] == [];
    }
  }

  /** On the end-of-input marker, a fresh parser whose start variable has an
      empty EPSILON body expands it: a child of the root becomes active and
      the stack keeps one empty body. */
  lemma StartExpandsOnEnd(t: Table, width: nat, v: Variable)
    requires TableShaped(t, width) && VariableOrdinal(v) < width
    requires t.cells[EpsilonRow][VariableOrdinal(v)] != InvalidRuleReference
    requires t.lookup[t.cells[EpsilonRow][VariableOrdinal(v)]] == []
    ensures ConfigShaped(StartConfig(v), width)
    ensures var r := Step(t, width, StartConfig(v), EndOfInput);
            r.Continue? && r.config.stack == [[]] && r.config.active == 1
            && r.config.nodes == AddChild([RootNode()], RootIndex, VariableData(v))
  {
    StartShaped(width, v);
    var c := StartConfig(v);
    assert Cleanup(c) == c;
    assert Row(Epsilon) == EpsilonRow;
    assert HasRule(t, width, Top(c.stack), Epsilon);
    assert ExpandedStack(t, width, c.stack, Epsilon) == [[]] by {
      assert PopValue(c.stack) == [[]];
    }
    assert Step(t, width, c, EndOfInput) == Continue(Expand(t, width, c, EndOfInput));
  }

  /** Where the correspondence breaks: a start variable whose EPSILON rule
      has an empty body, expanded at the end of input, moves the cursor one
      level down while the stack keeps one (now empty) body. */
  lemma EmptyExpansionBreaksDepth(t: Table, width: nat, v: Variable)
    requires TableShaped(t, width) && VariableOrdinal(v) < width
    requires t.cells[EpsilonRow][VariableOrdinal(v)] != InvalidRuleReference
    requires t.lookup[t.cells[EpsilonRow][VariableOrdinal(v)]] == []
    ensures ConfigShaped(StartConfig(v), width) && DepthMatches(StartConfig(v))
    ensures Step(t, width, StartConfig(v), EndOfInput).Continue?
    ensures !DepthMatches(Step(t, width, StartConfig(v), EndOfInput).config)
  {
    StartShaped(width, v);
    StartExpandsOnEnd(t, width, v);
    var r := Step(t, width, StartConfig(v), EndOfInput).config;
    assert r.nodes[1].parent == 0;
    assert Depth(r.nodes, 1) == 1;
  }

  // ------------------------------------------------------------------
  // finalize

  /** finalize: false at once when the parse is already invalid; otherwise
      the end-of-input marker is processed (it is never accepted), and the
      parse succeeds exactly when that leaves the stack empty; a non-empty
      stack is reported, forced, even in recovery. */
  function FinalizeSpec(t: Table, width: nat, c: Config, fuel: nat): (r: Option<Outcome>)
    requires TableShaped(t, width) && ConfigShaped(c, width)
  {
    if !c.valid then Some(Outcome(c, false))
    else
      match Run(t, width, c, EndOfInput, fuel)
      case None => None
      case Some(o) =>
        if o.config.stack == [] then Some(Outcome(o.config.(valid := true), true))
        else Some(Outcome(HandleUnexpected(t, width, o.config, EndOfInput, true), false))
  }

  /** finalize succeeds exactly when the parse was valid and processing the
      end of input empties the stack, and then the parse is valid again;
      a failure after a valid parse adds exactly one report. */
  lemma FinalizeMeaning(t: Table, width: nat, c: Config, fuel: nat)
    requires TableShaped(t, width) && ConfigShaped(c, width)
    requires FinalizeSpec(t, width, c, fuel).Some?
    ensures var o := FinalizeSpec(t, width, c, fuel).value;
            (o.accepted <==> c.valid && Run(t, width, c, EndOfInput, fuel).value.config.stack == [])
            && (o.accepted ==> o.config.valid)
            && (!c.valid ==> o.config == c)
            && (c.valid && !o.accepted ==>
                  |o.config.reports| == |Run(t, width, c, EndOfInput, fuel).value.config.reports| + 1)
  {
  }

  // ------------------------------------------------------------------
  // The parser object

  class Parser {
    const width: nat
    const table: Table
    const tree: ParseTree<TreeData>
    var stack: seq<Production>
    var active: nat
    var recovery: bool
    var valid: bool
    var reports: seq<Report>

    function State(): Config
      reads this, tree
    {
      Config(stack, tree.nodes, active, recovery, valid, reports)
    }

    ghost predicate Valid()
      reads this, tree
    {
      TableShaped(table, width) && tree.Valid() && ConfigShaped(State(), width)
    }

    /** The parser with the table built: the stack holds the start
        variable, the active node is the root of an empty tree. */
    constructor (rules: seq<Rule>, t: Table)
      requires |rules| > 0 && Tabulable(rules) && TableFor(rules) == Ok(t)
      ensures Valid() && fresh(tree) && width == |rules| && table == t
      ensures State() == StartConfig(rules[0].variable)
    {
      width := |rules|;
      table := t;
      tree := new ParseTree();
      stack := [[VariableValue(rules[0].variable)]];
      active := RootIndex;
      recovery := false;
      valid := true;
      reports := [];
      new;
      assert BodyFits(stack[0], width) by {
        assert ValueFits(VariableValue(rules[0].variable), width);
      }
      assert stack[..0] == [];
    }

    method CleanupStack()
      requires Valid()
      modifies this
      ensures Valid() && State() == Cleanup(old(State()))
    {
      while stack != [] && stack[|stack| - 1] == []
        invariant Valid() && Cleanup(State()) == Cleanup(old(State()))
        decreases |stack|
      {
        ghost var before := State();
        StackFitsPrefix(stack, width, |stack| - 1);
        stack, active := stack[..|stack| - 1], tree.nodes[active].parent;
        assert State() == before.(stack := before.stack[..|before.stack| - 1], active := before.nodes[before.active].parent);
      }
    }

    /** is_epsilon_replaceable, walking the body from its last value. */
    method IsEpsilonReplaceable(body: Production, fuel: nat) returns (r: bool)
      requires TableShaped(table, width) && BodyFits(body, width)
      ensures r == Replaceable(table, width, body, fuel)
      decreases fuel
    {
      var i := |body|;
      while i > 0
        invariant 0 <= i <= |body|
        invariant forall k :: i <= k < |body| ==> ReplaceableValue(table, width, body[k], fuel)
      {
        i := i - 1;
        assert ValueFits(body[i], width);
        if body[i].TerminalValue? {
          return false;
        }
        var index := table.cells[EpsilonRow][VariableOrdinal(body[i].variable)];
        if index != InvalidRuleReference {
          if fuel == 0 {
            return false;
          }
          var inner := IsEpsilonReplaceable(table.lookup[index], fuel - 1);
          if !inner {
            return false;
          }
        } else {
          return false;
        }
      }
      r := true;
    }

    /** is_eof_expectable, walking the stack from its top. */
    method IsEofExpectable() returns (r: bool)
      requires TableShaped(table, width) && StackFits(stack, width)
      ensures r == EofExpectable(table, width, stack)
    {
      var k := |stack|;
      assert stack[..k] == stack;
      while k > 0
        invariant 0 <= k <= |stack| && StackFits(stack[..k], width)
        invariant EofExpectable(table, width, stack) == EofExpectable(table, width, stack[..k])
      {
        StackFitsAt(stack, width, k - 1);
        var ok := IsEpsilonReplaceable(stack[k - 1], ReplaceDepth(table));
        assert stack[..k][..k - 1] == stack[..k - 1];
        if !ok {
          return false;
        }
        k := k - 1;
      }
      r := true;
    }

    /** gather_expected_token. */
    method GatherExpectedToken() returns (r: seq<TokenType>)
      requires TableShaped(table, width) && StackFits(stack, width) && Peekable(stack)
      ensures r == ExpectedFor(table, width, stack)
    {
      if stack == [] {
        return [Epsilon];
      }
      var x := Last(Last(stack));
      if x.TerminalValue? {
        return [x.terminal];
      }
      var y := VariableOrdinal(x.variable);
      var epsilon := false;
      r := [];
      var n := 0;
      while n < TokenTypeCount
        invariant 0 <= n <= TokenTypeCount
        invariant r == Kinds(CandidateRows(table, width, y, n))
        invariant epsilon <==> n > EpsilonRow && table.cells[EpsilonRow][y] != InvalidRuleReference
      {
        ghost var m := n;
        if table.cells[n][y] != InvalidRuleReference {
          if n == EpsilonRow {
            epsilon := true;
          } else {
            KindsPush(CandidateRows(table, width, y, m), m);
            r := r + [KindAt(n)];
          }
        }
        n := n + 1;
        CandidateRowsNext(table, width, y, m, n);
      }
      ExpectedOfVariable(table, width, stack, x.variable);
      if epsilon {
        var eof := IsEofExpectable();
        if eof {
          r := r + [Epsilon];
        }
      }
    }

    /** handle_unexpected_token; the report stands for the message written
        to the error stream. */
    method HandleUnexpectedToken(token: Token, force: bool)
      requires Valid() && Peekable(stack)
      modifies this
      ensures Valid() && State() == HandleUnexpected(table, width, old(State()), token, force)
    {
      if !force && (recovery || token.kind == Epsilon) {
        return;
      }
      var expected := GatherExpectedToken();
      var report := Report(token, expected);
      if token.kind == OutOfRangeInteger {
        reports := reports + [report];
      } else if stack == [] {
        reports, recovery := reports + [report], true;
      } else {
        PopValueFits(stack, width);
        stack, reports, recovery := PopValue(stack), reports + [report], true;
      }
    }

    /** The failure paths of process. */
    method RejectToken(token: Token)
      requires Valid() && Peekable(stack)
      modifies this
      ensures Valid() && State() == Reject(table, width, old(State()), token)
    {
      HandleUnexpectedToken(token, false);
      valid := false;
    }

    /** The expansion path of process. */
    method ExpandTop(token: Token)
      requires Valid() && stack != [] && Last(stack) != [] && token.kind != EnumEntryCount
      requires ValueFits(Top(stack), width) && HasRule(table, width, Top(stack), token.kind)
      modifies this, tree
      ensures Valid() && State() == Expand(table, width, old(State()), token)
    {
      ghost var before := State();
      var x := Top(stack);
      var child := tree.CreateChild(active, VariableData(x.variable));
      stack, active := ExpandedStack(table, width, stack, token.kind), child;
      assert State() == Expand(table, width, before, token);
    }

    /** The matching path of process. */
    method MatchTop(token: Token)
      requires Valid() && stack != [] && Last(stack) != []
      modifies this, tree
      ensures Valid() && State() == Match(old(State()), token)
    {
      PopValueFits(stack, width);
      var leaf := tree.CreateChild(active, TokenData(token));
      stack, recovery := PopValue(stack), false;
    }

    /** One pass of process's loop. */
    method StepOnce(token: Token) returns (done: bool, accepted: bool)
      requires Valid() && token.kind != EnumEntryCount
      modifies this, tree
      ensures Valid()
      ensures var s := Step(table, width, old(State()), token);
              State() == s.config && done == s.Done? && (done ==> accepted == s.accepted)
    {
      CleanupStack();
      if stack == [] {
        RejectToken(token);
        return true, false;
      }
      TopFits(stack, width);
      var x := Top(stack);
      if x == TerminalValue(token.kind) {
        MatchTop(token);
        return true, true;
      } else if HasRule(table, width, x, token.kind) {
        ExpandTop(token);
        return false, false;
      } else {
        RejectToken(token);
        return true, false;
      }
    }

    /** process: passes until the token is matched or rejected; None when
        `fuel` passes did not settle it. */
    method Process(token: Token, fuel: nat) returns (r: Option<bool>)
      requires Valid() && token.kind != EnumEntryCount
      modifies this, tree
      ensures Valid()
      ensures var o := Run(table, width, old(State()), token, fuel);
              (r.None? <==> o.None?) && (o.Some? ==> State() == o.value.config && r == Some(o.value.accepted))
    {
      var f := fuel;
      ghost var goal := Run(table, width, State(), token, fuel);
      while true
        invariant Valid()
        invariant Run(table, width, State(), token, f) == goal
        decreases f
      {
        if f == 0 {
          return None;
        }
        ghost var before, passes := State(), f;
        var done, accepted := StepOnce(token);
        if done {
          RunSettles(table, width, before, token, passes);
          return Some(accepted);
        }
        f := f - 1;
        RunContinues(table, width, before, token, passes, f);
      }
    }

    /** Marks the parse valid and changes nothing else. */
    method MarkValid()
      requires Valid()
      modifies this
      ensures Valid() && State() == old(State()).(valid := true)
    {
      valid := true;
    }

    /** finalize. The source repeats process on the end-of-input marker while
        it returns true; it never does (an ensures of Run), so one call
        is the whole loop. */
    method Finalize(fuel: nat) returns (r: Option<bool>)
      requires Valid()
      modifies this, tree
      ensures Valid()
      ensures var o := FinalizeSpec(table, width, old(State()), fuel);
              (r.None? <==> o.None?) && (o.Some? ==> State() == o.value.config && r == Some(o.value.accepted))
    {
      if !valid {
        return Some(false);
      }
      ghost var before := State();
      var more := Process(EndOfInput, fuel);
      ghost var o := Run(table, width, before, EndOfInput, fuel);
      if more.None? {
        assert FinalizeSpec(table, width, before, fuel) == None;
        return None;
      }
      assert State() == o.value.config && more == Some(false);
      if stack == [] {
        MarkValid();
        assert FinalizeSpec(table, width, before, fuel) == Some(Outcome(State(), true));
        return Some(true);
      }
      HandleUnexpectedToken(EndOfInput, true);
      assert State() == HandleUnexpected(table, width, o.value.config, EndOfInput, true);
      assert FinalizeSpec(table, width, before, fuel) == Some(Outcome(State(), false));
      return Some(false);
    }
  }

  /** Parser(rules): throws on an empty rule list, and when the table
      cannot be built; otherwise the parser is fresh. */
  method NewParser(rules: seq<Rule>) returns (r: Result<Parser>)
    requires Tabulable(rules)
    ensures |rules| == 0 ==> r == Err(EmptyGrammar)
    ensures |rules| > 0 ==> (r.Err? <==> TableFor(rules).Err?)
    ensures |rules| > 0 && r.Err? ==> r.error == TooManyRuleReferences
    ensures r.Ok? ==> fresh(r.value) && fresh(r.value.tree) && r.value.Valid()
                      && r.value.width == |rules| && r.value.table == TableFor(rules).value
                      && r.value.State() == StartConfig(rules[0].variable)
  {
    if |rules| == 0 {
      return Err(EmptyGrammar);
    }
    var t := InitBranchMatrix(rules);
    if t.Err? {
      TableFails(rules);
      return Err(t.error);
    }
    var p := new Parser(rules, t.value);
    r := Ok(p);
  }
}
