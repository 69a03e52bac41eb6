/** The LL(1) parser's table: a branch matrix with one row per token kind
    and one column per rule, whose cells hold an index into a lookup table
    of production bodies, or 255 for "no rule". Every production of a rule
    adds one entry for the terminals of its FIRST list and, when that list
    holds EPSILON, one more for the rule's FOLLOW list. */
module ParserTables {
  import opened Results
  import opened Tokens
  import opened Grammars

  /** The largest value of the one-byte cell type, reserved for "no rule". */
  const InvalidRuleReference: nat := 255

  /** The row of the EPSILON pseudo-token. */
  const EpsilonRow: nat := 30

  /** One row-filling call: the rule's variable, the production and the
      terminals whose cells point at it. */
  datatype Entry = Entry(variable: Variable, body: Production, terminals: seq<TokenType>)

  /** The branch matrix (`cells[token ordinal][variable ordinal]`) and the
      lookup table of stored bodies. */
  datatype Table = Table(cells: seq<seq<nat>>, lookup: seq<Production>)

  /** What the parser may push: variables that have a column, and terminals
      other than EPSILON. */
  predicate ValueFits(x: Value, width: nat) {
    match x
    case VariableValue(v) => VariableOrdinal(v) < width
    case TerminalValue(t) => t != Epsilon
  }

  predicate BodyFits(p: Production, width: nat) {
    forall i :: 0 <= i < |p| ==> ValueFits(p[i], width)
  }

  /** Every cell has a row and a column, and holds 255 or the index of a
      lookup entry that fits the table. */
  predicate TableShaped(t: Table, width: nat) {
    |t.cells| == TokenTypeCount
    && (forall x :: 0 <= x < TokenTypeCount ==> |t.cells[x]| == width)
    && (forall x, y :: 0 <= x < TokenTypeCount && 0 <= y < width ==>
          t.cells[x][y] == InvalidRuleReference || t.cells[x][y] < |t.lookup|)
    && (forall k :: 0 <= k < |t.lookup| ==> BodyFits(t.lookup[k], width))
  }

  /** A row-filling call whose cells exist: the variable has a column and no
      terminal is the ENUM_ENTRY_COUNT marker, which has no row. */
  predicate EntryFits(e: Entry, width: nat) {
    VariableOrdinal(e.variable) < width && EnumEntryCount !in e.terminals
  }

  /** The table row of a token kind. */
  function Row(t: TokenType): (r: nat)
    requires t != EnumEntryCount
    ensures r < TokenTypeCount && r == Ordinal(t)
  {
    OrdinalBijective(t, EnumEntryCount);
    Ordinal(t)
  }

  /** A fresh matrix: every cell "no rule"; an empty lookup table. */
  function InitialTable(width: nat): (t: Table)
    ensures TableShaped(t, width)
    ensures forall x, y :: 0 <= x < TokenTypeCount && 0 <= y < width ==> t.cells[x][y] == InvalidRuleReference
  {
    Table(seq(TokenTypeCount, _ => seq(width, _ => InvalidRuleReference)), [])
  }

  /** contains_epsilon. */
  predicate ContainsEpsilon(ts: seq<TokenType>) {
    Epsilon in ts
  }

  /** The entries of one production: one for its FIRST list, and one for the
      FOLLOW list when the FIRST list holds EPSILON. */
  function EntriesOf(v: Variable, p: Production, first: seq<TokenType>, follows: seq<TokenType>): seq<Entry> {
    [Entry(v, p, first)] + if ContainsEpsilon(first) then [Entry(v, p, follows)] else []
  }

  /** The entries of a rule's productions, walked together with its FIRST
      lists. */
  function ProductionEntries(v: Variable, ps: seq<Production>, fs: seq<seq<TokenType>>, follows: seq<TokenType>): seq<Entry>
    requires |fs| == |ps|
    decreases |ps|
  {
    if ps == [] then [] else EntriesOf(v, ps[0], fs[0], follows) + ProductionEntries(v, ps[1..], fs[1..], follows)
  }

  /** Each rule carries one FIRST list per production. */
  predicate Analysed(rules: seq<Rule>) {
    forall i :: 0 <= i < |rules| ==> |rules[i].firsts| == |rules[i].productions|
  }

  function RuleEntries(rules: seq<Rule>): seq<Entry>
    requires Analysed(rules)
    decreases |rules|
  {
    if rules == [] then []
    else ProductionEntries(rules[0].variable, rules[0].productions, rules[0].firsts, rules[0].follows)
         + RuleEntries(rules[1..])
  }

  /** What a table |rules| wide needs of the analysed rules: every variable
      used has a column and no FIRST or FOLLOW list names ENUM_ENTRY_COUNT. */
  predicate Tabulable(rules: seq<Rule>) {
    Analysed(rules)
    && forall i :: 0 <= i < |rules| ==>
         VariableOrdinal(rules[i].variable) < |rules|
         && EnumEntryCount !in rules[i].follows
         && (forall j :: 0 <= j < |rules[i].firsts| ==> EnumEntryCount !in rules[i].firsts[j])
         && (forall j :: 0 <= j < |rules[i].productions| ==> ProductionFits(rules[i].productions[j], |rules|))
  }

  /** Every variable of the production has a column. */
  predicate ProductionFits(p: Production, width: nat) {
    forall x :: 0 <= x < |p| && p[x].VariableValue? ==> VariableOrdinal(p[x].variable) < width
  }

  /** The body stored in the lookup table: the production reversed, so that
      its first value ends on top of the stack, without EPSILON terminals. */
  function LookupBody(p: Production): (r: Production)
    ensures forall x :: x in r <==> x in p && x != TerminalValue(Epsilon)
    ensures |r| <= |p|
    decreases |p|
  {
    if p == [] then []
    else LookupBody(p[1..]) + if p[0] == TerminalValue(Epsilon) then [] else [p[0]]
  }

  function Reverse<T>(s: seq<T>): (r: seq<T>)
    ensures |r| == |s| && forall i :: 0 <= i < |s| ==> r[i] == s[|s| - 1 - i]
    decreases |s|
  {
    if s == [] then [] else Reverse(s[1..]) + [s[0]]
  }

  /** Without EPSILON terminals the lookup body is exactly the reversed
      production. */
  lemma {:induction false} LookupBodyReverses(p: Production)
    requires TerminalValue(Epsilon) !in p
    ensures LookupBody(p) == Reverse(p)
    decreases |p|
  {
    if p != [] {
      assert TerminalValue(Epsilon) !in p[1..] by {
        assert forall x :: x in p[1..] ==> x in p;
      }
      LookupBodyReverses(p[1..]);
    }
  }

  lemma LookupBodyFits(p: Production, width: nat)
    requires ProductionFits(p, width)
    ensures BodyFits(LookupBody(p), width)
  {
    forall i | 0 <= i < |LookupBody(p)| ensures ValueFits(LookupBody(p)[i], width) {
      var x := LookupBody(p)[i];
      assert x in p && x != TerminalValue(Epsilon);
      var k :| 0 <= k < |p| && p[k] == x;
    }
  }

  /** The `set` calls of one entry: cell (t, column) for every listed t. */
  function WriteCells(cells: seq<seq<nat>>, column: nat, ts: seq<TokenType>, index: nat): (r: seq<seq<nat>>)
    requires |cells| == TokenTypeCount && forall x :: 0 <= x < TokenTypeCount ==> column < |cells[x]|
    requires forall i :: 0 <= i < |ts| ==> ts[i] != EnumEntryCount
    ensures |r| == TokenTypeCount && forall x :: 0 <= x < TokenTypeCount ==> |r[x]| == |cells[x]|
    decreases |ts|
  {
    if ts == [] then cells
    else
      var before := WriteCells(cells, column, ts[..|ts| - 1], index);
      var row := Row(ts[|ts| - 1]);
      var written: seq<nat> := before[row][column := index];
      before[row := written]
  }

  /** A written cell holds the entry's index; every other cell is kept. */
  lemma {:induction false} WriteCellsAt(cells: seq<seq<nat>>, column: nat, ts: seq<TokenType>, index: nat, t: TokenType, y: nat)
    requires |cells| == TokenTypeCount && forall x :: 0 <= x < TokenTypeCount ==> column < |cells[x]|
    requires forall i :: 0 <= i < |ts| ==> ts[i] != EnumEntryCount
    requires t != EnumEntryCount && y < |cells[Row(t)]|
    ensures WriteCells(cells, column, ts, index)[Row(t)][y] == if y == column && t in ts then index else cells[Row(t)][y]
    decreases |ts|
  {
    if ts != [] {
      var init, last := ts[..|ts| - 1], ts[|ts| - 1];
      WriteCellsAt(cells, column, init, index, t, y);
      var before := WriteCells(cells, column, init, index);
      assert WriteCells(cells, column, ts, index) == before[Row(last) := before[Row(last)][column := index]];
      RowInjective(t, last);
      assert t in ts <==> t in init || t == last by {
        assert ts == init + [last];
      }
    }
  }

  /** Different token types have different rows. */
  lemma RowInjective(a: TokenType, b: TokenType)
    requires a != EnumEntryCount && b != EnumEntryCount
    ensures Row(a) == Row(b) <==> a == b
  {
    OrdinalBijective(a, b);
  }

  /** One init_branch_matrix_row call: a lookup entry is reserved for the
      body; an index of 255 or more throws; cell (t, variable) is set to the
      index for every listed t; the entry is dropped when no cell was set. */
  function AddEntry(t: Table, e: Entry, width: nat): (r: Result<Table>)
    requires TableShaped(t, width) && EntryFits(e, width) && ProductionFits(e.body, width)
    ensures r.Ok? ==> TableShaped(r.value, width)
    ensures r.Err? <==> |t.lookup| >= InvalidRuleReference
    ensures r.Err? ==> r.error == TooManyRuleReferences
    ensures r.Ok? ==> r.value.lookup == t.lookup + if e.terminals != [] then [LookupBody(e.body)] else []
  {
    var index := |t.lookup|;
    if index >= InvalidRuleReference then Err(TooManyRuleReferences)
    else if e.terminals == [] then Ok(t)
    else
      var cells := WriteCells(t.cells, VariableOrdinal(e.variable), e.terminals, index);
      LookupBodyFits(e.body, width);
      var r := Table(cells, t.lookup + [LookupBody(e.body)]);
      assert TableShaped(r, width) by {
        forall x, y | 0 <= x < TokenTypeCount && 0 <= y < width
          ensures r.cells[x][y] == InvalidRuleReference || r.cells[x][y] < |r.lookup|
        {
          OrdinalOfKindAt(x);
          WriteCellsAt(t.cells, VariableOrdinal(e.variable), e.terminals, index, KindAt(x), y);
        }
      }
      Ok(r)
  }

  predicate EntriesFit(es: seq<Entry>, width: nat) {
    forall i :: 0 <= i < |es| ==> EntryFits(es[i], width) && ProductionFits(es[i].body, width)
  }

  /** The row-filling calls in order, from a given table. */
  function BuildFrom(t: Table, es: seq<Entry>, width: nat): (r: Result<Table>)
    requires TableShaped(t, width) && EntriesFit(es, width)
    ensures r.Ok? ==> TableShaped(r.value, width)
    decreases |es|
  {
    if es == [] then Ok(t)
    else
      match AddEntry(t, es[0], width)
      case Err(e) => Err(e)
      case Ok(t1) => BuildFrom(t1, es[1..], width)
  }

  /** A call that succeeds leaves the rest of the calls to its table. */
  lemma BuildFromStep(t: Table, es: seq<Entry>, width: nat)
    requires TableShaped(t, width) && EntriesFit(es, width) && es != [] && AddEntry(t, es[0], width).Ok?
    ensures EntriesFit(es[1..], width)
    ensures BuildFrom(t, es, width) == BuildFrom(AddEntry(t, es[0], width).value, es[1..], width)
  {
  }

  lemma RuleEntriesFit(rules: seq<Rule>, width: nat)
    requires Tabulable(rules) && |rules| <= width
    ensures EntriesFit(RuleEntries(rules), width)
  {
    RuleEntriesFitFrom(rules, |rules|, width);
  }

  lemma {:induction false} RuleEntriesFitFrom(rules: seq<Rule>, n: nat, width: nat)
    requires Analysed(rules) && n <= width
    requires forall i :: 0 <= i < |rules| ==> RuleFits(rules[i], n)
    ensures EntriesFit(RuleEntries(rules), width)
    decreases |rules|
  {
    if rules != [] {
      RuleEntriesFitFrom(rules[1..], n, width);
      ProductionEntriesFit(rules[0].variable, rules[0].productions, rules[0].firsts, rules[0].follows, n, width);
    }
  }

  /** The part of Tabulable about one rule, for a table n wide. */
  predicate RuleFits(r: Rule, n: nat) {
    |r.firsts| == |r.productions|
    && VariableOrdinal(r.variable) < n
    && EnumEntryCount !in r.follows
    && (forall j :: 0 <= j < |r.firsts| ==> EnumEntryCount !in r.firsts[j])
    && (forall j :: 0 <= j < |r.productions| ==> ProductionFits(r.productions[j], n))
  }

  lemma {:induction false} ProductionEntriesFit(v: Variable, ps: seq<Production>, fs: seq<seq<TokenType>>, follows: seq<TokenType>, n: nat, width: nat)
    requires |fs| == |ps| && VariableOrdinal(v) < n <= width
    requires EnumEntryCount !in follows
    requires forall j :: 0 <= j < |fs| ==> EnumEntryCount !in fs[j]
    requires forall j :: 0 <= j < |ps| ==> ProductionFits(ps[j], n)
    ensures EntriesFit(ProductionEntries(v, ps, fs, follows), width)
    decreases |ps|
  {
    if ps != [] {
      ProductionEntriesFit(v, ps[1..], fs[1..], follows, n, width);
      var head := EntriesOf(v, ps[0], fs[0], follows);
      var tail := ProductionEntries(v, ps[1..], fs[1..], follows);
      assert ProductionFits(ps[0], width) by {
        assert ProductionFits(ps[0], n);
      }
      assert EntriesFit(head, width);
      forall i | 0 <= i < |head + tail|
        ensures EntryFits((head + tail)[i], width) && ProductionFits((head + tail)[i].body, width)
      {
        if i < |head| {
          assert (head + tail)[i] == head[i];
        } else {
          assert (head + tail)[i] == tail[i - |head|];
        }
      }
    }
  }

  /** The table of a list of analysed rules: init_branch_matrix. */
  function TableFor(rules: seq<Rule>): (r: Result<Table>)
    requires Tabulable(rules)
    ensures r.Ok? ==> TableShaped(r.value, |rules|)
  {
    TabulableFits(rules);
    RuleEntriesFit(rules, |rules|);
    BuildFrom(InitialTable(|rules|), RuleEntries(rules), |rules|)
  }

  lemma TabulableFits(rules: seq<Rule>)
    requires Tabulable(rules)
    ensures forall i :: 0 <= i < |rules| ==> RuleFits(rules[i], |rules|)
  {
  }

  // ------------------------------------------------------------------
  // What the finished table holds

  /** The number of entries that set at least one cell, and so keep their
      lookup entry. */
  function Kept(es: seq<Entry>): nat
    decreases |es|
  {
    if es == [] then 0 else (if es[0].terminals != [] then 1 else 0) + Kept(es[1..])
  }

  /** The bodies that stay in the lookup table, in order. */
  function KeptBodies(es: seq<Entry>): (r: seq<Production>)
    ensures |r| == Kept(es)
    decreases |es|
  {
    if es == [] then [] else (if es[0].terminals != [] then [LookupBody(es[0].body)] else []) + KeptBodies(es[1..])
  }

  /** Entry e sets cell (t, column). */
  predicate Writes(e: Entry, t: TokenType, column: nat) {
    VariableOrdinal(e.variable) == column && t in e.terminals
  }

  /** The position of the last entry that sets cell (t, column), if any. */
  function LastWriter(es: seq<Entry>, t: TokenType, column: nat): (r: Option<nat>)
    ensures r.Some? ==> r.value < |es|
    decreases |es|
  {
    if es == [] then None
    else match LastWriter(es[1..], t, column)
      case Some(i) => Some(i + 1)
      case None => if Writes(es[0], t, column) then Some(0) else None
  }

  /** LastWriter finds exactly the last writing entry. */
  lemma {:induction false} LastWriterMeaning(es: seq<Entry>, t: TokenType, column: nat)
    ensures LastWriter(es, t, column).None? <==> forall i :: 0 <= i < |es| ==> !Writes(es[i], t, column)
    ensures LastWriter(es, t, column).Some? ==>
              var i := LastWriter(es, t, column).value;
              Writes(es[i], t, column) && forall j :: i < j < |es| ==> !Writes(es[j], t, column)
    decreases |es|
  {
    if es != [] {
      LastWriterMeaning(es[1..], t, column);
      assert forall i :: 1 <= i < |es| ==> es[i] == es[1..][i - 1];
      if LastWriter(es[1..], t, column).None? {
        assert forall i :: 0 <= i < |es| && i != 0 ==> !Writes(es[i], t, column);
      }
    }
  }

  lemma KeptPrefix(es: seq<Entry>, i: nat)
    requires 0 < i <= |es|
    ensures Kept(es[..i]) == (if es[0].terminals != [] then 1 else 0) + Kept(es[1..][..i - 1])
  {
    assert es[..i][1..] == es[1..][..i - 1];
  }

  /** The row-filling calls succeed exactly when no call finds 255 or more
      kept entries before it. */
  lemma {:induction false} BuildFromSucceeds(t: Table, es: seq<Entry>, width: nat)
    requires TableShaped(t, width) && EntriesFit(es, width)
    ensures BuildFrom(t, es, width).Ok? <==> forall i :: 0 <= i < |es| ==> |t.lookup| + Kept(es[..i]) < InvalidRuleReference
    decreases |es|
  {
    if es != [] {
      assert Kept(es[..0]) == 0 by {
        assert es[..0] == [];
      }
      if |t.lookup| < InvalidRuleReference {
        var t1 := AddEntry(t, es[0], width).value;
        BuildFromSucceeds(t1, es[1..], width);
        forall i | 1 <= i <= |es| ensures |t.lookup| + Kept(es[..i]) == |t1.lookup| + Kept(es[1..][..i - 1]) {
          KeptPrefix(es, i);
        }
        assert (forall i :: 0 <= i < |es| ==> |t.lookup| + Kept(es[..i]) < InvalidRuleReference)
           <==> (forall i :: 0 <= i < |es[1..]| ==> |t1.lookup| + Kept(es[1..][..i]) < InvalidRuleReference) by {
          forall i | 0 <= i < |es[1..]| ensures |t.lookup| + Kept(es[..i + 1]) == |t1.lookup| + Kept(es[1..][..i]) {
            KeptPrefix(es, i + 1);
          }
        }
      }
    }
  }

  /** The lookup table grows by the kept bodies, in call order. */
  lemma {:induction false} BuildFromLookup(t: Table, es: seq<Entry>, width: nat)
    requires TableShaped(t, width) && EntriesFit(es, width) && BuildFrom(t, es, width).Ok?
    ensures BuildFrom(t, es, width).value.lookup == t.lookup + KeptBodies(es)
    decreases |es|
  {
    if es != [] {
      var t1 := AddEntry(t, es[0], width).value;
      BuildFromStep(t, es, width);
      BuildFromLookup(t1, es[1..], width);
      KeptBodiesStep(t.lookup, t1.lookup, BuildFrom(t, es, width).value.lookup, es);
    }
  }

  lemma KeptBodiesStep(before: seq<Production>, middle: seq<Production>, after: seq<Production>, es: seq<Entry>)
    requires es != []
    requires middle == before + if es[0].terminals != [] then [LookupBody(es[0].body)] else []
    requires after == middle + KeptBodies(es[1..])
    ensures after == before + KeptBodies(es)
  {
  }

  /** The kept body of entry i sits at its kept position. */
  lemma {:induction false} KeptBodiesAt(es: seq<Entry>, i: nat)
    requires i < |es| && es[i].terminals != []
    ensures Kept(es[..i]) < |KeptBodies(es)| && KeptBodies(es)[Kept(es[..i])] == LookupBody(es[i].body)
    decreases |es|
  {
    if i == 0 {
      assert es[..0] == [];
    } else {
      KeptBodiesAt(es[1..], i - 1);
      KeptPrefix(es, i);
    }
  }

  /** After the row-filling calls, a cell holds the kept position of the last
      entry that set it, and is otherwise as it was. */
  lemma {:induction false} BuildFromCell(t: Table, es: seq<Entry>, width: nat, tt: TokenType, y: nat)
    requires TableShaped(t, width) && EntriesFit(es, width) && BuildFrom(t, es, width).Ok?
    requires tt != EnumEntryCount && y < width
    ensures BuildFrom(t, es, width).value.cells[Row(tt)][y] ==
              match LastWriter(es, tt, y)
              case None => t.cells[Row(tt)][y]
              case Some(i) => |t.lookup| + Kept(es[..i])
    decreases |es|
  {
    if es != [] {
      var t1 := AddEntry(t, es[0], width).value;
      BuildFromStep(t, es, width);
      BuildFromCell(t1, es[1..], width, tt, y);
      if es[0].terminals != [] {
        WriteCellsAt(t.cells, VariableOrdinal(es[0].variable), es[0].terminals, |t.lookup|, tt, y);
      }
      CellAfterStep(es, tt, y, |t.lookup|, |t1.lookup|, t.cells[Row(tt)][y], t1.cells[Row(tt)][y],
                    BuildFrom(t, es, width).value.cells[Row(tt)][y]);
    }
  }

  /** One call's share of BuildFromCell, on the numbers alone: `size` and
      `size1` are the lookup sizes before and after the first call, `cell`
      and `cell1` the cell before and after it, `last` the cell at the end. */
  lemma CellAfterStep(es: seq<Entry>, tt: TokenType, y: nat, size: nat, size1: nat, cell: nat, cell1: nat, last: nat)
    requires es != []
    requires size1 == size + if es[0].terminals != [] then 1 else 0
    requires cell1 == if Writes(es[0], tt, y) then size else cell
    requires last == match LastWriter(es[1..], tt, y)
                     case None => cell1
                     case Some(i) => size1 + Kept(es[1..][..i])
    ensures last == match LastWriter(es, tt, y)
                    case None => cell
                    case Some(i) => size + Kept(es[..i])
  {
    match LastWriter(es[1..], tt, y)
    case Some(i) => {
      KeptPrefix(es, i + 1);
    }
    case None => {
      assert es[..0] == [];
    }
  }

  /** The table of the rules, cell by cell: cell (t, column) names the lookup
      entry of the last production entry for that column's variable that
      lists t, and that lookup entry is the production's reversed body
      without EPSILON; a cell no entry lists stays 255. */
  lemma TableCell(rules: seq<Rule>, tt: TokenType, y: nat)
    requires Tabulable(rules) && TableFor(rules).Ok? && tt != EnumEntryCount && y < |rules|
    ensures var t := TableFor(rules).value;
            var es := RuleEntries(rules);
            match LastWriter(es, tt, y)
            case None => t.cells[Row(tt)][y] == InvalidRuleReference
            case Some(i) => t.cells[Row(tt)][y] == Kept(es[..i]) < |t.lookup|
                            && t.lookup[Kept(es[..i])] == LookupBody(es[i].body)
  {
    TabulableFits(rules);
    RuleEntriesFit(rules, |rules|);
    var t0, es := InitialTable(|rules|), RuleEntries(rules);
    assert TableFor(rules) == BuildFrom(t0, es, |rules|);
    BuildFromCell(t0, es, |rules|, tt, y);
    BuildFromLookup(t0, es, |rules|);
    assert |t0.lookup| == 0;
    match LastWriter(es, tt, y)
    case None => {
      assert t0.cells[Row(tt)][y] == InvalidRuleReference;
    }
    case Some(i) => {
      LastWriterMeaning(es, tt, y);
      assert es[i].terminals != [];
      KeptBodiesAt(es, i);
    }
  }

  /** init_branch_matrix throws exactly when some row-filling call finds 255
      or more kept entries before it. */
  lemma TableFails(rules: seq<Rule>)
    requires Tabulable(rules)
    ensures TableFor(rules).Err? <==> exists i :: 0 <= i < |RuleEntries(rules)| && Kept(RuleEntries(rules)[..i]) >= InvalidRuleReference
    ensures TableFor(rules).Err? ==> TableFor(rules).error == TooManyRuleReferences
  {
    TabulableFits(rules);
    RuleEntriesFit(rules, |rules|);
    var t0, es := InitialTable(|rules|), RuleEntries(rules);
    assert |t0.lookup| == 0;
    assert TableFor(rules) == BuildFrom(t0, es, |rules|);
    BuildFromSucceeds(t0, es, |rules|);
    BuildFromError(t0, es, |rules|);
    if TableFor(rules).Err? {
      var i :| 0 <= i < |es| && |t0.lookup| + Kept(es[..i]) >= InvalidRuleReference;
      assert Kept(RuleEntries(rules)[..i]) >= InvalidRuleReference;
    } else {
      forall i | 0 <= i < |es| ensures Kept(es[..i]) < InvalidRuleReference {
        assert |t0.lookup| + Kept(es[..i]) < InvalidRuleReference;
      }
    }
  }

  lemma {:induction false} BuildFromError(t: Table, es: seq<Entry>, width: nat)
    requires TableShaped(t, width) && EntriesFit(es, width)
    ensures BuildFrom(t, es, width).Err? ==> BuildFrom(t, es, width).error == TooManyRuleReferences
    decreases |es|
  {
    if es != [] && AddEntry(t, es[0], width).Ok? {
      BuildFromError(AddEntry(t, es[0], width).value, es[1..], width);
    }
  }

  // ------------------------------------------------------------------
  // Filling the table

  /** init_branch_matrix_row(variable, production, terminals). */
  method InitRow(t: Table, e: Entry, width: nat) returns (r: Result<Table>)
    requires TableShaped(t, width) && EntryFits(e, width) && ProductionFits(e.body, width)
    ensures r == AddEntry(t, e, width)
  {
    var lookup := t.lookup + [[]];
    var index := |lookup| - 1;
    var body: Production := [];
    var j := |e.body|;
    while j > 0
      invariant 0 <= j <= |e.body| && body == LookupBody(e.body[j..])
      decreases j
    {
      j := j - 1;
      assert e.body[j..][1..] == e.body[j + 1..];
      if e.body[j].VariableValue? || e.body[j].terminal != Epsilon {
        body := body + [e.body[j]];
      }
    }
    assert e.body[0..] == e.body;
    lookup := lookup[index := body];
    if index >= InvalidRuleReference {
      return Err(TooManyRuleReferences);
    }
    var column := VariableOrdinal(e.variable);
    var cells := t.cells;
    var written := false;
    var k := 0;
    while k < |e.terminals|
      invariant 0 <= k <= |e.terminals|
      invariant cells == WriteCells(t.cells, column, e.terminals[..k], index)
      invariant written <==> k > 0
    {
      assert e.terminals[..k + 1][..k] == e.terminals[..k];
      var row := Row(e.terminals[k]);
      var updated: seq<nat> := cells[row][column := index];
      cells := cells[row := updated];
      written := true;
      k := k + 1;
    }
    assert e.terminals[..k] == e.terminals;
    assert body == LookupBody(e.body);
    assert lookup == t.lookup + [LookupBody(e.body)];
    assert cells == WriteCells(t.cells, column, e.terminals, index);
    if !written {
      lookup := lookup[..index];
      assert lookup == t.lookup;
    }
    r := Ok(Table(cells, lookup));
  }

  /** The calls for one production: its FIRST list, then its FOLLOW list
      when the FIRST list holds EPSILON. */
  method InitProductionRows(t: Table, v: Variable, p: Production, first: seq<TokenType>, follows: seq<TokenType>, width: nat)
    returns (r: Result<Table>)
    requires TableShaped(t, width) && VariableOrdinal(v) < width && ProductionFits(p, width)
    requires EnumEntryCount !in first && EnumEntryCount !in follows
    ensures EntriesFit(EntriesOf(v, p, first, follows), width)
    ensures r == BuildFrom(t, EntriesOf(v, p, first, follows), width)
  {
    var es := EntriesOf(v, p, first, follows);
    assert es[0] == Entry(v, p, first);
    assert EntriesFit(es, width);
    r := InitRow(t, Entry(v, p, first), width);
    if r.Err? {
      return;
    }
    var t1 := r.value;
    BuildFromStep(t, es, width);
    if ContainsEpsilon(first) {
      assert es[1..] == [Entry(v, p, follows)];
      r := InitRow(t1, Entry(v, p, follows), width);
      if r.Ok? {
        BuildFromStep(t1, es[1..], width);
      }
    } else {
      assert es[1..] == [];
    }
  }

  /** init_branch_matrix_row(rule): every production in order, with a
      second call for its FOLLOW list when its FIRST list holds EPSILON. */
  method InitRuleRows(t: Table, v: Variable, ps: seq<Production>, fs: seq<seq<TokenType>>, follows: seq<TokenType>, width: nat)
    returns (r: Result<Table>)
    requires TableShaped(t, width) && |fs| == |ps| && VariableOrdinal(v) < width
    requires EnumEntryCount !in follows
    requires forall j :: 0 <= j < |fs| ==> EnumEntryCount !in fs[j]
    requires forall j :: 0 <= j < |ps| ==> ProductionFits(ps[j], width)
    ensures EntriesFit(ProductionEntries(v, ps, fs, follows), width)
    ensures r == BuildFrom(t, ProductionEntries(v, ps, fs, follows), width)
  {
    ProductionEntriesFit(v, ps, fs, follows, width, width);
    var u := t;
    var j := 0;
    while j < |ps|
      invariant 0 <= j <= |ps| && TableShaped(u, width)
      invariant EntriesFit(ProductionEntries(v, ps[j..], fs[j..], follows), width)
      invariant BuildFrom(u, ProductionEntries(v, ps[j..], fs[j..], follows), width) == BuildFrom(t, ProductionEntries(v, ps, fs, follows), width)
    {
      assert ps[j..][1..] == ps[j + 1..] && fs[j..][1..] == fs[j + 1..];
      var head := EntriesOf(v, ps[j], fs[j], follows);
      var tail := ProductionEntries(v, ps[j + 1..], fs[j + 1..], follows);
      ProductionEntriesFit(v, ps[j + 1..], fs[j + 1..], follows, width, width);
      assert ProductionEntries(v, ps[j..], fs[j..], follows) == head + tail;
      var r1 := InitProductionRows(u, v, ps[j], fs[j], follows, width);
      BuildFromConcat(u, head, tail, width);
      if r1.Err? {
        return r1;
      }
      u := r1.value;
      j := j + 1;
    }
    assert ps[j..] == [];
    r := Ok(u);
  }

  /** init_branch_matrix: every rule in order. */
  method InitBranchMatrix(rules: seq<Rule>) returns (r: Result<Table>)
    requires Tabulable(rules)
    ensures r == TableFor(rules)
  {
    var width := |rules|;
    TabulableFits(rules);
    RuleEntriesFit(rules, width);
    var t := InitialTable(width);
    var i := 0;
    while i < |rules|
      invariant 0 <= i <= |rules| && TableShaped(t, width)
      invariant EntriesFit(RuleEntries(rules[i..]), width)
      invariant BuildFrom(t, RuleEntries(rules[i..]), width) == TableFor(rules)
    {
      assert rules[i..][1..] == rules[i + 1..];
      assert RuleFits(rules[i], width);
      var v, ps, fs, follows := rules[i].variable, rules[i].productions, rules[i].firsts, rules[i].follows;
      var rest := RuleEntries(rules[i + 1..]);
      RuleEntriesFitFrom(rules[i + 1..], width, width);
      var r1 := InitRuleRows(t, v, ps, fs, follows, width);
      BuildFromConcat(t, ProductionEntries(v, ps, fs, follows), rest, width);
      if r1.Err? {
        return r1;
      }
      t := r1.value;
      i := i + 1;
    }
    assert rules[i..] == [];
    r := Ok(t);
  }

  /** Continues a run of row-filling calls that has not failed. */
  function Then(r: Result<Table>, es: seq<Entry>, width: nat): Result<Table>
    requires r.Ok? ==> TableShaped(r.value, width)
    requires EntriesFit(es, width)
  {
    match r
    case Err(e) => Err(e)
    case Ok(t) => BuildFrom(t, es, width)
  }

  lemma {:induction false} BuildFromConcat(t: Table, a: seq<Entry>, b: seq<Entry>, width: nat)
    requires TableShaped(t, width) && EntriesFit(a, width) && EntriesFit(b, width)
    ensures EntriesFit(a + b, width)
    ensures BuildFrom(t, a + b, width) == Then(BuildFrom(t, a, width), b, width)
    decreases |a|
  {
    assert forall i :: 0 <= i < |a + b| ==> (a + b)[i] == if i < |a| then a[i] else b[i - |a|];
    if a == [] {
      assert a + b == b;
    } else {
      assert (a + b)[1..] == a[1..] + b;
      assert (a + b)[0] == a[0];
      if AddEntry(t, a[0], width).Ok? {
        BuildFromConcat(AddEntry(t, a[0], width).value, a[1..], b, width);
      }
    }
  }
}
