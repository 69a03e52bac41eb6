/** The grammar of the language and its FIRST/FOLLOW analysis. Both sets
    are computed as lists that may hold duplicates, by two worklist fixed
    points over maps keyed by the grammar's variables. A variable's hash is
    its ordinal and the maps have 256 buckets, so every map here is a
    sequence of 11 entries indexed by ordinal and is visited in ascending
    ordinal order. */
module Grammars {
  import opened Tokens
  import opened Results

  datatype Variable = Prog | Decls | Decl | Array | Statements | Statement | Exp | Exp2 | Index | OpExp | Op

  const AllVariables: seq<Variable> := [Prog, Decls, Decl, Array, Statements, Statement, Exp, Exp2, Index, OpExp, Op]
  const VariableCount: nat := 11

  /** hash<Variable>: the ordinal, which is also the variable's bucket. */
  function VariableOrdinal(v: Variable): (r: nat)
    ensures r < VariableCount && |AllVariables| == VariableCount && AllVariables[r] == v
  {
    match v
    case Prog => 0
    case Decls => 1
    case Decl => 2
    case Array => 3
    case Statements => 4
    case Statement => 5
    case Exp => 6
    case Exp2 => 7
    case Index => 8
    case OpExp => 9
    case Op => 10
  }

  /** A grammar symbol: a variable (nonterminal) or a terminal token kind. */
  datatype Value = VariableValue(variable: Variable) | TerminalValue(terminal: TokenType)

  type Production = seq<Value>

  /** A rule: its variable, its productions and, once the grammar has been
      analysed, one FIRST list per production and the FOLLOW list. */
  datatype Rule = Rule(variable: Variable, productions: seq<Production>, firsts: seq<seq<TokenType>>, follows: seq<TokenType>)

  /** Rule(variable, productions): nothing analysed yet. */
  function NewRule(v: Variable, productions: seq<Production>): Rule {
    Rule(v, productions, [], [])
  }

  function Heads(rules: seq<Rule>): (hs: seq<Variable>)
    ensures |hs| == |rules| && forall i :: 0 <= i < |rules| ==> hs[i] == rules[i].variable
  {
    seq(|rules|, i requires 0 <= i < |rules| => rules[i].variable)
  }

  /** Every variable used in a production heads a rule; the analysis looks
      every such variable up in its maps without checking that it is there. */
  ghost predicate Defined(rules: seq<Rule>) {
    forall i, p, x ::
      0 <= i < |rules| && 0 <= p < |rules[i].productions| && 0 <= x < |rules[i].productions[p]|
      && rules[i].productions[p][x].VariableValue?
      ==> rules[i].productions[p][x].variable in Heads(rules)
  }

  /** No variable heads two rules. */
  ghost predicate DistinctHeads(rules: seq<Rule>) {
    forall i, j :: 0 <= i < j < |rules| ==> rules[i].variable != rules[j].variable
  }

  /** The list without its EPSILON entries. */
  function WithoutEpsilon(ts: seq<TokenType>): (r: seq<TokenType>)
    ensures Epsilon !in r
    ensures forall t :: t in r <==> t in ts && t != Epsilon
    decreases |ts|
  {
    if ts == [] then []
    else WithoutEpsilon(ts[..|ts| - 1]) + if ts[|ts| - 1] == Epsilon then [] else [ts[|ts| - 1]]
  }

  function Concat<T>(lists: seq<seq<T>>): seq<T>
    decreases |lists|
  {
    if lists == [] then [] else Concat(lists[..|lists| - 1]) + lists[|lists| - 1]
  }

  lemma {:induction false} ConcatMember<T>(lists: seq<seq<T>>, x: T)
    ensures x in Concat(lists) <==> exists i :: 0 <= i < |lists| && x in lists[i]
    decreases |lists|
  {
    if lists != [] {
      ConcatMember(lists[..|lists| - 1], x);
      if x in Concat(lists[..|lists| - 1]) {
        var i :| 0 <= i < |lists| - 1 && x in lists[..|lists| - 1][i];
        assert x in lists[i];
      }
      if exists i :: 0 <= i < |lists| && x in lists[i] {
        var i :| 0 <= i < |lists| && x in lists[i];
        if i < |lists| - 1 {
          assert x in lists[..|lists| - 1][i];
        }
      }
    }
  }

  // ------------------------------------------------------------------
  // FIRST
  // ------------------------------------------------------------------

  /** The FIRST map: per variable ordinal, one terminal list per production. */
  type FirstTable = seq<seq<seq<TokenType>>>
  /** The unresolved map: per variable ordinal, one value list per
      production, empty once that production's FIRST is complete. */
  type PendingTable = seq<seq<seq<Value>>>

  ghost predicate Shaped(firsts: FirstTable, pending: PendingTable) {
    |firsts| == VariableCount && |pending| == VariableCount
    && forall k :: 0 <= k < VariableCount ==> |firsts[k]| == |pending[k]|
  }

  /** The index of the first terminal of the production, its length if it
      has none. */
  function FirstTerminal(p: Production): (r: nat)
    ensures r <= |p|
    ensures forall k :: 0 <= k < r ==> p[k].VariableValue?
    ensures r < |p| ==> p[r].TerminalValue?
    decreases |p|
  {
    if p == [] || p[0].TerminalValue? then 0 else 1 + FirstTerminal(p[1..])
  }

  /** The initial FIRST list of a production: its leading terminal, if it
      has one. */
  function SplitFirst(p: Production): seq<TokenType> {
    if p != [] && p[0].TerminalValue? then [p[0].terminal] else []
  }

  /** The initial unresolved list of a production: the leading variables and
      the terminal that ends them, if any. */
  function SplitPending(p: Production): seq<Value> {
    if p != [] && p[0].TerminalValue? then []
    else if FirstTerminal(p) < |p| then p[..FirstTerminal(p) + 1]
    else p
  }

  /** The inner loop of calculate_first_with_unresolved_variables for one
      production. */
  method SplitProduction(p: Production) returns (first: seq<TokenType>, pending: seq<Value>)
    ensures first == SplitFirst(p) && pending == SplitPending(p)
  {
    first, pending := [], [];
    var within := false;
    var i := 0;
    while i < |p|
      invariant 0 <= i <= |p| && i <= FirstTerminal(p)
      invariant within <==> i > 0
      invariant first == [] && pending == p[..i]
    {
      if p[i].TerminalValue? {
        if within {
          pending := pending + [p[i]];
        } else {
          first := first + [p[i].terminal];
        }
        break;
      }
      within := true;
      pending := pending + [p[i]];
      i := i + 1;
    }
  }

  /** calculate_first_with_unresolved_variables: one FIRST list and one
      unresolved list per production of a rule. */
  method SplitRule(productions: seq<Production>) returns (firsts: seq<seq<TokenType>>, pending: seq<seq<Value>>)
    ensures |firsts| == |productions| && |pending| == |productions|
    ensures forall j :: 0 <= j < |productions| ==>
              firsts[j] == SplitFirst(productions[j]) && pending[j] == SplitPending(productions[j])
  {
    firsts, pending := [], [];
    var j := 0;
    while j < |productions|
      invariant 0 <= j <= |productions|
      invariant |firsts| == j && |pending| == j
      invariant forall i :: 0 <= i < j ==> firsts[i] == SplitFirst(productions[i]) && pending[i] == SplitPending(productions[i])
    {
      var f, u := SplitProduction(productions[j]);
      firsts, pending := firsts + [f], pending + [u];
      j := j + 1;
    }
  }

  /** A production led by a terminal gets exactly that terminal as its FIRST
      and nothing to resolve; any other production keeps its leading
      variables and the terminal after them. */
  lemma SplitMeaning(p: Production)
    ensures p != [] && p[0].TerminalValue? ==> SplitFirst(p) == [p[0].terminal] && SplitPending(p) == []
    ensures !(p != [] && p[0].TerminalValue?) ==>
              SplitFirst(p) == []
              && SplitPending(p) == p[..if FirstTerminal(p) < |p| then FirstTerminal(p) + 1 else |p|]
              && forall k :: 0 <= k < |SplitPending(p)| - 1 ==> SplitPending(p)[k].VariableValue?
  {
    assert p[..|p|] == p;
  }

  /** is_resolved_variable: every production of the variable has an empty
      unresolved list. */
  predicate IsResolved(pending: PendingTable, v: Variable)
    requires |pending| == VariableCount
  {
    forall j :: 0 <= j < |pending[VariableOrdinal(v)]| ==> pending[VariableOrdinal(v)][j] == []
  }

  /** retrieve_first: the FIRST lists of all productions of the variable,
      one after the other. */
  function MergedFirst(firsts: FirstTable, v: Variable): seq<TokenType>
    requires |firsts| == VariableCount
  {
    Concat(firsts[VariableOrdinal(v)])
  }

  /** What scanning an unresolved list collects: the terminals, and whether
      EPSILON is to be kept. */
  datatype Gathered = Gathered(terminals: seq<TokenType>, includeEpsilon: bool)

  function Prepend(ts: seq<TokenType>, keep: bool, g: Option<Gathered>): Option<Gathered> {
    match g
    case None => None
    case Some(h) => Some(Gathered(ts + h.terminals, keep && h.includeEpsilon))
  }

  /** A variable that is resolved and cannot derive the empty word ends the
      scan. */
  predicate Stops(firsts: FirstTable, pending: PendingTable, x: Value)
    requires |firsts| == VariableCount && |pending| == VariableCount
  {
    x.VariableValue? && IsResolved(pending, x.variable) && Epsilon !in MergedFirst(firsts, x.variable)
  }

  /** The scan of resolve_single_production_rule: a terminal is collected
      and drops EPSILON; a resolved variable contributes its FIRST and ends
      the scan unless that holds EPSILON; an unresolved variable makes the
      whole attempt fail. */
  function Gather(firsts: FirstTable, pending: PendingTable, values: seq<Value>): Option<Gathered>
    requires |firsts| == VariableCount && |pending| == VariableCount
    decreases |values|
  {
    if values == [] then Some(Gathered([], true))
    else match values[0]
      case TerminalValue(t) => Prepend([t], false, Gather(firsts, pending, values[1..]))
      case VariableValue(v) =>
        if !IsResolved(pending, v) then None
        else if Epsilon !in MergedFirst(firsts, v) then Some(Gathered(MergedFirst(firsts, v), false))
        else Prepend(MergedFirst(firsts, v), true, Gather(firsts, pending, values[1..]))
  }

  /** resolve_single_production_rule_merge_terminals: the terminals to
      append, EPSILON removed unless it is to be kept. */
  function Resolution(firsts: FirstTable, pending: PendingTable, values: seq<Value>): Option<seq<TokenType>>
    requires |firsts| == VariableCount && |pending| == VariableCount
  {
    match Gather(firsts, pending, values)
    case None => None
    case Some(g) => Some(if g.includeEpsilon then g.terminals else WithoutEpsilon(g.terminals))
  }

  /** The scan reaches position `k` of the list: nothing before it stops it. */
  predicate Reaches(firsts: FirstTable, pending: PendingTable, values: seq<Value>, k: nat)
    requires |firsts| == VariableCount && |pending| == VariableCount && k <= |values|
  {
    forall i :: 0 <= i < k ==> !Stops(firsts, pending, values[i])
  }

  /** Every variable the scan reaches is resolved. */
  predicate ReachedResolved(firsts: FirstTable, pending: PendingTable, values: seq<Value>)
    requires |firsts| == VariableCount && |pending| == VariableCount
  {
    forall k :: 0 <= k < |values| && values[k].VariableValue? && Reaches(firsts, pending, values, k)
      ==> IsResolved(pending, values[k].variable)
  }

  lemma ReachesShift(firsts: FirstTable, pending: PendingTable, values: seq<Value>, k: nat)
    requires |firsts| == VariableCount && |pending| == VariableCount && k < |values|
    requires !Stops(firsts, pending, values[0])
    ensures Reaches(firsts, pending, values, k + 1) <==> Reaches(firsts, pending, values[1..], k)
  {
    if Reaches(firsts, pending, values[1..], k) {
      forall i | 0 <= i < k + 1 ensures !Stops(firsts, pending, values[i]) {
        if i > 0 {
          assert values[i] == values[1..][i - 1];
        }
      }
    }
    if Reaches(firsts, pending, values, k + 1) {
      forall i | 0 <= i < k ensures !Stops(firsts, pending, values[1..][i]) {
        assert values[1..][i] == values[i + 1];
      }
    }
  }

  /** Resolution succeeds exactly when every variable the scan reaches is
      resolved; the scan reaches a value when no earlier value stops it. */
  lemma {:induction false} GatherSucceeds(firsts: FirstTable, pending: PendingTable, values: seq<Value>)
    requires |firsts| == VariableCount && |pending| == VariableCount
    ensures Gather(firsts, pending, values).Some? <==> ReachedResolved(firsts, pending, values)
    decreases |values|
  {
    if values != [] {
      var rest := values[1..];
      GatherSucceeds(firsts, pending, rest);
      if Stops(firsts, pending, values[0]) {
        forall k | 0 <= k < |values| && values[k].VariableValue? && Reaches(firsts, pending, values, k)
          ensures IsResolved(pending, values[k].variable)
        {
        }
      } else if values[0].VariableValue? && !IsResolved(pending, values[0].variable) {
        assert Reaches(firsts, pending, values, 0);
      } else {
        assert Gather(firsts, pending, values).Some? <==> Gather(firsts, pending, rest).Some?;
        if ReachedResolved(firsts, pending, rest) {
          forall k | 0 <= k < |values| && values[k].VariableValue? && Reaches(firsts, pending, values, k)
            ensures IsResolved(pending, values[k].variable)
          {
            if k > 0 {
              ReachesShift(firsts, pending, values, k - 1);
              assert rest[k - 1] == values[k];
            }
          }
        } else {
          var k :| 0 <= k < |rest| && rest[k].VariableValue? && Reaches(firsts, pending, rest, k)
                     && !IsResolved(pending, rest[k].variable);
          ReachesShift(firsts, pending, values, k);
          assert values[k + 1] == rest[k];
        }
      }
    }
  }

  /** EPSILON is kept exactly when every value of the list is a variable
      whose FIRST holds EPSILON. */
  lemma {:induction false} GatherKeepsEpsilon(firsts: FirstTable, pending: PendingTable, values: seq<Value>)
    requires |firsts| == VariableCount && |pending| == VariableCount
    requires Gather(firsts, pending, values).Some?
    ensures Gather(firsts, pending, values).value.includeEpsilon <==>
              forall k :: 0 <= k < |values| ==>
                values[k].VariableValue? && Epsilon in MergedFirst(firsts, values[k].variable)
    decreases |values|
  {
    if values != [] {
      if values[0].TerminalValue? || Epsilon !in MergedFirst(firsts, values[0].variable) {
        assert !Gather(firsts, pending, values).value.includeEpsilon;
      } else {
        GatherKeepsEpsilon(firsts, pending, values[1..]);
        assert forall k :: 1 <= k < |values| ==> values[k] == values[1..][k - 1];
      }
    }
  }

  /** Every collected terminal is a terminal of the list or in the FIRST of
      one of its variables. */
  lemma {:induction false} GatherCollects(firsts: FirstTable, pending: PendingTable, values: seq<Value>, t: TokenType)
    requires |firsts| == VariableCount && |pending| == VariableCount
    requires Gather(firsts, pending, values).Some? && t in Gather(firsts, pending, values).value.terminals
    ensures exists k :: 0 <= k < |values| &&
              (values[k] == TerminalValue(t) || (values[k].VariableValue? && t in MergedFirst(firsts, values[k].variable)))
    decreases |values|
  {
    var head := match values[0] case TerminalValue(u) => [u] case VariableValue(v) => MergedFirst(firsts, v);
    if t in head {
      assert values[0] == TerminalValue(t) || (values[0].VariableValue? && t in MergedFirst(firsts, values[0].variable));
    } else {
      GatherCollects(firsts, pending, values[1..], t);
      var k :| 0 <= k < |values[1..]| &&
              (values[1..][k] == TerminalValue(t) || (values[1..][k].VariableValue? && t in MergedFirst(firsts, values[1..][k].variable)));
      assert values[k + 1] == values[1..][k];
    }
  }

  /** An unresolved list of variable `v` that starts with `v` itself. */
  predicate LeftRecursive(v: Variable, values: seq<Value>) {
    values != [] && values[0] == VariableValue(v)
  }

  lemma OrdinalOfAll(k: nat)
    requires k < VariableCount
    ensures VariableOrdinal(AllVariables[k]) == k
  {
  }

  /** A left-recursive production can never be resolved: its variable is
      not resolved while that list is non-empty. */
  lemma LeftRecursionStaysOpen(firsts: FirstTable, pending: PendingTable, v: Variable, j: nat)
    requires Shaped(firsts, pending)
    requires j < |pending[VariableOrdinal(v)]| && LeftRecursive(v, pending[VariableOrdinal(v)][j])
    ensures Resolution(firsts, pending, pending[VariableOrdinal(v)][j]).None?
  {
  }

  lemma PrependAssoc(a: seq<TokenType>, e1: bool, b: seq<TokenType>, e2: bool, g: Option<Gathered>)
    ensures Prepend(a, e1, Prepend(b, e2, g)) == Prepend(a + b, e1 && e2, g)
  {
    if g.Some? {
      assert a + (b + g.value.terminals) == (a + b) + g.value.terminals;
    }
  }

  /** resolve_single_production_rule with its collecting loop: the terminals
      to append when the list resolves, None when it does not. */
  method ResolveProduction(firsts: FirstTable, pending: PendingTable, values: seq<Value>) returns (r: Option<seq<TokenType>>)
    requires |firsts| == VariableCount && |pending| == VariableCount
    ensures r == Resolution(firsts, pending, values)
  {
    var tmp: seq<TokenType> := [];
    var includeEpsilon := true;
    var finished := false;
    var i := 0;
    assert values[0..] == values;
    assert Prepend(tmp, includeEpsilon, Gather(firsts, pending, values)) == Gather(firsts, pending, values) by {
      if Gather(firsts, pending, values).Some? {
        assert [] + Gather(firsts, pending, values).value.terminals == Gather(firsts, pending, values).value.terminals;
      }
    }
    while i < |values|
      invariant 0 <= i <= |values|
      invariant Gather(firsts, pending, values) == Prepend(tmp, includeEpsilon, Gather(firsts, pending, values[i..]))
    {
      var x := values[i];
      assert values[i..][0] == x && values[i..][1..] == values[i + 1..];
      if x.TerminalValue? {
        PrependAssoc(tmp, includeEpsilon, [x.terminal], false, Gather(firsts, pending, values[i + 1..]));
        tmp := tmp + [x.terminal];
        includeEpsilon := false;
      } else {
        if !IsResolved(pending, x.variable) {
          return None;
        }
        var f := MergedFirst(firsts, x.variable);
        if Epsilon !in f {
          finished := true;
          assert Gather(firsts, pending, values) == Some(Gathered(tmp + f, false));
          tmp := tmp + f;
          includeEpsilon := false;
          break;
        }
        PrependAssoc(tmp, includeEpsilon, f, true, Gather(firsts, pending, values[i + 1..]));
        tmp := tmp + f;
      }
      i := i + 1;
    }
    if !finished {
      assert values[i..] == [];
      assert tmp + [] == tmp;
    }
    r := Some(if includeEpsilon then tmp else WithoutEpsilon(tmp));
  }

  /** The number of non-empty lists: the measure of both fixed points. */
  function OpenRow<T>(row: seq<seq<T>>): nat
    decreases |row|
  {
    if row == [] then 0 else OpenRow(row[..|row| - 1]) + if |row[|row| - 1]| > 0 then 1 else 0
  }

  function Open<T>(table: seq<seq<seq<T>>>): nat
    decreases |table|
  {
    if table == [] then 0 else Open(table[..|table| - 1]) + OpenRow(table[|table| - 1])
  }

  lemma {:induction false} OpenRowClear<T>(row: seq<seq<T>>, j: nat)
    requires j < |row| && |row[j]| > 0
    ensures OpenRow(row[j := []]) + 1 == OpenRow(row)
    decreases |row|
  {
    var n := |row| - 1;
    if j < n {
      assert row[j := []][..n] == row[..n][j := []];
      OpenRowClear(row[..n], j);
    } else {
      assert row[j := []][..n] == row[..n];
    }
  }

  lemma {:induction false} OpenReplace<T>(table: seq<seq<seq<T>>>, k: nat, row: seq<seq<T>>)
    requires k < |table|
    ensures Open(table[k := row]) + OpenRow(table[k]) == Open(table) + OpenRow(row)
    decreases |table|
  {
    var n := |table| - 1;
    if k < n {
      assert table[k := row][..n] == table[..n][k := row];
      OpenReplace(table[..n], k, row);
    } else {
      assert table[k := row][..n] == table[..n];
    }
  }

  /** What a pass may do to the tables: resolved productions keep their
      FIRST, a production still unresolved is untouched, and a FIRST list is
      only ever extended. */
  ghost predicate Keeps(f0: FirstTable, p0: PendingTable, f1: FirstTable, p1: PendingTable)
    requires Shaped(f0, p0) && Shaped(f1, p1)
  {
    && (forall k :: 0 <= k < VariableCount ==> |p1[k]| == |p0[k]|)
    && (forall k, j :: 0 <= k < VariableCount && 0 <= j < |p0[k]| ==>
          && f0[k][j] <= f1[k][j]
          && (p0[k][j] == [] ==> p1[k][j] == [] && f1[k][j] == f0[k][j])
          && (p1[k][j] != [] ==> p1[k][j] == p0[k][j] && f1[k][j] == f0[k][j])
          && (LeftRecursive(AllVariables[k], p0[k][j]) ==> p1[k][j] == p0[k][j]))
  }

  lemma KeepsTransitive(f0: FirstTable, p0: PendingTable, f1: FirstTable, p1: PendingTable, f2: FirstTable, p2: PendingTable)
    requires Shaped(f0, p0) && Shaped(f1, p1) && Shaped(f2, p2)
    requires Keeps(f0, p0, f1, p1) && Keeps(f1, p1, f2, p2)
    ensures Keeps(f0, p0, f2, p2)
  {
    forall k, j | 0 <= k < VariableCount && 0 <= j < |p0[k]|
      ensures f0[k][j] <= f2[k][j]
    {
      assert f0[k][j] <= f1[k][j] <= f2[k][j];
    }
  }

  /** No unresolved list among the first `n` of row `k` resolves any more. */
  ghost predicate RowStableBelow(firsts: FirstTable, pending: PendingTable, k: nat, n: nat)
    requires Shaped(firsts, pending) && k < VariableCount
  {
    forall j :: 0 <= j < n && j < |pending[k]| && pending[k][j] != [] ==> Resolution(firsts, pending, pending[k][j]).None?
  }

  /** No unresolved list of row `k` resolves any more. */
  ghost predicate RowStable(firsts: FirstTable, pending: PendingTable, k: nat)
    requires Shaped(firsts, pending) && k < VariableCount
  {
    RowStableBelow(firsts, pending, k, |pending[k]|)
  }

  /** No unresolved list of the first `n` rows resolves any more. */
  ghost predicate StableBelow(firsts: FirstTable, pending: PendingTable, n: nat)
    requires Shaped(firsts, pending)
  {
    forall k :: 0 <= k < n && k < VariableCount ==> RowStable(firsts, pending, k)
  }

  /** The FIRST fixed point has been reached. */
  ghost predicate Stable(firsts: FirstTable, pending: PendingTable)
    requires Shaped(firsts, pending)
  {
    StableBelow(firsts, pending, VariableCount)
  }

  lemma StableExtend(firsts: FirstTable, pending: PendingTable, k: nat)
    requires Shaped(firsts, pending) && k < VariableCount
    requires StableBelow(firsts, pending, k) && RowStable(firsts, pending, k)
    ensures StableBelow(firsts, pending, k + 1)
  {
  }

  /** A list that resolves is not left-recursive. */
  lemma ResolvedNotLeftRecursive(f: FirstTable, p: PendingTable, k: nat, j: nat)
    requires Shaped(f, p) && k < VariableCount && j < |p[k]| && Resolution(f, p, p[k][j]).Some?
    ensures !LeftRecursive(AllVariables[k], p[k][j])
  {
    OrdinalOfAll(k);
    if LeftRecursive(AllVariables[k], p[k][j]) {
      LeftRecursionStaysOpen(f, p, AllVariables[k], j);
    }
  }

  /** Clearing one non-empty list lowers the measure by one. */
  lemma OpenClear<T>(p: seq<seq<seq<T>>>, k: nat, j: nat)
    requires k < |p| && j < |p[k]| && p[k][j] != []
    ensures Open(p[k := p[k][j := []]]) + 1 == Open(p)
  {
    OpenRowClear(p[k], j);
    OpenReplace(p, k, p[k][j := []]);
  }

  /** One resolution: the list is cleared and its terminals appended. */
  lemma ResolveOne(f0: FirstTable, p0: PendingTable, f: FirstTable, p: PendingTable, k: nat, j: nat, m: seq<TokenType>,
                   f': FirstTable, p': PendingTable)
    requires Shaped(f0, p0) && Shaped(f, p) && Keeps(f0, p0, f, p)
    requires k < VariableCount && j < |p[k]| && p[k][j] != [] && !LeftRecursive(AllVariables[k], p[k][j])
    requires f' == f[k := f[k][j := f[k][j] + m]] && p' == p[k := p[k][j := []]]
    ensures Shaped(f', p') && Keeps(f0, p0, f', p')
  {
    forall k', j' | 0 <= k' < VariableCount && 0 <= j' < |p0[k']|
      ensures f0[k'][j'] <= f'[k'][j']
      ensures p0[k'][j'] == [] ==> p'[k'][j'] == [] && f'[k'][j'] == f0[k'][j']
      ensures p'[k'][j'] != [] ==> p'[k'][j'] == p0[k'][j'] && f'[k'][j'] == f0[k'][j']
      ensures LeftRecursive(AllVariables[k'], p0[k'][j']) ==> p'[k'][j'] == p0[k'][j']
    {
      if k' == k && j' == j {
        assert p0[k][j] == p[k][j] && f0[k][j] == f[k][j];
        assert f'[k][j] == f[k][j] + m && p'[k][j] == [];
      } else {
        assert f'[k'][j'] == f[k'][j'] && p'[k'][j'] == p[k'][j'];
      }
    }
  }

  /** One step of the inner loop of calculate_firsts_resolve_variables: the
      unresolved list `j` of row `k`, if it resolves, is cleared and its
      terminals appended to the production's FIRST. */
  method ResolveEntry(firsts: FirstTable, pending: PendingTable, k: nat, j: nat) returns (f: FirstTable, p: PendingTable, resolved: bool)
    requires Shaped(firsts, pending) && k < VariableCount && j < |pending[k]|
    ensures Shaped(f, p) && Keeps(firsts, pending, f, p)
    ensures resolved ==> Open(p) + 1 == Open(pending)
    ensures !resolved ==> f == firsts && p == pending
    ensures !resolved && pending[k][j] != [] ==> Resolution(firsts, pending, pending[k][j]).None?
  {
    f, p, resolved := firsts, pending, false;
    if pending[k][j] != [] {
      var r := ResolveProduction(firsts, pending, pending[k][j]);
      if r.Some? {
        f, p := firsts[k := firsts[k][j := firsts[k][j] + r.value]], pending[k := pending[k][j := []]];
        KeepsReflexive(firsts, pending);
        ResolvedNotLeftRecursive(firsts, pending, k, j);
        ResolveOne(firsts, pending, firsts, pending, k, j, r.value, f, p);
        OpenClear(pending, k, j);
        resolved := true;
      }
    }
  }

  lemma RowStableExtend(firsts: FirstTable, pending: PendingTable, k: nat, j: nat)
    requires Shaped(firsts, pending) && k < VariableCount && j < |pending[k]|
    requires RowStableBelow(firsts, pending, k, j)
    requires pending[k][j] != [] ==> Resolution(firsts, pending, pending[k][j]).None?
    ensures RowStableBelow(firsts, pending, k, j + 1)
  {
  }

  lemma KeepsReflexive(f: FirstTable, p: PendingTable)
    requires Shaped(f, p)
    ensures Keeps(f, p, f, p)
  {
  }

  /** The inner loop of calculate_firsts_resolve_variables over the
      productions of the variable with ordinal `k`; the tables are updated
      in place, so later productions see earlier resolutions. */
  method ResolveRow(firsts: FirstTable, pending: PendingTable, k: nat) returns (f: FirstTable, p: PendingTable, progress: bool)
    requires Shaped(firsts, pending) && k < VariableCount
    ensures Shaped(f, p) && Keeps(firsts, pending, f, p)
    ensures Open(p) + (if progress then 1 else 0) <= Open(pending)
    ensures !progress ==> f == firsts && p == pending && RowStable(firsts, pending, k)
  {
    f, p, progress := firsts, pending, false;
    KeepsReflexive(f, p);
    var n := |pending[k]|;
    var j := 0;
    while j < n
      invariant Shaped(f, p) && Keeps(firsts, pending, f, p)
      invariant 0 <= j <= n && |p[k]| == n
      invariant Open(p) + (if progress then 1 else 0) <= Open(pending)
      invariant !progress ==> f == firsts && p == pending && RowStableBelow(f, p, k, j)
    {
      var f', p', resolved := ResolveEntry(f, p, k, j);
      KeepsTransitive(firsts, pending, f, p, f', p');
      if !progress && !resolved {
        RowStableExtend(f, p, k, j);
      }
      f, p := f', p';
      progress := progress || resolved;
      j := j + 1;
    }
  }

  /** One pass of the do-while loop of calculate_firsts_resolve_variables:
      every variable in ascending ordinal order. */
  method FirstsPass(firsts: FirstTable, pending: PendingTable) returns (f: FirstTable, p: PendingTable, progress: bool)
    requires Shaped(firsts, pending)
    ensures Shaped(f, p) && Keeps(firsts, pending, f, p)
    ensures Open(p) + (if progress then 1 else 0) <= Open(pending)
    ensures !progress ==> f == firsts && p == pending && Stable(firsts, pending)
  {
    f, p, progress := firsts, pending, false;
    var k := 0;
    while k < VariableCount
      invariant Shaped(f, p) && Keeps(firsts, pending, f, p)
      invariant 0 <= k <= VariableCount
      invariant Open(p) + (if progress then 1 else 0) <= Open(pending)
      invariant !progress ==> f == firsts && p == pending && StableBelow(f, p, k)
    {
      var f', p', rowProgress := ResolveRow(f, p, k);
      KeepsTransitive(firsts, pending, f, p, f', p');
      if !progress && !rowProgress {
        StableExtend(f, p, k);
      }
      f, p := f', p';
      progress := progress || rowProgress;
      k := k + 1;
    }
  }

  /** calculate_firsts_resolve_variables: passes until one resolves nothing.
      Each resolution empties one list, so the loop ends; what is left is a
      fixed point, and whatever was resolved before keeps its FIRST. */
  method ResolveFirsts(firsts: FirstTable, pending: PendingTable) returns (f: FirstTable, p: PendingTable)
    requires Shaped(firsts, pending)
    ensures Shaped(f, p) && Keeps(firsts, pending, f, p)
    ensures Stable(f, p)
  {
    f, p := firsts, pending;
    var progress := true;
    while progress
      invariant Shaped(f, p) && Keeps(firsts, pending, f, p)
      invariant !progress ==> Stable(f, p)
      decreases Open(p) + if progress then 1 else 0
    {
      var f', p', passProgress := FirstsPass(f, p);
      KeepsTransitive(firsts, pending, f, p, f', p');
      f, p, progress := f', p', passProgress;
    }
  }

  lemma OrdinalInjective(a: Variable, b: Variable)
    ensures VariableOrdinal(a) == VariableOrdinal(b) ==> a == b
  {
  }

  function SplitFirsts(productions: seq<Production>): seq<seq<TokenType>> {
    seq(|productions|, j requires 0 <= j < |productions| => SplitFirst(productions[j]))
  }

  function SplitPendings(productions: seq<Production>): seq<seq<Value>> {
    seq(|productions|, j requires 0 <= j < |productions| => SplitPending(productions[j]))
  }

  /** The FIRST map calculate_firsts fills before resolving: each rule's
      split lists are appended to its variable's entry, so a second rule for
      the same variable would add to the entry of the first. */
  function InitialFirsts(rules: seq<Rule>): (r: FirstTable)
    ensures |r| == VariableCount
    decreases |rules|
  {
    if rules == [] then seq(VariableCount, k => [])
    else
      var t := InitialFirsts(rules[..|rules| - 1]);
      var k := VariableOrdinal(rules[|rules| - 1].variable);
      t[k := t[k] + SplitFirsts(rules[|rules| - 1].productions)]
  }

  /** The unresolved map calculate_firsts fills before resolving. */
  function InitialPending(rules: seq<Rule>): (r: PendingTable)
    ensures |r| == VariableCount
    decreases |rules|
  {
    if rules == [] then seq(VariableCount, k => [])
    else
      var t := InitialPending(rules[..|rules| - 1]);
      var k := VariableOrdinal(rules[|rules| - 1].variable);
      t[k := t[k] + SplitPendings(rules[|rules| - 1].productions)]
  }

  lemma {:induction false} InitialShaped(rules: seq<Rule>)
    ensures Shaped(InitialFirsts(rules), InitialPending(rules))
    decreases |rules|
  {
    if rules != [] {
      InitialShaped(rules[..|rules| - 1]);
    }
  }

  /** A variable heading none of the rules has an empty entry. */
  lemma {:induction false} InitialAbsent(rules: seq<Rule>, v: Variable)
    requires forall i :: 0 <= i < |rules| ==> rules[i].variable != v
    ensures InitialFirsts(rules)[VariableOrdinal(v)] == [] && InitialPending(rules)[VariableOrdinal(v)] == []
    decreases |rules|
  {
    if rules != [] {
      InitialAbsent(rules[..|rules| - 1], v);
      OrdinalInjective(rules[|rules| - 1].variable, v);
    }
  }

  /** With distinct heads, a rule's entries are exactly its split lists. */
  lemma {:induction false} InitialRow(rules: seq<Rule>, i: nat)
    requires DistinctHeads(rules) && i < |rules|
    ensures InitialFirsts(rules)[VariableOrdinal(rules[i].variable)] == SplitFirsts(rules[i].productions)
    ensures InitialPending(rules)[VariableOrdinal(rules[i].variable)] == SplitPendings(rules[i].productions)
    decreases |rules|
  {
    var n := |rules| - 1;
    var init := rules[..n];
    OrdinalInjective(rules[n].variable, rules[i].variable);
    if i == n {
      InitialAbsent(init, rules[n].variable);
    } else {
      InitialRow(init, i);
    }
  }

  /** calculate_firsts: the two maps are filled rule by rule, resolved, and
      every rule receives the FIRST entry of its variable. The result is a
      fixed point reached from the initial maps by appending only. */
  method CalculateFirsts(rules: seq<Rule>) returns (analysed: seq<Rule>, firsts: FirstTable, pending: PendingTable)
    requires Defined(rules)
    ensures Shaped(firsts, pending) && Stable(firsts, pending)
    ensures |analysed| == |rules|
    ensures forall i :: 0 <= i < |rules| ==> analysed[i] == rules[i].(firsts := firsts[VariableOrdinal(rules[i].variable)])
    ensures Shaped(InitialFirsts(rules), InitialPending(rules))
    ensures Keeps(InitialFirsts(rules), InitialPending(rules), firsts, pending)
  {
    var f0, p0 := SplitRules(rules);
    InitialShaped(rules);
    firsts, pending := ResolveFirsts(f0, p0);
    analysed := AssignEntries(rules, firsts, (r: Rule, f: seq<seq<TokenType>>) => r.(firsts := f));
  }

  /** The first loop of calculate_firsts. */
  method SplitRules(rules: seq<Rule>) returns (firsts: FirstTable, pending: PendingTable)
    ensures firsts == InitialFirsts(rules) && pending == InitialPending(rules)
  {
    firsts, pending := seq(VariableCount, k => []), seq(VariableCount, k => []);
    var i := 0;
    while i < |rules|
      invariant 0 <= i <= |rules|
      invariant firsts == InitialFirsts(rules[..i]) && pending == InitialPending(rules[..i])
    {
      var fs, ps := SplitRule(rules[i].productions);
      var k := VariableOrdinal(rules[i].variable);
      firsts := firsts[k := firsts[k] + fs];
      pending := pending[k := pending[k] + ps];
      assert fs == SplitFirsts(rules[i].productions) && ps == SplitPendings(rules[i].productions);
      assert rules[..i + 1][..i] == rules[..i] && rules[..i + 1][i] == rules[i];
      i := i + 1;
    }
    assert rules[..|rules|] == rules;
  }

  /** The last loop of calculate_firsts and of calculate_follows: every
      rule receives, through `attach`, the table entry of its variable; the
      rules keep their order and nothing else of them changes. */
  method AssignEntries<X>(rules: seq<Rule>, table: seq<X>, attach: (Rule, X) -> Rule) returns (analysed: seq<Rule>)
    requires |table| == VariableCount
    ensures |analysed| == |rules|
    ensures forall i :: 0 <= i < |rules| ==> analysed[i] == attach(rules[i], table[VariableOrdinal(rules[i].variable)])
  {
    analysed := rules;
    var i := 0;
    while i < |rules|
      invariant 0 <= i <= |rules| && |analysed| == |rules|
      invariant forall n :: 0 <= n < i ==> analysed[n] == attach(rules[n], table[VariableOrdinal(rules[n].variable)])
      invariant forall n :: i <= n < |rules| ==> analysed[n] == rules[n]
    {
      analysed := analysed[i := attach(rules[i], table[VariableOrdinal(rules[i].variable)])];
      i := i + 1;
    }
  }

  /** After calculate_firsts, each rule of a grammar with distinct heads has
      one FIRST list per production, and a production led by a terminal has
      exactly that terminal as its FIRST. */
  lemma TerminalLedFirst(rules: seq<Rule>, firsts: FirstTable, pending: PendingTable, i: nat, j: nat)
    requires DistinctHeads(rules) && Shaped(firsts, pending) && Shaped(InitialFirsts(rules), InitialPending(rules))
    requires Keeps(InitialFirsts(rules), InitialPending(rules), firsts, pending)
    requires i < |rules| && j < |rules[i].productions|
    ensures |firsts[VariableOrdinal(rules[i].variable)]| == |rules[i].productions|
    ensures rules[i].productions[j] != [] && rules[i].productions[j][0].TerminalValue? ==>
              firsts[VariableOrdinal(rules[i].variable)][j] == [rules[i].productions[j][0].terminal]
  {
    InitialRow(rules, i);
    SplitMeaning(rules[i].productions[j]);
  }

  /** A left-recursive production is still unresolved after calculate_firsts:
      an unresolved leftover is how a left-recursive grammar shows. */
  lemma LeftRecursionLeftOver(rules: seq<Rule>, firsts: FirstTable, pending: PendingTable, i: nat, j: nat)
    requires DistinctHeads(rules) && Shaped(firsts, pending) && Shaped(InitialFirsts(rules), InitialPending(rules))
    requires Keeps(InitialFirsts(rules), InitialPending(rules), firsts, pending)
    requires i < |rules| && j < |rules[i].productions|
    requires rules[i].productions[j] != [] && rules[i].productions[j][0] == VariableValue(rules[i].variable)
    ensures |pending[VariableOrdinal(rules[i].variable)]| == |rules[i].productions|
    ensures pending[VariableOrdinal(rules[i].variable)][j] == SplitPending(rules[i].productions[j]) != []
  {
    var p := rules[i].productions[j];
    InitialRow(rules, i);
    SplitMeaning(p);
    OrdinalOfAll(VariableOrdinal(rules[i].variable));
    assert SplitPending(p)[0] == p[0];
  }

  // ------------------------------------------------------------------
  // FOLLOW
  // ------------------------------------------------------------------

  /** The FOLLOW map: per variable ordinal, a terminal list. */
  type FollowTable = seq<seq<TokenType>>
  /** The unresolved FOLLOW map: per variable ordinal, the variables whose
      FOLLOW must still be appended to it. */
  type DependencyTable = seq<seq<Variable>>

  /** The filtering loops of add_firsts_of_variable_to_follows and
      resolve_single_production_rule_merge_terminals. */
  method DropEpsilon(ts: seq<TokenType>) returns (r: seq<TokenType>)
    ensures r == WithoutEpsilon(ts)
  {
    r := [];
    var i := 0;
    while i < |ts|
      invariant 0 <= i <= |ts| && r == WithoutEpsilon(ts[..i])
    {
      assert ts[..i + 1][..i] == ts[..i];
      if ts[i] != Epsilon {
        r := r + [ts[i]];
      }
      i := i + 1;
    }
    assert ts[..|ts|] == ts;
  }

  /** The list `ts` repeated `n` times. */
  function Repeat<T>(ts: seq<T>, n: nat): seq<T> {
    if n == 0 then [] else Repeat(ts, n - 1) + ts
  }

  /** How often a variable with ordinal `k` occurs in `vs`. */
  function Occurrences(vs: seq<Variable>, k: nat): nat
    decreases |vs|
  {
    if vs == [] then 0 else Occurrences(vs[..|vs| - 1], k) + if VariableOrdinal(vs[|vs| - 1]) == k then 1 else 0
  }

  /** add_terminal_to_follows and add_firsts_of_variable_to_follows: `ts`
      appended to the FOLLOW of every entry of the processing list, in
      order. */
  function AppendTo(follows: FollowTable, targets: seq<Variable>, ts: seq<TokenType>): (r: FollowTable)
    requires |follows| == VariableCount
    ensures |r| == VariableCount
    decreases |targets|
  {
    if targets == [] then follows
    else
      var f := AppendTo(follows, targets[..|targets| - 1], ts);
      var k := VariableOrdinal(targets[|targets| - 1]);
      f[k := f[k] + ts]
  }

  /** Every FOLLOW entry gains `ts` once per occurrence of its variable in
      the processing list; a variable listed twice gets `ts` twice. */
  lemma {:induction false} AppendToMeaning(follows: FollowTable, targets: seq<Variable>, ts: seq<TokenType>, k: nat)
    requires |follows| == VariableCount && k < VariableCount
    ensures AppendTo(follows, targets, ts)[k] == follows[k] + Repeat(ts, Occurrences(targets, k))
    decreases |targets|
  {
    if targets != [] {
      var init := targets[..|targets| - 1];
      AppendToMeaning(follows, init, ts, k);
      if VariableOrdinal(targets[|targets| - 1]) == k {
        assert follows[k] + Repeat(ts, Occurrences(init, k)) + ts == follows[k] + (Repeat(ts, Occurrences(init, k)) + ts);
      }
    }
  }

  lemma RepeatHolds<T>(ts: seq<T>, n: nat, x: T)
    requires n > 0 && x in ts
    ensures x in Repeat(ts, n)
  {
  }

  lemma {:induction false} RepeatWithin<T>(ts: seq<T>, n: nat, x: T)
    requires x in Repeat(ts, n)
    ensures x in ts
  {
    if n > 0 && x !in Repeat(ts, n - 1) {
    } else {
      RepeatWithin(ts, n - 1, x);
    }
  }

  lemma {:induction false} OccursLast(vs: seq<Variable>, v: Variable)
    requires vs != [] && vs[|vs| - 1] == v
    ensures Occurrences(vs, VariableOrdinal(v)) > 0
  {
  }

  /** The FOLLOW map and the processing list while a production is scanned. */
  datatype Scan = Scan(follows: FollowTable, processing: seq<Variable>)

  /** One value of collect_follows_for_single_production_rule: a terminal
      is appended to every variable being processed and ends their
      processing; a variable's FIRST without EPSILON is appended to them,
      their processing ends unless that FIRST holds EPSILON, and the
      variable itself is processed from then on. */
  function ScanValue(firsts: FirstTable, s: Scan, x: Value): (r: Scan)
    requires |firsts| == VariableCount && |s.follows| == VariableCount
    ensures |r.follows| == VariableCount
  {
    match x
    case TerminalValue(t) => Scan(AppendTo(s.follows, s.processing, [t]), [])
    case VariableValue(y) =>
      var fy := MergedFirst(firsts, y);
      Scan(AppendTo(s.follows, s.processing, WithoutEpsilon(fy)), (if Epsilon in fy then s.processing else []) + [y])
  }

  function ScanValues(firsts: FirstTable, s: Scan, p: seq<Value>): (r: Scan)
    requires |firsts| == VariableCount && |s.follows| == VariableCount
    ensures |r.follows| == VariableCount
    decreases |p|
  {
    if p == [] then s else ScanValue(firsts, ScanValues(firsts, s, p[..|p| - 1]), p[|p| - 1])
  }

  /** add_variable_as_unresolved_follow: every processed variable other
      than the rule's own depends on the rule's variable. */
  function AddDependencies(deps: DependencyTable, a: Variable, processing: seq<Variable>): (r: DependencyTable)
    requires |deps| == VariableCount
    ensures |r| == VariableCount
    decreases |processing|
  {
    if processing == [] then deps
    else
      var d := AddDependencies(deps, a, processing[..|processing| - 1]);
      var e := processing[|processing| - 1];
      if e == a then d else d[VariableOrdinal(e) := d[VariableOrdinal(e)] + [a]]
  }

  /** collect_follows_for_single_production_rule. */
  method CollectFollows(firsts: FirstTable, follows: FollowTable, deps: DependencyTable, a: Variable, p: Production)
    returns (follows': FollowTable, deps': DependencyTable)
    requires |firsts| == VariableCount && |follows| == VariableCount && |deps| == VariableCount
    ensures follows' == ScanValues(firsts, Scan(follows, []), p).follows
    ensures deps' == AddDependencies(deps, a, ScanValues(firsts, Scan(follows, []), p).processing)
  {
    follows' := follows;
    var processing: seq<Variable> := [];
    var i := 0;
    while i < |p|
      invariant 0 <= i <= |p| && Scan(follows', processing) == ScanValues(firsts, Scan(follows, []), p[..i])
    {
      assert p[..i + 1][..i] == p[..i];
      match p[i] {
        case TerminalValue(t) =>
          follows' := AddToFollows(follows', processing, [t]);
          processing := [];
        case VariableValue(y) =>
          var fy := MergedFirst(firsts, y);
          var ts := DropEpsilon(fy);
          follows' := AddToFollows(follows', processing, ts);
          if Epsilon !in fy {
            processing := [];
          }
          processing := processing + [y];
      }
      i := i + 1;
    }
    assert p[..|p|] == p;
    deps' := AddDependency(deps, a, processing);
  }

  method AddToFollows(follows: FollowTable, targets: seq<Variable>, ts: seq<TokenType>) returns (r: FollowTable)
    requires |follows| == VariableCount
    ensures r == AppendTo(follows, targets, ts)
  {
    r := follows;
    var i := 0;
    while i < |targets|
      invariant 0 <= i <= |targets| && r == AppendTo(follows, targets[..i], ts)
    {
      assert targets[..i + 1][..i] == targets[..i];
      var k := VariableOrdinal(targets[i]);
      r := r[k := r[k] + ts];
      i := i + 1;
    }
    assert targets[..|targets|] == targets;
  }

  method AddDependency(deps: DependencyTable, a: Variable, processing: seq<Variable>) returns (r: DependencyTable)
    requires |deps| == VariableCount
    ensures r == AddDependencies(deps, a, processing)
  {
    r := deps;
    var i := 0;
    while i < |processing|
      invariant 0 <= i <= |processing| && r == AddDependencies(deps, a, processing[..i])
    {
      assert processing[..i + 1][..i] == processing[..i];
      if processing[i] != a {
        var k := VariableOrdinal(processing[i]);
        r := r[k := r[k] + [a]];
      }
      i := i + 1;
    }
    assert processing[..|processing|] == processing;
  }

  /** A FOLLOW entry is only ever extended by a scan. */
  /** One scanned value only extends the FOLLOW entries. */
  lemma ScanValueGrows(firsts: FirstTable, s: Scan, x: Value, k: nat)
    requires |firsts| == VariableCount && |s.follows| == VariableCount && k < VariableCount
    ensures s.follows[k] <= ScanValue(firsts, s, x).follows[k]
  {
    match x
    case TerminalValue(t) => AppendToMeaning(s.follows, s.processing, [t], k);
    case VariableValue(y) => AppendToMeaning(s.follows, s.processing, WithoutEpsilon(MergedFirst(firsts, y)), k);
  }

  /** Scanning the rest of a production after a prefix only extends the
      FOLLOW entries. */
  lemma {:induction false} ScanPrefixGrows(firsts: FirstTable, s: Scan, p: seq<Value>, m: nat, k: nat)
    requires |firsts| == VariableCount && |s.follows| == VariableCount && k < VariableCount && m <= |p|
    ensures ScanValues(firsts, s, p[..m]).follows[k] <= ScanValues(firsts, s, p).follows[k]
    decreases |p|
  {
    if m == |p| {
      assert p[..m] == p;
    } else {
      var n := |p| - 1;
      ScanPrefixGrows(firsts, s, p[..n], m, k);
      assert p[..n][..m] == p[..m];
      var mid := ScanValues(firsts, s, p[..n]);
      ScanValueGrows(firsts, mid, p[n], k);
      assert ScanValues(firsts, s, p) == ScanValue(firsts, mid, p[n]);
    }
  }

  /** A FOLLOW entry is only ever extended by a scan. */
  lemma ScanGrows(firsts: FirstTable, s: Scan, p: seq<Value>, k: nat)
    requires |firsts| == VariableCount && |s.follows| == VariableCount && k < VariableCount
    ensures s.follows[k] <= ScanValues(firsts, s, p).follows[k]
  {
    ScanPrefixGrows(firsts, s, p, 0, k);
    assert p[..0] == [];
  }

  /** The scan of `p` up to and including position `i`. */
  lemma ScanPrefixStep(firsts: FirstTable, s: Scan, p: seq<Value>, i: nat)
    requires |firsts| == VariableCount && |s.follows| == VariableCount && i < |p|
    ensures ScanValues(firsts, s, p[..i + 1]) == ScanValue(firsts, ScanValues(firsts, s, p[..i]), p[i])
  {
    assert p[..i + 1][..i] == p[..i];
  }

  /** What FOLLOW(Y) gains when a value comes directly after Y: the
      terminal itself, or the FIRST of the variable without EPSILON. */
  function Successors(firsts: FirstTable, x: Value): seq<TokenType>
    requires |firsts| == VariableCount
  {
    match x
    case TerminalValue(t) => [t]
    case VariableValue(z) => WithoutEpsilon(MergedFirst(firsts, z))
  }

  /** A terminal that directly follows a variable in a production, or that
      is in the FIRST of the variable directly after it (EPSILON aside), is
      in that variable's FOLLOW once the production has been scanned. */
  lemma DirectFollower(firsts: FirstTable, s: Scan, p: seq<Value>, i: nat, t: TokenType)
    requires |firsts| == VariableCount && |s.follows| == VariableCount
    requires i + 1 < |p| && p[i].VariableValue? && t in Successors(firsts, p[i + 1])
    ensures t in ScanValues(firsts, s, p).follows[VariableOrdinal(p[i].variable)]
  {
    var y := p[i].variable;
    var k := VariableOrdinal(y);
    ScanPrefixStep(firsts, s, p, i);
    ScanPrefixStep(firsts, s, p, i + 1);
    var s1 := ScanValues(firsts, s, p[..i + 1]);
    assert s1.processing[|s1.processing| - 1] == y;
    OccursLast(s1.processing, y);
    AppendToMeaning(s1.follows, s1.processing, Successors(firsts, p[i + 1]), k);
    RepeatHolds(Successors(firsts, p[i + 1]), Occurrences(s1.processing, k), t);
    var s2 := ScanValues(firsts, s, p[..i + 2]);
    assert t in s2.follows[k];
    ScanPrefixGrows(firsts, s, p, i + 2, k);
  }

  /** A variable followed only by variables whose FIRST holds EPSILON is
      still being processed at the end of the production. */
  lemma {:induction false} TrailingProcessed(firsts: FirstTable, s: Scan, p: seq<Value>, i: nat)
    requires |firsts| == VariableCount && |s.follows| == VariableCount
    requires i < |p| && p[i].VariableValue?
    requires forall j :: i < j < |p| ==> p[j].VariableValue? && Epsilon in MergedFirst(firsts, p[j].variable)
    ensures p[i].variable in ScanValues(firsts, s, p).processing
    decreases |p|
  {
    var n := |p| - 1;
    if i < n {
      TrailingProcessed(firsts, s, p[..n], i);
    }
  }

  lemma {:induction false} DependencyRecorded(deps: DependencyTable, a: Variable, processing: seq<Variable>, y: Variable)
    requires |deps| == VariableCount && y in processing && y != a
    ensures a in AddDependencies(deps, a, processing)[VariableOrdinal(y)]
    decreases |processing|
  {
    var n := |processing| - 1;
    if processing[n] != y {
      assert y in processing[..n];
      DependencyRecorded(deps, a, processing[..n], y);
    }
  }

  lemma {:induction false} DependenciesGrow(deps: DependencyTable, a: Variable, processing: seq<Variable>, k: nat)
    requires |deps| == VariableCount && k < VariableCount
    ensures deps[k] <= AddDependencies(deps, a, processing)[k]
    decreases |processing|
  {
    if processing != [] {
      DependenciesGrow(deps, a, processing[..|processing| - 1], k);
    }
  }

  /** A variable at the end of a production of `a`, or followed only by
      variables whose FIRST holds EPSILON, depends on `a`: FOLLOW(a) is to
      be appended to its FOLLOW. */
  lemma TrailingDependency(firsts: FirstTable, follows: FollowTable, deps: DependencyTable, a: Variable, p: Production, i: nat)
    requires |firsts| == VariableCount && |follows| == VariableCount && |deps| == VariableCount
    requires i < |p| && p[i].VariableValue? && p[i].variable != a
    requires forall j :: i < j < |p| ==> p[j].VariableValue? && Epsilon in MergedFirst(firsts, p[j].variable)
    ensures a in AddDependencies(deps, a, ScanValues(firsts, Scan(follows, []), p).processing)[VariableOrdinal(p[i].variable)]
  {
    TrailingProcessed(firsts, Scan(follows, []), p, i);
    DependencyRecorded(deps, a, ScanValues(firsts, Scan(follows, []), p).processing, p[i].variable);
  }

  /** is_resolved_variable for FOLLOW: asked on behalf of `origin`, the
      variable `x` has nothing left to wait for, or waits only for `origin`
      itself. */
  predicate Satisfied(deps: DependencyTable, origin: Variable, x: Variable)
    requires |deps| == VariableCount
  {
    |deps[VariableOrdinal(x)]| == 0 || (|deps[VariableOrdinal(x)]| == 1 && deps[VariableOrdinal(x)][0] == origin)
  }

  /** The FOLLOW entries of `xs`, one after the other. */
  function FollowsOf(follows: FollowTable, xs: seq<Variable>): seq<TokenType>
    requires |follows| == VariableCount
    decreases |xs|
  {
    if xs == [] then [] else FollowsOf(follows, xs[..|xs| - 1]) + follows[VariableOrdinal(xs[|xs| - 1])]
  }

  /** `t` is in the FOLLOW entry of `x`. */
  predicate InFollow(follows: FollowTable, x: Variable, t: TokenType)
    requires |follows| == VariableCount
  {
    t in follows[VariableOrdinal(x)]
  }

  lemma {:induction false} FollowsOfMember(follows: FollowTable, xs: seq<Variable>, t: TokenType)
    requires |follows| == VariableCount
    ensures t in FollowsOf(follows, xs) <==> exists i :: 0 <= i < |xs| && InFollow(follows, xs[i], t)
    decreases |xs|
  {
    if xs != [] {
      var n := |xs| - 1;
      var init := xs[..n];
      FollowsOfMember(follows, init, t);
      assert FollowsOf(follows, xs) == FollowsOf(follows, init) + follows[VariableOrdinal(xs[n])];
      if t in FollowsOf(follows, init) {
        var i :| 0 <= i < n && InFollow(follows, init[i], t);
        assert init[i] == xs[i];
        assert InFollow(follows, xs[i], t);
      } else if t in follows[VariableOrdinal(xs[n])] {
        assert InFollow(follows, xs[n], t);
      } else {
        forall i | 0 <= i < |xs| ensures !InFollow(follows, xs[i], t) {
          if i < n {
            assert init[i] == xs[i];
          }
        }
      }
    }
  }

  /** resolve_single_follow: when every variable `b` waits for is
      satisfied, the FOLLOW entries of all of them, in order; otherwise
      nothing. */
  function FollowResolution(follows: FollowTable, deps: DependencyTable, b: Variable): Option<seq<TokenType>>
    requires |follows| == VariableCount && |deps| == VariableCount
  {
    if forall i :: 0 <= i < |deps[VariableOrdinal(b)]| ==> Satisfied(deps, b, deps[VariableOrdinal(b)][i])
    then Some(FollowsOf(follows, deps[VariableOrdinal(b)]))
    else None
  }

  /** A resolution hands over exactly the terminals of the FOLLOW entries of
      the variables waited for. */
  lemma FollowResolutionCollects(follows: FollowTable, deps: DependencyTable, b: Variable, t: TokenType)
    requires |follows| == VariableCount && |deps| == VariableCount
    requires FollowResolution(follows, deps, b).Some?
    ensures t in FollowResolution(follows, deps, b).value <==>
              exists i :: 0 <= i < |deps[VariableOrdinal(b)]| && InFollow(follows, deps[VariableOrdinal(b)][i], t)
  {
    FollowsOfMember(follows, deps[VariableOrdinal(b)], t);
  }

  /** Two variables waiting only for each other do not block each other:
      the first one asked takes the other's FOLLOW as it stands. */
  lemma MutualDependencyResolves(follows: FollowTable, deps: DependencyTable, b: Variable, c: Variable)
    requires |follows| == VariableCount && |deps| == VariableCount
    requires deps[VariableOrdinal(b)] == [c] && deps[VariableOrdinal(c)] == [b]
    ensures FollowResolution(follows, deps, b) == Some(follows[VariableOrdinal(c)])
  {
    assert [c][..0] == [];
    assert FollowsOf(follows, [c]) == [] + follows[VariableOrdinal(c)] == follows[VariableOrdinal(c)];
    assert forall i :: 0 <= i < |deps[VariableOrdinal(b)]| ==> Satisfied(deps, b, deps[VariableOrdinal(b)][i]) by {
      assert Satisfied(deps, b, deps[VariableOrdinal(b)][0]);
    }
  }

  /** A variable waiting for one that waits for some third variable is
      blocked. */
  lemma ChainedDependencyBlocks(follows: FollowTable, deps: DependencyTable, b: Variable, c: Variable, d: Variable)
    requires |follows| == VariableCount && |deps| == VariableCount && d != b
    requires c in deps[VariableOrdinal(b)] && d in deps[VariableOrdinal(c)]
    ensures FollowResolution(follows, deps, b).None?
  {
    var i :| 0 <= i < |deps[VariableOrdinal(b)]| && deps[VariableOrdinal(b)][i] == c;
    assert !Satisfied(deps, b, deps[VariableOrdinal(b)][i]);
  }

  /** resolve_single_follow with its collecting loop. */
  method ResolveFollow(follows: FollowTable, deps: DependencyTable, b: Variable) returns (r: Option<seq<TokenType>>)
    requires |follows| == VariableCount && |deps| == VariableCount
    ensures r == FollowResolution(follows, deps, b)
  {
    var xs := deps[VariableOrdinal(b)];
    var tmp: seq<TokenType> := [];
    var i := 0;
    while i < |xs|
      invariant 0 <= i <= |xs| && tmp == FollowsOf(follows, xs[..i])
      invariant forall j :: 0 <= j < i ==> Satisfied(deps, b, xs[j])
    {
      if !Satisfied(deps, b, xs[i]) {
        return None;
      }
      assert xs[..i + 1][..i] == xs[..i];
      tmp := tmp + follows[VariableOrdinal(xs[i])];
      i := i + 1;
    }
    assert xs[..|xs|] == xs;
    r := Some(tmp);
  }

  /** Every terminal of `b` is also in `a`. */
  ghost predicate Includes(a: seq<TokenType>, b: seq<TokenType>) {
    forall t :: t in b ==> t in a
  }

  /** What the FOLLOW fixed point may do: an entry is only extended; an
      entry with nothing to wait for is left alone; an entry still waiting
      waits for the same variables and is unchanged; and an entry that has
      been resolved holds every terminal that the entries it waited for
      held at the start. */
  ghost predicate FollowKeeps(f0: FollowTable, d0: DependencyTable, f1: FollowTable, d1: DependencyTable)
    requires |f0| == VariableCount && |d0| == VariableCount && |f1| == VariableCount && |d1| == VariableCount
  {
    forall k :: 0 <= k < VariableCount ==>
      && f0[k] <= f1[k]
      && (d0[k] == [] ==> d1[k] == [] && f1[k] == f0[k])
      && (d1[k] != [] ==> d1[k] == d0[k] && f1[k] == f0[k])
      && (d1[k] == [] ==> forall i :: 0 <= i < |d0[k]| ==> Includes(f1[k], f0[VariableOrdinal(d0[k][i])]))
  }

  lemma FollowKeepsReflexive(f: FollowTable, d: DependencyTable)
    requires |f| == VariableCount && |d| == VariableCount
    ensures FollowKeeps(f, d, f, d)
  {
  }

  lemma FollowKeepsTransitive(f0: FollowTable, d0: DependencyTable, f1: FollowTable, d1: DependencyTable, f2: FollowTable, d2: DependencyTable)
    requires |f0| == VariableCount && |d0| == VariableCount && |f1| == VariableCount && |d1| == VariableCount
    requires |f2| == VariableCount && |d2| == VariableCount
    requires FollowKeeps(f0, d0, f1, d1) && FollowKeeps(f1, d1, f2, d2)
    ensures FollowKeeps(f0, d0, f2, d2)
  {
    forall k | 0 <= k < VariableCount
      ensures f0[k] <= f2[k]
      ensures d2[k] == [] ==> forall i :: 0 <= i < |d0[k]| ==> Includes(f2[k], f0[VariableOrdinal(d0[k][i])])
    {
      assert f0[k] <= f1[k] <= f2[k];
      if d2[k] == [] {
        forall i | 0 <= i < |d0[k]| ensures Includes(f2[k], f0[VariableOrdinal(d0[k][i])]) {
          var x := VariableOrdinal(d0[k][i]);
          assert f0[x] <= f1[x];
          if d1[k] == [] {
            assert Includes(f1[k], f0[x]);
            assert f1[k] <= f2[k];
          } else {
            assert d1[k][i] == d0[k][i];
            assert Includes(f2[k], f1[x]);
          }
        }
      }
    }
  }

  /** No entry still waiting among the first `n` resolves any more. */
  ghost predicate FollowStableBelow(follows: FollowTable, deps: DependencyTable, n: nat)
    requires |follows| == VariableCount && |deps| == VariableCount
  {
    forall k :: 0 <= k < n && k < VariableCount && deps[k] != [] ==> FollowResolution(follows, deps, AllVariables[k]).None?
  }

  lemma FollowStableExtend(follows: FollowTable, deps: DependencyTable, k: nat)
    requires |follows| == VariableCount && |deps| == VariableCount && k < VariableCount
    requires FollowStableBelow(follows, deps, k)
    requires deps[k] != [] ==> FollowResolution(follows, deps, AllVariables[k]).None?
    ensures FollowStableBelow(follows, deps, k + 1)
  {
  }

  /** The FOLLOW fixed point has been reached. */
  ghost predicate FollowStable(follows: FollowTable, deps: DependencyTable)
    requires |follows| == VariableCount && |deps| == VariableCount
  {
    FollowStableBelow(follows, deps, VariableCount)
  }

  /** One step of calculate_follows_resolve_variables: the entry with
      ordinal `k`, if it waits for something and resolves, receives the
      FOLLOW entries it waited for and waits no more. */
  method FollowEntry(follows: FollowTable, deps: DependencyTable, k: nat) returns (f: FollowTable, d: DependencyTable, resolved: bool)
    requires |follows| == VariableCount && |deps| == VariableCount && k < VariableCount
    ensures |f| == VariableCount && |d| == VariableCount && FollowKeeps(follows, deps, f, d)
    ensures resolved ==> OpenRow(d) + 1 == OpenRow(deps)
    ensures !resolved ==> f == follows && d == deps
    ensures !resolved && deps[k] != [] ==> FollowResolution(follows, deps, AllVariables[k]).None?
  {
    f, d, resolved := follows, deps, false;
    if deps[k] != [] {
      var b := AllVariables[k];
      OrdinalOfAll(k);
      var r := ResolveFollow(follows, deps, b);
      if r.Some? {
        f, d := follows[k := follows[k] + r.value], deps[k := []];
        resolved := true;
        OpenRowClear(deps, k);
        forall i | 0 <= i < |deps[k]| ensures Includes(f[k], follows[VariableOrdinal(deps[k][i])]) {
          forall t | t in follows[VariableOrdinal(deps[k][i])] ensures t in f[k] {
            assert InFollow(follows, deps[VariableOrdinal(b)][i], t);
            FollowResolutionCollects(follows, deps, b, t);
          }
        }
      }
    }
  }

  /** One pass of the do-while loop of calculate_follows_resolve_variables:
      every variable in ascending ordinal order. */
  method FollowsPass(follows: FollowTable, deps: DependencyTable) returns (f: FollowTable, d: DependencyTable, progress: bool)
    requires |follows| == VariableCount && |deps| == VariableCount
    ensures |f| == VariableCount && |d| == VariableCount && FollowKeeps(follows, deps, f, d)
    ensures OpenRow(d) + (if progress then 1 else 0) <= OpenRow(deps)
    ensures !progress ==> f == follows && d == deps && FollowStable(follows, deps)
  {
    f, d, progress := follows, deps, false;
    FollowKeepsReflexive(f, d);
    var k := 0;
    while k < VariableCount
      invariant |f| == VariableCount && |d| == VariableCount && FollowKeeps(follows, deps, f, d)
      invariant 0 <= k <= VariableCount
      invariant OpenRow(d) + (if progress then 1 else 0) <= OpenRow(deps)
      invariant !progress ==> f == follows && d == deps && FollowStableBelow(f, d, k)
    {
      var f', d', resolved := FollowEntry(f, d, k);
      FollowKeepsTransitive(follows, deps, f, d, f', d');
      if !progress && !resolved {
        FollowStableExtend(f, d, k);
      }
      f, d := f', d';
      progress := progress || resolved;
      k := k + 1;
    }
  }

  /** calculate_follows_resolve_variables: passes until one resolves
      nothing. Each resolution clears one entry, so the loop ends. */
  method ResolveFollows(follows: FollowTable, deps: DependencyTable) returns (f: FollowTable, d: DependencyTable)
    requires |follows| == VariableCount && |deps| == VariableCount
    ensures |f| == VariableCount && |d| == VariableCount
    ensures FollowKeeps(follows, deps, f, d) && FollowStable(f, d)
  {
    f, d := follows, deps;
    FollowKeepsReflexive(f, d);
    var progress := true;
    while progress
      invariant |f| == VariableCount && |d| == VariableCount && FollowKeeps(follows, deps, f, d)
      invariant !progress ==> FollowStable(f, d)
      decreases OpenRow(d) + if progress then 1 else 0
    {
      var f', d', passProgress := FollowsPass(f, d);
      FollowKeepsTransitive(follows, deps, f, d, f', d');
      f, d, progress := f', d', passProgress;
    }
  }

  /** The FOLLOW map and the unresolved FOLLOW map of calculate_follows. */
  datatype FollowState = FollowState(follows: FollowTable, deps: DependencyTable)

  predicate Sized(st: FollowState) {
    |st.follows| == VariableCount && |st.deps| == VariableCount
  }

  /** Both maps only grow, entry by entry. */
  ghost predicate Grown(st0: FollowState, st1: FollowState)
    requires Sized(st0) && Sized(st1)
  {
    forall k :: 0 <= k < VariableCount ==> st0.follows[k] <= st1.follows[k] && st0.deps[k] <= st1.deps[k]
  }

  /** collect_follows_for_single_production_rule on the two maps. */
  function CollectProduction(firsts: FirstTable, st: FollowState, a: Variable, p: Production): (r: FollowState)
    requires |firsts| == VariableCount && Sized(st)
    ensures Sized(r)
  {
    var sc := ScanValues(firsts, Scan(st.follows, []), p);
    FollowState(sc.follows, AddDependencies(st.deps, a, sc.processing))
  }

  /** Every production of a rule of `a`, in order. */
  function CollectProductions(firsts: FirstTable, st: FollowState, a: Variable, ps: seq<Production>): (r: FollowState)
    requires |firsts| == VariableCount && Sized(st)
    ensures Sized(r)
    decreases |ps|
  {
    if ps == [] then st else CollectProduction(firsts, CollectProductions(firsts, st, a, ps[..|ps| - 1]), a, ps[|ps| - 1])
  }

  /** Every production of every rule, in rule order. */
  function CollectRules(firsts: FirstTable, st: FollowState, rules: seq<Rule>): (r: FollowState)
    requires |firsts| == VariableCount && Sized(st)
    ensures Sized(r)
    decreases |rules|
  {
    if rules == [] then st
    else
      var last := rules[|rules| - 1];
      CollectProductions(firsts, CollectRules(firsts, st, rules[..|rules| - 1]), last.variable, last.productions)
  }

  /** The maps before any production is scanned: EPSILON follows the start
      variable, the variable of the first rule. */
  function Seeded(rules: seq<Rule>): (r: FollowState)
    requires |rules| > 0
    ensures Sized(r)
  {
    FollowState(seq(VariableCount, k => [])[VariableOrdinal(rules[0].variable) := [Epsilon]], seq(VariableCount, k => []))
  }

  lemma CollectProductionGrows(firsts: FirstTable, st: FollowState, a: Variable, p: Production)
    requires |firsts| == VariableCount && Sized(st)
    ensures Grown(st, CollectProduction(firsts, st, a, p))
  {
    forall k | 0 <= k < VariableCount
      ensures st.follows[k] <= CollectProduction(firsts, st, a, p).follows[k]
      ensures st.deps[k] <= CollectProduction(firsts, st, a, p).deps[k]
    {
      ScanGrows(firsts, Scan(st.follows, []), p, k);
      DependenciesGrow(st.deps, a, ScanValues(firsts, Scan(st.follows, []), p).processing, k);
    }
  }

  lemma GrownTransitive(st0: FollowState, st1: FollowState, st2: FollowState)
    requires Sized(st0) && Sized(st1) && Sized(st2) && Grown(st0, st1) && Grown(st1, st2)
    ensures Grown(st0, st2)
  {
    forall k | 0 <= k < VariableCount
      ensures st0.follows[k] <= st2.follows[k] && st0.deps[k] <= st2.deps[k]
    {
      assert st0.follows[k] <= st1.follows[k] <= st2.follows[k];
      assert st0.deps[k] <= st1.deps[k] <= st2.deps[k];
    }
  }

  lemma {:induction false} CollectProductionsGrows(firsts: FirstTable, st: FollowState, a: Variable, ps: seq<Production>)
    requires |firsts| == VariableCount && Sized(st)
    ensures Grown(st, CollectProductions(firsts, st, a, ps))
    decreases |ps|
  {
    if ps == [] {
      GrownTransitive(st, st, st);
    } else {
      var mid := CollectProductions(firsts, st, a, ps[..|ps| - 1]);
      CollectProductionsGrows(firsts, st, a, ps[..|ps| - 1]);
      CollectProductionGrows(firsts, mid, a, ps[|ps| - 1]);
      GrownTransitive(st, mid, CollectProductions(firsts, st, a, ps));
    }
  }

  lemma {:induction false} CollectRulesGrows(firsts: FirstTable, st: FollowState, rules: seq<Rule>)
    requires |firsts| == VariableCount && Sized(st)
    ensures Grown(st, CollectRules(firsts, st, rules))
    decreases |rules|
  {
    if rules == [] {
      GrownTransitive(st, st, st);
    } else {
      var last := rules[|rules| - 1];
      var mid := CollectRules(firsts, st, rules[..|rules| - 1]);
      CollectRulesGrows(firsts, st, rules[..|rules| - 1]);
      CollectProductionsGrows(firsts, mid, last.variable, last.productions);
      GrownTransitive(st, mid, CollectRules(firsts, st, rules));
    }
  }

  lemma CollectProductionFollower(firsts: FirstTable, st: FollowState, a: Variable, p: Production, x: nat, t: TokenType)
    requires |firsts| == VariableCount && Sized(st)
    requires x + 1 < |p| && p[x].VariableValue? && t in Successors(firsts, p[x + 1])
    ensures t in CollectProduction(firsts, st, a, p).follows[VariableOrdinal(p[x].variable)]
  {
    DirectFollower(firsts, Scan(st.follows, []), p, x, t);
  }

  /** A successor of `p[x]` in production `ps[j]` reaches FOLLOW(p[x]). */
  lemma {:induction false} CollectProductionsFollower(firsts: FirstTable, st: FollowState, a: Variable, ps: seq<Production>,
                                                      j: nat, x: nat, t: TokenType)
    requires |firsts| == VariableCount && Sized(st)
    requires j < |ps| && x + 1 < |ps[j]| && ps[j][x].VariableValue? && t in Successors(firsts, ps[j][x + 1])
    ensures t in CollectProductions(firsts, st, a, ps).follows[VariableOrdinal(ps[j][x].variable)]
    decreases |ps|
  {
    var n := |ps| - 1;
    var init := ps[..n];
    var mid := CollectProductions(firsts, st, a, init);
    var k := VariableOrdinal(ps[j][x].variable);
    assert CollectProductions(firsts, st, a, ps) == CollectProduction(firsts, mid, a, ps[n]);
    if j == n {
      CollectProductionFollower(firsts, mid, a, ps[n], x, t);
    } else {
      assert init[j] == ps[j];
      CollectProductionsFollower(firsts, st, a, init, j, x, t);
      assert t in mid.follows[k];
      CollectProductionGrows(firsts, mid, a, ps[n]);
      assert mid.follows[k] <= CollectProductions(firsts, st, a, ps).follows[k];
    }
  }

  lemma {:induction false} CollectRulesFollower(firsts: FirstTable, st: FollowState, rules: seq<Rule>,
                                                i: nat, j: nat, x: nat, t: TokenType)
    requires |firsts| == VariableCount && Sized(st)
    requires i < |rules| && j < |rules[i].productions| && x + 1 < |rules[i].productions[j]|
    requires rules[i].productions[j][x].VariableValue? && t in Successors(firsts, rules[i].productions[j][x + 1])
    ensures t in CollectRules(firsts, st, rules).follows[VariableOrdinal(rules[i].productions[j][x].variable)]
    decreases |rules|
  {
    var n := |rules| - 1;
    var init := rules[..n];
    var mid := CollectRules(firsts, st, init);
    var last := rules[n];
    var k := VariableOrdinal(rules[i].productions[j][x].variable);
    assert CollectRules(firsts, st, rules) == CollectProductions(firsts, mid, last.variable, last.productions);
    if i == n {
      CollectProductionsFollower(firsts, mid, last.variable, last.productions, j, x, t);
    } else {
      assert init[i] == rules[i];
      CollectRulesFollower(firsts, st, init, i, j, x, t);
      FollowerKept(firsts, mid, last.variable, last.productions, k, t);
    }
  }

  /** A FOLLOW entry already collected stays collected through more productions. */
  lemma FollowerKept(firsts: FirstTable, st: FollowState, a: Variable, ps: seq<Production>, k: nat, t: TokenType)
    requires |firsts| == VariableCount && Sized(st) && k < VariableCount
    requires t in st.follows[k]
    ensures t in CollectProductions(firsts, st, a, ps).follows[k]
  {
    CollectProductionsGrows(firsts, st, a, ps);
    var before, after := st.follows[k], CollectProductions(firsts, st, a, ps).follows[k];
    assert before <= after;
    var w :| 0 <= w < |before| && before[w] == t;
    assert after[w] == t;
  }

  /** The suffix of `p` after position `x` can derive the empty word as far
      as the FIRST map tells: it is made of variables whose FIRST holds
      EPSILON. */
  predicate NullableAfter(firsts: FirstTable, p: Production, x: nat)
    requires |firsts| == VariableCount
  {
    forall j :: x < j < |p| ==> p[j].VariableValue? && Epsilon in MergedFirst(firsts, p[j].variable)
  }

  lemma CollectProductionTrailing(firsts: FirstTable, st: FollowState, a: Variable, p: Production, x: nat)
    requires |firsts| == VariableCount && Sized(st)
    requires x < |p| && p[x].VariableValue? && p[x].variable != a && NullableAfter(firsts, p, x)
    ensures a in CollectProduction(firsts, st, a, p).deps[VariableOrdinal(p[x].variable)]
  {
    TrailingDependency(firsts, st.follows, st.deps, a, p, x);
  }

  lemma {:induction false} CollectProductionsTrailing(firsts: FirstTable, st: FollowState, a: Variable, ps: seq<Production>, j: nat, x: nat)
    requires |firsts| == VariableCount && Sized(st)
    requires j < |ps| && x < |ps[j]| && ps[j][x].VariableValue? && ps[j][x].variable != a && NullableAfter(firsts, ps[j], x)
    ensures a in CollectProductions(firsts, st, a, ps).deps[VariableOrdinal(ps[j][x].variable)]
    decreases |ps|
  {
    var n := |ps| - 1;
    var init := ps[..n];
    var mid := CollectProductions(firsts, st, a, init);
    var k := VariableOrdinal(ps[j][x].variable);
    assert CollectProductions(firsts, st, a, ps) == CollectProduction(firsts, mid, a, ps[n]);
    if j == n {
      CollectProductionTrailing(firsts, mid, a, ps[n], x);
    } else {
      assert init[j] == ps[j];
      CollectProductionsTrailing(firsts, st, a, init, j, x);
      assert a in mid.deps[k];
      CollectProductionGrows(firsts, mid, a, ps[n]);
      assert mid.deps[k] <= CollectProductions(firsts, st, a, ps).deps[k];
    }
  }

  /** Value `x` of production `j` of rule `i` is a variable other than the
      rule's own, followed only by variables whose FIRST holds EPSILON. */
  predicate TrailingAt(firsts: FirstTable, rules: seq<Rule>, i: nat, j: nat, x: nat)
    requires |firsts| == VariableCount
  {
    && i < |rules| && j < |rules[i].productions| && x < |rules[i].productions[j]|
    && rules[i].productions[j][x].VariableValue? && rules[i].productions[j][x].variable != rules[i].variable
    && NullableAfter(firsts, rules[i].productions[j], x)
  }

  lemma {:induction false} CollectRulesTrailing(firsts: FirstTable, st: FollowState, rules: seq<Rule>, i: nat, j: nat, x: nat)
    requires |firsts| == VariableCount && Sized(st) && TrailingAt(firsts, rules, i, j, x)
    ensures rules[i].variable in CollectRules(firsts, st, rules).deps[VariableOrdinal(rules[i].productions[j][x].variable)]
    decreases |rules|
  {
    var n := |rules| - 1;
    var init := rules[..n];
    var mid := CollectRules(firsts, st, init);
    var last := rules[n];
    var a := rules[i].variable;
    var k := VariableOrdinal(rules[i].productions[j][x].variable);
    assert CollectRules(firsts, st, rules) == CollectProductions(firsts, mid, last.variable, last.productions);
    if i == n {
      CollectProductionsTrailing(firsts, mid, last.variable, last.productions, j, x);
    } else {
      assert init[i] == rules[i];
      assert TrailingAt(firsts, init, i, j, x);
      CollectRulesTrailing(firsts, st, init, i, j, x);
      assert a in mid.deps[k];
      CollectProductionsGrows(firsts, mid, last.variable, last.productions);
      assert mid.deps[k] <= CollectRules(firsts, st, rules).deps[k];
    }
  }

  /** The loop of calculate_follows over the productions of one rule. */
  method CollectRule(firsts: FirstTable, st: FollowState, a: Variable, ps: seq<Production>) returns (r: FollowState)
    requires |firsts| == VariableCount && Sized(st)
    ensures r == CollectProductions(firsts, st, a, ps)
  {
    r := st;
    var j := 0;
    while j < |ps|
      invariant 0 <= j <= |ps| && r == CollectProductions(firsts, st, a, ps[..j])
    {
      assert ps[..j + 1][..j] == ps[..j];
      var f, d := CollectFollows(firsts, r.follows, r.deps, a, ps[j]);
      r := FollowState(f, d);
      j := j + 1;
    }
    assert ps[..|ps|] == ps;
  }

  /** calculate_follows: EPSILON is seeded into the FOLLOW of the start
      variable, every production of every rule is scanned, the dependencies
      are resolved, and every rule receives the FOLLOW entry of its
      variable. */
  method CalculateFollows(rules: seq<Rule>, firsts: FirstTable) returns (analysed: seq<Rule>, follows: FollowTable, deps: DependencyTable)
    requires |rules| > 0 && Defined(rules) && |firsts| == VariableCount
    ensures |follows| == VariableCount && |deps| == VariableCount
    ensures FollowKeeps(CollectRules(firsts, Seeded(rules), rules).follows, CollectRules(firsts, Seeded(rules), rules).deps, follows, deps)
    ensures FollowStable(follows, deps)
    ensures |analysed| == |rules|
    ensures forall i :: 0 <= i < |rules| ==> analysed[i] == rules[i].(follows := follows[VariableOrdinal(rules[i].variable)])
  {
    var st := CollectAll(firsts, Seeded(rules), rules);
    follows, deps := ResolveFollows(st.follows, st.deps);
    analysed := AssignEntries(rules, follows, (r: Rule, f: seq<TokenType>) => r.(follows := f));
  }

  /** The loop of calculate_follows over the rules. */
  method CollectAll(firsts: FirstTable, seed: FollowState, rules: seq<Rule>) returns (st: FollowState)
    requires |firsts| == VariableCount && Sized(seed)
    ensures st == CollectRules(firsts, seed, rules)
  {
    st := seed;
    var i := 0;
    while i < |rules|
      invariant 0 <= i <= |rules| && st == CollectRules(firsts, seed, rules[..i])
    {
      assert rules[..i + 1][..i] == rules[..i] && rules[..i + 1][i] == rules[i];
      st := CollectRule(firsts, st, rules[i].variable, rules[i].productions);
      i := i + 1;
    }
    assert rules[..|rules|] == rules;
  }

  /** The collection reads only the variables and productions of the rules. */
  lemma {:induction false} CollectRulesSkeleton(firsts: FirstTable, st: FollowState, r1: seq<Rule>, r2: seq<Rule>)
    requires |firsts| == VariableCount && Sized(st) && |r1| == |r2|
    requires forall i :: 0 <= i < |r1| ==> r1[i].variable == r2[i].variable && r1[i].productions == r2[i].productions
    ensures CollectRules(firsts, st, r1) == CollectRules(firsts, st, r2)
    decreases |r1|
  {
    if r1 != [] {
      CollectRulesSkeleton(firsts, st, r1[..|r1| - 1], r2[..|r2| - 1]);
    }
  }

  /** The maps calculate_follows resolves: the seeded maps after every
      production has been scanned. */
  function Collected(firsts: FirstTable, rules: seq<Rule>): (r: FollowState)
    requires |firsts| == VariableCount && |rules| > 0
    ensures Sized(r)
  {
    CollectRules(firsts, Seeded(rules), rules)
  }

  /** After calculate_follows, EPSILON (the end of the input) is the first
      entry of the FOLLOW of the start variable. */
  lemma StartFollowedByEpsilon(rules: seq<Rule>, firsts: FirstTable, follows: FollowTable, deps: DependencyTable)
    requires |rules| > 0 && |firsts| == VariableCount && |follows| == VariableCount && |deps| == VariableCount
    requires FollowKeeps(Collected(firsts, rules).follows, Collected(firsts, rules).deps, follows, deps)
    ensures follows[VariableOrdinal(rules[0].variable)] != [] && follows[VariableOrdinal(rules[0].variable)][0] == Epsilon
  {
    var k := VariableOrdinal(rules[0].variable);
    CollectRulesGrows(firsts, Seeded(rules), rules);
    assert [Epsilon] <= Collected(firsts, rules).follows[k] <= follows[k];
  }

  /** After calculate_follows, a terminal directly after a variable in any
      production, or in the FIRST (EPSILON aside) of the variable directly
      after it, is in that variable's FOLLOW. */
  lemma FollowerInFollow(rules: seq<Rule>, firsts: FirstTable, follows: FollowTable, deps: DependencyTable,
                         i: nat, j: nat, x: nat, t: TokenType)
    requires |rules| > 0 && |firsts| == VariableCount && |follows| == VariableCount && |deps| == VariableCount
    requires FollowKeeps(Collected(firsts, rules).follows, Collected(firsts, rules).deps, follows, deps)
    requires i < |rules| && j < |rules[i].productions| && x + 1 < |rules[i].productions[j]|
    requires rules[i].productions[j][x].VariableValue? && t in Successors(firsts, rules[i].productions[j][x + 1])
    ensures t in follows[VariableOrdinal(rules[i].productions[j][x].variable)]
  {
    var k := VariableOrdinal(rules[i].productions[j][x].variable);
    CollectRulesFollower(firsts, Seeded(rules), rules, i, j, x, t);
    assert Collected(firsts, rules).follows[k] <= follows[k];
  }

  /** After calculate_follows, a variable Y ending a production of A (up to
      variables whose FIRST holds EPSILON), Y other than A, either still
      waits for A, or has been resolved and holds every terminal the
      collection put into FOLLOW(A). */
  lemma TrailingFollow(rules: seq<Rule>, firsts: FirstTable, follows: FollowTable, deps: DependencyTable, i: nat, j: nat, x: nat)
    requires |rules| > 0 && |firsts| == VariableCount && |follows| == VariableCount && |deps| == VariableCount
    requires FollowKeeps(Collected(firsts, rules).follows, Collected(firsts, rules).deps, follows, deps)
    requires TrailingAt(firsts, rules, i, j, x)
    ensures deps[VariableOrdinal(rules[i].productions[j][x].variable)] != [] ==>
              rules[i].variable in deps[VariableOrdinal(rules[i].productions[j][x].variable)]
    ensures deps[VariableOrdinal(rules[i].productions[j][x].variable)] == [] ==>
              Includes(follows[VariableOrdinal(rules[i].productions[j][x].variable)], Collected(firsts, rules).follows[VariableOrdinal(rules[i].variable)])
  {
    var c := Collected(firsts, rules);
    var k := VariableOrdinal(rules[i].productions[j][x].variable);
    CollectRulesTrailing(firsts, Seeded(rules), rules, i, j, x);
    var m :| 0 <= m < |c.deps[k]| && c.deps[k][m] == rules[i].variable;
    if deps[k] == [] {
      assert Includes(follows[k], c.follows[VariableOrdinal(c.deps[k][m])]);
    }
  }

  /** The grammar: its rules, each with its FIRST and FOLLOW lists. The
      maps the analysis leaves behind are kept as ghost state, so that what
      is known about them can be stated of the grammar. */
  class Grammar {
    var rules: seq<Rule>
    ghost var firsts: FirstTable
    ghost var pending: PendingTable
    ghost var follows: FollowTable
    ghost var deps: DependencyTable

    /** Grammar(rules): calculate_firsts, then calculate_follows. */
    constructor(description: seq<Rule>)
      requires |description| > 0 && Defined(description)
      ensures Shaped(firsts, pending) && Shaped(InitialFirsts(description), InitialPending(description))
      ensures Keeps(InitialFirsts(description), InitialPending(description), firsts, pending) && Stable(firsts, pending)
      ensures |follows| == VariableCount && |deps| == VariableCount
      ensures FollowKeeps(Collected(firsts, description).follows, Collected(firsts, description).deps, follows, deps)
      ensures FollowStable(follows, deps)
      ensures |rules| == |description|
      ensures forall i :: 0 <= i < |description| ==>
                rules[i] == description[i].(firsts := firsts[VariableOrdinal(description[i].variable)],
                                            follows := follows[VariableOrdinal(description[i].variable)])
    {
      var withFirsts, f, p := CalculateFirsts(description);
      assert Heads(withFirsts) == Heads(description);
      var analysed, fo, d := CalculateFollows(withFirsts, f);
      CollectRulesSkeleton(f, Seeded(description), withFirsts, description);
      rules := analysed;
      firsts, pending, follows, deps := f, p, fo, d;
    }
  }

  // ------------------------------------------------------------------
  // The grammar of the language
  // ------------------------------------------------------------------

  function Var(v: Variable): Value {
    VariableValue(v)
  }

  function Term(t: TokenType): Value {
    TerminalValue(t)
  }

  /** The rules of get_grammar_description, one per variable. */
  const ProgRule := NewRule(Prog, [[Var(Decls), Var(Statements)]])
  const DeclsRule := NewRule(Decls, [[Var(Decl), Term(Semicolon), Var(Decls)], [Term(Epsilon)]])
  const DeclRule := NewRule(Decl, [[Term(Int), Var(Array), Term(Identifier)]])
  const ArrayRule := NewRule(Array, [[Term(SquareBracketOpen), Term(Integer), Term(SquareBracketClose)], [Term(Epsilon)]])
  const StatementsRule := NewRule(Statements, [[Var(Statement), Term(Semicolon), Var(Statements)], [Term(Epsilon)]])
  const StatementRule := NewRule(Statement, [
    [Term(Identifier), Var(Index), Term(Assignment), Var(Exp)],
    [Term(Write), Term(ParenthesisOpen), Var(Exp), Term(ParenthesisClose)],
    [Term(Read), Term(ParenthesisOpen), Term(Identifier), Var(Index), Term(ParenthesisClose)],
    [Term(CurlyBracketOpen), Var(Statements), Term(CurlyBracketClose)],
    [Term(If), Term(ParenthesisOpen), Var(Exp), Term(ParenthesisClose), Var(Statement), Term(Else), Var(Statement)],
    [Term(While), Term(ParenthesisOpen), Var(Exp), Term(ParenthesisClose), Var(Statement)]])
  const ExpRule := NewRule(Exp, [[Var(Exp2), Var(OpExp)]])
  const Exp2Rule := NewRule(Exp2, [
    [Term(ParenthesisOpen), Var(Exp), Term(ParenthesisClose)],
    [Term(Identifier), Var(Index)],
    [Term(Integer)],
    [Term(Minus), Var(Exp2)],
    [Term(Not), Var(Exp2)]])
  const IndexRule := NewRule(Index, [[Term(SquareBracketOpen), Var(Exp), Term(SquareBracketClose)], [Term(Epsilon)]])
  const OpExpRule := NewRule(OpExp, [[Var(Op), Var(Exp)], [Term(Epsilon)]])
  const OpRule := NewRule(Op, [[Term(Plus)], [Term(Minus)], [Term(Asterisk)], [Term(Colon)], [Term(LessThan)],
                               [Term(GreaterThan)], [Term(Equality)], [Term(Whatever)], [Term(LogicalAnd)]])

  /** get_grammar_description. */
  const ShippedRules: seq<Rule> := [ProgRule, DeclsRule, DeclRule, ArrayRule, StatementsRule, StatementRule,
                                    ExpRule, Exp2Rule, IndexRule, OpExpRule, OpRule]

  /** The language's grammar has one rule per variable, in ordinal order. */
  lemma ShippedOrdinals()
    ensures |ShippedRules| == VariableCount
    ensures forall i :: 0 <= i < VariableCount ==> VariableOrdinal(ShippedRules[i].variable) == i
  {
  }

  /** So it meets what the analysis needs. */
  lemma ShippedWellFormed()
    ensures |ShippedRules| == VariableCount && DistinctHeads(ShippedRules) && Defined(ShippedRules)
  {
    ShippedOrdinals();
    forall v: Variable ensures v in Heads(ShippedRules) {
      assert ShippedRules[VariableOrdinal(v)].variable == v;
    }
  }

  /** A rule whose productions all start with a terminal gets exactly those
      terminals as its FIRST lists. */
  lemma AllTerminalLed(rules: seq<Rule>, firsts: FirstTable, pending: PendingTable, i: nat)
    requires DistinctHeads(rules) && Shaped(firsts, pending) && Shaped(InitialFirsts(rules), InitialPending(rules))
    requires Keeps(InitialFirsts(rules), InitialPending(rules), firsts, pending)
    requires i < |rules|
    requires forall j :: 0 <= j < |rules[i].productions| ==> rules[i].productions[j] != [] && rules[i].productions[j][0].TerminalValue?
    ensures firsts[VariableOrdinal(rules[i].variable)] == SplitFirsts(rules[i].productions)
  {
    InitialRow(rules, i);
    var k := VariableOrdinal(rules[i].variable);
    assert |firsts[k]| == |pending[k]| == |InitialPending(rules)[k]|;
    forall j | 0 <= j < |rules[i].productions|
      ensures firsts[k][j] == SplitFirst(rules[i].productions[j])
    {
      TerminalLedFirst(rules, firsts, pending, i, j);
    }
  }

  lemma Exp2Leads()
    ensures SplitFirsts(Exp2Rule.productions) == [[ParenthesisOpen], [Identifier], [Integer], [Minus], [Not]]
  {
  }

  lemma OpLeads()
    ensures SplitFirsts(OpRule.productions)
         == [[Plus], [Minus], [Asterisk], [Colon], [LessThan], [GreaterThan], [Equality], [Whatever], [LogicalAnd]]
  {
  }

  /** What the analysis leaves in the maps of the language's grammar. */
  lemma ShippedFirsts(firsts: FirstTable, pending: PendingTable)
    requires Shaped(firsts, pending) && Shaped(InitialFirsts(ShippedRules), InitialPending(ShippedRules))
    requires Keeps(InitialFirsts(ShippedRules), InitialPending(ShippedRules), firsts, pending)
    ensures firsts[7] == [[ParenthesisOpen], [Identifier], [Integer], [Minus], [Not]]
    ensures firsts[10] == [[Plus], [Minus], [Asterisk], [Colon], [LessThan], [GreaterThan], [Equality], [Whatever], [LogicalAnd]]
  {
    ShippedWellFormed();
    ShippedOrdinals();
    AllTerminalLed(ShippedRules, firsts, pending, 7);
    Exp2Leads();
    AllTerminalLed(ShippedRules, firsts, pending, 10);
    OpLeads();
  }

  lemma ShippedFollows(firsts: FirstTable, follows: FollowTable, deps: DependencyTable)
    requires |firsts| == VariableCount && |follows| == VariableCount && |deps| == VariableCount
    requires FollowKeeps(Collected(firsts, ShippedRules).follows, Collected(firsts, ShippedRules).deps, follows, deps)
    ensures follows[0] != [] && follows[0][0] == Epsilon
    ensures Semicolon in follows[2]
  {
    ShippedOrdinals();
    StartFollowedByEpsilon(ShippedRules, firsts, follows, deps);
    assert DeclsRule.productions[0][1] == Term(Semicolon);
    FollowerInFollow(ShippedRules, firsts, follows, deps, 1, 0, 0, Semicolon);
  }

  /** Analysing the language's grammar: the start variable is followed by
      EPSILON, every alternative of EXP2 and OP starts with its own terminal,
      and a declaration is followed by a semicolon. */
  method AnalyseShipped() returns (g: Grammar)
    ensures |g.rules| == VariableCount
    ensures g.rules[7].firsts == [[ParenthesisOpen], [Identifier], [Integer], [Minus], [Not]]
    ensures g.rules[10].firsts == [[Plus], [Minus], [Asterisk], [Colon], [LessThan], [GreaterThan], [Equality], [Whatever], [LogicalAnd]]
    ensures g.rules[0].follows != [] && g.rules[0].follows[0] == Epsilon
    ensures Semicolon in g.rules[2].follows
  {
    ShippedWellFormed();
    ShippedOrdinals();
    g := new Grammar(ShippedRules);
    ShippedFirsts(g.firsts, g.pending);
    ShippedFollows(g.firsts, g.follows, g.deps);
  }
}
