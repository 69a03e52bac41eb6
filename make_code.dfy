/** The code emitter. It walks the parse tree of a program that passed
    the type check and writes stack-machine code: declarations first, then
    the statements in postfix order, then STP. Labels for jumps come from a
    32-bit counter shared by every emitter; running out of labels throws. */
module MakeCodes {
  import opened Results
  import opened Tokens
  import opened Information
  import opened Grammars
  import opened ParseTrees
  import opened Parsers
  import opened TypeChecks

  // ---------------------------------------------------------------------
  // Instructions and their text

  /** A label id: the value of the `std::uint32_t` counter. */
  type LabelId = k: nat | k < 0x1_0000_0000

  /** The largest label id. Generating the label with this id makes the
      counter wrap to 0, which is reported as exhaustion. */
  const LastLabelId: nat := 0xFFFF_FFFF

  /** One line of the emitted code. `LabelDef(l)` is the line "#label<l>"
      that a jump to label l lands on. */
  datatype Instruction =
    | DS(name: string, size: int)
    | LA(name: string)
    | LC(value: int)
    | LV | STR | PRI | REA | NOP | STP
    | ADD | SUB | MUL | DIV | LES | EQU | AND | NOT
    | JMP(target: LabelId)
    | JIN(target: LabelId)
    | LabelDef(labelId: LabelId)

  function Digit(d: nat): char
    requires d < 10
  {
    "0123456789"[d]
  }

  /** The decimal digits of n, as `%u` prints them. */
  function Decimal(n: nat): (r: string)
    ensures |r| > 0 && forall i :: 0 <= i < |r| ==> '0' <= r[i] <= '9'
    ensures |r| > 1 ==> r[0] != '0'
    ensures n < 10 <==> |r| == 1
  {
    if n < 10 then [Digit(n)] else Decimal(n / 10) + [Digit(n % 10)]
  }

  /** The number a string of decimal digits denotes. */
  function DecimalValue(s: string): nat
    requires forall i :: 0 <= i < |s| ==> '0' <= s[i] <= '9'
  {
    if s == [] then 0 else 10 * DecimalValue(s[..|s| - 1]) + (s[|s| - 1] - '0') as nat
  }

  /** Reading the digits back gives the number. */
  lemma {:induction false} DecimalRoundTrip(n: nat)
    ensures DecimalValue(Decimal(n)) == n
  {
    var r := Decimal(n);
    if n >= 10 {
      DecimalRoundTrip(n / 10);
      assert r[..|r| - 1] == Decimal(n / 10);
    }
  }

  /** Different numbers print differently. */
  lemma DecimalInjective(a: nat, b: nat)
    requires Decimal(a) == Decimal(b)
    ensures a == b
  {
    DecimalRoundTrip(a);
    DecimalRoundTrip(b);
  }

  /** A signed number, as `<<` prints a `long`. */
  function Signed(v: int): string {
    if v < 0 then "-" + Decimal(-v) else Decimal(v)
  }

  /** The text of label l: "label" followed by its id. */
  function LabelName(l: LabelId): string {
    "label" + Decimal(l)
  }

  /** Different label ids give different label texts. */
  lemma LabelNameInjective(a: LabelId, b: LabelId)
    requires LabelName(a) == LabelName(b)
    ensures a == b
  {
    assert LabelName(a)[5..] == Decimal(a) && LabelName(b)[5..] == Decimal(b);
    DecimalInjective(a, b);
  }

  /** The text of one instruction. Every line ends with a line feed except
      the final STP. */
  function Line(i: Instruction): string {
    match i
    case DS(name, size) => "DS $" + name + " " + Signed(size) + "\n"
    case LA(name) => "LA $" + name + "\n"
    case LC(value) => "LC " + Signed(value) + "\n"
    case LV => "LV\n"
    case STR => "STR\n"
    case PRI => "PRI\n"
    case REA => "REA\n"
    case NOP => "NOP\n"
    case STP => "STP"
    case ADD => "ADD\n"
    case SUB => "SUB\n"
    case MUL => "MUL\n"
    case DIV => "DIV\n"
    case LES => "LES\n"
    case EQU => "EQU\n"
    case AND => "AND\n"
    case NOT => "NOT\n"
    case JMP(l) => "JMP #" + LabelName(l) + "\n"
    case JIN(l) => "JIN #" + LabelName(l) + "\n"
    case LabelDef(l) => "#" + LabelName(l) + "\n"
  }

  /** The text of a piece of code: its lines one after the other. */
  function Text(code: seq<Instruction>): string {
    if code == [] then "" else Text(code[..|code| - 1]) + Line(code[|code| - 1])
  }

  // ---------------------------------------------------------------------
  // The label counter

  /** generate_label on counter value `id`: the label uses `id`, and the
      counter moves to `id + 1` modulo 2^32. A counter that wraps to 0
      throws LabelsExhausted; otherwise the new counter value is
      returned. */
  function NextLabel(id: LabelId): (r: Result<LabelId>)
    ensures r.Ok? <==> id < LastLabelId
    ensures r.Ok? ==> r.value == id + 1
    ensures r.Err? ==> r.error == LabelsExhausted
  {
    var next := (id + 1) % 0x1_0000_0000;
    if next == 0 then Err(LabelsExhausted) else Ok(next)
  }

  /** The static label counter of generate_label. */
  class LabelCounter {
    var labelId: LabelId

    constructor ()
      ensures labelId == 0
    {
      labelId := 0;
    }

    /** generate_label: the text of the label with the current id; the
        counter moves on by one, and wraps to 0 as it throws. */
    method GenerateLabel() returns (r: Result<string>)
      modifies this
      ensures labelId == (old(labelId) + 1) % 0x1_0000_0000
      ensures r == (if NextLabel(old(labelId)).Ok? then Ok(LabelName(old(labelId))) else Err(LabelsExhausted))
    {
      var name := LabelName(labelId);
      labelId := (labelId + 1) % 0x1_0000_0000;
      if labelId == 0 {
        return Err(LabelsExhausted);
      }
      return Ok(name);
    }
  }

  // ---------------------------------------------------------------------
  // The tree the emitter walks

  /** Every empty OP_EXP node still has type NONE, as the type check
      leaves it; code_exp reads that type to tell an absent operator. */
  ghost predicate Annotated(nodes: Tree) {
    forall m :: 0 <= m < |nodes| && IsVar(nodes, m, OpExp) && nodes[m].children == [] ==>
      nodes[m].dataType == NoneType
  }

  /** Every variable node spells a production, and children come after
      their parents. */
  ghost predicate Shaped(nodes: Tree) {
    Ordered(nodes) && Annotated(nodes) && forall m :: 0 <= m < |nodes| ==> Conforms(nodes, m)
  }

  ghost predicate Emittable(nodes: Tree, n: nat, v: Variable) {
    Shaped(nodes) && IsVar(nodes, n, v)
  }

  /** The token kind of the operator below a non-empty OP_EXP node. */
  function OperatorOf(nodes: Tree, n: nat): (k: TokenType)
    requires Emittable(nodes, n, OpExp) && nodes[n].children != []
    ensures IsOperator(k)
  {
    assert Conforms(nodes, n) && Conforms(nodes, nodes[n].children[0]);
    TokenOf(nodes, nodes[nodes[n].children[0]].children[0]).kind
  }

  // ---------------------------------------------------------------------
  // Expressions

  /** code_op: the instruction of a binary operator. '>' emits nothing, as
      its operands are swapped and LES is emitted by code_exp; '<!>' emits
      EQU, which code_exp complements with NOT. */
  function OpCode(k: TokenType): (r: seq<Instruction>)
    requires IsOperator(k)
  {
    if k == Plus then [ADD]
    else if k == Minus then [SUB]
    else if k == Asterisk then [MUL]
    else if k == Colon then [DIV]
    else if k == LessThan then [LES]
    else if k == GreaterThan then []
    else if k == Equality || k == Whatever then [EQU]
    else [AND]
  }

  /** code_exp: the left operand and the operator chain, with '>' turned
      into LES on swapped operands and '<!>' into EQU followed by NOT. An
      OP_EXP of type NONE stands for no operator. */
  function CodeExp(nodes: Tree, n: nat): seq<Instruction>
    requires Emittable(nodes, n, Exp)
    decreases |nodes| - n
  {
    assert Conforms(nodes, n);
    var ch := nodes[n].children;
    if nodes[ch[1]].dataType == NoneType then CodeExp2(nodes, ch[0])
    else
      assert nodes[ch[1]].children != [];
      var k := OperatorOf(nodes, ch[1]);
      if k == GreaterThan then CodeOpExp(nodes, ch[1]) + CodeExp2(nodes, ch[0]) + [LES]
      else CodeExp2(nodes, ch[0]) + CodeOpExp(nodes, ch[1]) + (if k == Whatever then [NOT] else [])
  }

  /** code_index: an index adds its value to the address below it. */
  function CodeIndex(nodes: Tree, n: nat): seq<Instruction>
    requires Emittable(nodes, n, Index)
    decreases |nodes| - n
  {
    assert Conforms(nodes, n);
    var ch := nodes[n].children;
    if ch == [] then [] else CodeExp(nodes, ch[1]) + [ADD]
  }

  /** code_exp2: dispatch on the first token. */
  function CodeExp2(nodes: Tree, n: nat): seq<Instruction>
    requires Emittable(nodes, n, Exp2)
    decreases |nodes| - n
  {
    assert Conforms(nodes, n);
    Exp2Shapes(nodes, n);
    var ch := nodes[n].children;
    var k := TokenOf(nodes, ch[0]).kind;
    if k == ParenthesisOpen then CodeExp(nodes, ch[1])
    else if k == Identifier then [LA(NameOf(nodes, ch[0]))] + CodeIndex(nodes, ch[1]) + [LV]
    else if k == Integer then [LC(NumberOf(nodes, ch[0]))]
    else if k == Minus then [LC(0)] + CodeExp2(nodes, ch[1]) + [SUB]
    else CodeExp2(nodes, ch[1]) + [NOT]
  }

  /** code_op_exp: the right operand, then the operator. */
  function CodeOpExp(nodes: Tree, n: nat): seq<Instruction>
    requires Emittable(nodes, n, OpExp)
    decreases |nodes| - n
  {
    assert Conforms(nodes, n);
    var ch := nodes[n].children;
    if ch == [] then [] else CodeExp(nodes, ch[1]) + OpCode(OperatorOf(nodes, n))
  }

  // ---------------------------------------------------------------------
  // Statements

  /** Code together with the label counter after it. */
  datatype Emitted = Emitted(code: seq<Instruction>, next: LabelId)

  /** The number of labels the code of a statement takes: two for each
      if and each while inside it. */
  function StatementLabels(nodes: Tree, n: nat): nat
    requires Emittable(nodes, n, Statement)
    decreases |nodes| - n, 1
  {
    assert Conforms(nodes, n);
    StatementShapes(nodes, n);
    var ch := nodes[n].children;
    var k := TokenOf(nodes, ch[0]).kind;
    if k == CurlyBracketOpen then StatementsLabels(nodes, ch[1])
    else if k == If then 2 + StatementLabels(nodes, ch[4]) + StatementLabels(nodes, ch[6])
    else if k == While then 2 + StatementLabels(nodes, ch[4])
    else 0
  }

  function StatementsLabels(nodes: Tree, n: nat): nat
    requires Emittable(nodes, n, Statements)
    decreases |nodes| - n, 2
  {
    assert Conforms(nodes, n);
    var ch := nodes[n].children;
    if ch == [] then 0 else StatementLabels(nodes, ch[0]) + StatementsLabels(nodes, ch[2])
  }

  /** code_statement with the label counter at `id`: the code succeeds
      exactly when the labels it needs fit below the last id, and then
      moves the counter on by that many labels. */
  function CodeStatement(nodes: Tree, n: nat, id: LabelId): (r: Result<Emitted>)
    requires Emittable(nodes, n, Statement)
    ensures r.Ok? <==> id + StatementLabels(nodes, n) <= LastLabelId
    ensures r.Ok? ==> r.value.next == id + StatementLabels(nodes, n)
    ensures r.Err? ==> r.error == LabelsExhausted
    ensures r.Ok? ==> Block(r.value.code, id, r.value.next)
    decreases |nodes| - n, 1
  {
    assert Conforms(nodes, n);
    StatementShapes(nodes, n);
    var ch := nodes[n].children;
    var k := TokenOf(nodes, ch[0]).kind;
    if k == Identifier then
      ExpValue(nodes, ch[3]);
      IndexValue(nodes, ch[1]);
      StoreBlock(CodeExp(nodes, ch[3]), NameOf(nodes, ch[0]), CodeIndex(nodes, ch[1]), id);
      Ok(Emitted(CodeExp(nodes, ch[3]) + [LA(NameOf(nodes, ch[0]))] + CodeIndex(nodes, ch[1]) + [STR], id))
    else if k == Write then
      ExpValue(nodes, ch[2]);
      WriteBlock(CodeExp(nodes, ch[2]), id);
      Ok(Emitted(CodeExp(nodes, ch[2]) + [PRI], id))
    else if k == Read then
      IndexValue(nodes, ch[3]);
      ReadBlock(NameOf(nodes, ch[2]), CodeIndex(nodes, ch[3]), id);
      Ok(Emitted([REA, LA(NameOf(nodes, ch[2]))] + CodeIndex(nodes, ch[3]) + [STR], id))
    else if k == CurlyBracketOpen then CodeStatements(nodes, ch[1], id)
    else if k == If then CodeIf(nodes, n, id)
    else CodeWhile(nodes, n, id)
  }

  /** code_statement_if: condition, JIN to the else part, the then part,
      JMP past the else part, the else part. */
  function CodeIf(nodes: Tree, n: nat, id: LabelId): (r: Result<Emitted>)
    requires Emittable(nodes, n, Statement) && nodes[n].children != [] && IsTok(nodes, nodes[n].children[0], If)
    ensures r.Ok? <==> id + StatementLabels(nodes, n) <= LastLabelId
    ensures r.Ok? ==> r.value.next == id + StatementLabels(nodes, n)
    ensures r.Err? ==> r.error == LabelsExhausted
    ensures r.Ok? ==> Block(r.value.code, id, r.value.next)
    decreases |nodes| - n, 0
  {
    assert Conforms(nodes, n);
    StatementShapes(nodes, n);
    var ch := nodes[n].children;
    var condition := CodeExp(nodes, ch[2]);
    var afterLabel0 := NextLabel(id);
    if afterLabel0.Err? then Err(afterLabel0.error) else
    var thenPart := CodeStatement(nodes, ch[4], afterLabel0.value);
    if thenPart.Err? then Err(thenPart.error) else
    var label1 := thenPart.value.next;
    var afterLabel1 := NextLabel(label1);
    if afterLabel1.Err? then Err(afterLabel1.error) else
    var elsePart := CodeStatement(nodes, ch[6], afterLabel1.value);
    if elsePart.Err? then Err(elsePart.error) else
    ExpValue(nodes, ch[2]);
    IfLayout(condition, thenPart.value.code, elsePart.value.code, id, label1, elsePart.value.next);
    Ok(Emitted(condition + [JIN(id)] + thenPart.value.code + [JMP(label1), LabelDef(id), NOP]
               + elsePart.value.code + [LabelDef(label1), NOP], elsePart.value.next))
  }

  /** code_statement_while: the loop label, condition, JIN past the loop,
      body, JMP back to the loop label. */
  function CodeWhile(nodes: Tree, n: nat, id: LabelId): (r: Result<Emitted>)
    requires Emittable(nodes, n, Statement) && nodes[n].children != [] && IsTok(nodes, nodes[n].children[0], While)
    ensures r.Ok? <==> id + StatementLabels(nodes, n) <= LastLabelId
    ensures r.Ok? ==> r.value.next == id + StatementLabels(nodes, n)
    ensures r.Err? ==> r.error == LabelsExhausted
    ensures r.Ok? ==> Block(r.value.code, id, r.value.next)
    decreases |nodes| - n, 0
  {
    assert Conforms(nodes, n);
    StatementShapes(nodes, n);
    var ch := nodes[n].children;
    var afterLabel0 := NextLabel(id);
    if afterLabel0.Err? then Err(afterLabel0.error) else
    var condition := CodeExp(nodes, ch[2]);
    var label1 := afterLabel0.value;
    var afterLabel1 := NextLabel(label1);
    if afterLabel1.Err? then Err(afterLabel1.error) else
    var body := CodeStatement(nodes, ch[4], afterLabel1.value);
    if body.Err? then Err(body.error) else
    ExpValue(nodes, ch[2]);
    WhileLayout(condition, body.value.code, id, label1, body.value.next);
    Ok(Emitted([LabelDef(id), NOP] + condition + [JIN(label1)] + body.value.code
               + [JMP(id), LabelDef(label1), NOP], body.value.next))
  }

  /** code_statements: each statement in turn; an empty list emits NOP. */
  function CodeStatements(nodes: Tree, n: nat, id: LabelId): (r: Result<Emitted>)
    requires Emittable(nodes, n, Statements)
    ensures r.Ok? <==> id + StatementsLabels(nodes, n) <= LastLabelId
    ensures r.Ok? ==> r.value.next == id + StatementsLabels(nodes, n)
    ensures r.Err? ==> r.error == LabelsExhausted
    ensures nodes[n].children == [] ==> r == Ok(Emitted([NOP], id))
    ensures r.Ok? ==> Block(r.value.code, id, r.value.next)
    decreases |nodes| - n, 2
  {
    assert Conforms(nodes, n);
    var ch := nodes[n].children;
    if ch == [] then NopBlock(id); Ok(Emitted([NOP], id)) else
    var first := CodeStatement(nodes, ch[0], id);
    if first.Err? then Err(first.error) else
    var rest := CodeStatements(nodes, ch[2], first.value.next);
    if rest.Err? then Err(rest.error) else
    SequenceLayout(first.value.code, rest.value.code, id, first.value.next, rest.value.next);
    Ok(Emitted(first.value.code + rest.value.code, rest.value.next))
  }

  // ---------------------------------------------------------------------
  // Declarations and the program

  /** code_decl with code_array: storage for the identifier, as many cells
      as the dimension says, or one. */
  function CodeDecl(nodes: Tree, d: nat): (r: Instruction)
    requires Emittable(nodes, d, Decl)
    ensures r.DS?
  {
    assert Conforms(nodes, d);
    var ch := nodes[d].children;
    assert Conforms(nodes, ch[1]);
    var dims := nodes[ch[1]].children;
    DS(NameOf(nodes, ch[2]), if dims == [] then 1 else NumberOf(nodes, dims[1]))
  }

  /** The number of declarations in a DECLS chain. */
  function DeclCount(nodes: Tree, n: nat): nat
    requires Emittable(nodes, n, Decls)
    decreases |nodes| - n
  {
    assert Conforms(nodes, n);
    var ch := nodes[n].children;
    if ch == [] then 0 else 1 + DeclCount(nodes, ch[2])
  }

  /** code_decls: one DS line per declaration, in order. */
  function CodeDecls(nodes: Tree, n: nat): (r: seq<Instruction>)
    requires Emittable(nodes, n, Decls)
    ensures |r| == DeclCount(nodes, n)
    ensures forall i :: 0 <= i < |r| ==> r[i].DS?
    decreases |nodes| - n
  {
    assert Conforms(nodes, n);
    var ch := nodes[n].children;
    if ch == [] then [] else [CodeDecl(nodes, ch[0])] + CodeDecls(nodes, ch[2])
  }

  /** code_prog: declarations, statements, then STP. */
  function CodeProg(nodes: Tree, p: nat, id: LabelId): (r: Result<Emitted>)
    requires Emittable(nodes, p, Prog)
    ensures r.Ok? <==> id + StatementsLabels(nodes, nodes[p].children[1]) <= LastLabelId
    ensures r.Ok? ==> r.value.next == id + StatementsLabels(nodes, nodes[p].children[1])
    ensures r.Ok? ==> |r.value.code| > DeclCount(nodes, nodes[p].children[0])
                      && r.value.code[|r.value.code| - 1] == STP
    ensures r.Ok? ==> r.value.code[..DeclCount(nodes, nodes[p].children[0])]
                      == CodeDecls(nodes, nodes[p].children[0])
    ensures r.Ok? ==> Block(r.value.code, id, r.value.next)
  {
    assert Conforms(nodes, p);
    var ch := nodes[p].children;
    var statements := CodeStatements(nodes, ch[1], id);
    if statements.Err? then Err(statements.error) else
    var decls := CodeDecls(nodes, ch[0]);
    assert (decls + statements.value.code + [STP])[..|decls|] == decls;
    ProgramLayout(decls, statements.value.code, id, statements.value.next);
    Ok(Emitted(decls + statements.value.code + [STP], statements.value.next))
  }

  /** operator(): the code of the program below the root. */
  function MakeCode(nodes: Tree, id: LabelId): (r: Result<Emitted>)
    requires WellShaped(nodes) && Annotated(nodes)
  {
    LinkedOrdered(nodes);
    CodeProg(nodes, nodes[RootIndex].children[0], id)
  }

  // ---------------------------------------------------------------------
  // What a piece of code does: its labels, its jumps, its stack effect

  /** How many values an instruction takes from the stack of the machine
      the code is written for. */
  function Pops(i: Instruction): nat {
    match i
    case LV | NOT | PRI | JIN(_) => 1
    case STR | ADD | SUB | MUL | DIV | LES | EQU | AND => 2
    case _ => 0
  }

  /** How many values an instruction leaves on the stack. */
  function Pushes(i: Instruction): nat {
    match i
    case LA(_) | LC(_) | REA | LV | NOT | ADD | SUB | MUL | DIV | LES | EQU | AND => 1
    case _ => 0
  }

  /** The stack height after running the code straight through from
      height d, or None when some instruction finds too few values. */
  function Depth(code: seq<Instruction>, d: nat): Option<nat> {
    if code == [] then Some(d)
    else if d < Pops(code[0]) then None
    else Depth(code[1..], d - Pops(code[0]) + Pushes(code[0]))
  }

  /** The summary of a piece of code run straight through: the labels it
      defines, the labels it jumps to, how many values it needs on the
      stack before it, and by how much it changes the stack height. */
  datatype Effect = Effect(defs: multiset<nat>, targets: set<nat>, need: nat, net: int)

  /** The effect of x followed by y. */
  function Then(x: Effect, y: Effect): Effect {
    Effect(x.defs + y.defs, x.targets + y.targets,
           if y.need - x.net > x.need then y.need - x.net else x.need, x.net + y.net)
  }

  /** The effect of one instruction. */
  function Step(i: Instruction): Effect {
    Effect(if i.LabelDef? then multiset{i.labelId} else multiset{},
           if i.JMP? || i.JIN? then {i.target} else {},
           Pops(i), Pushes(i) - Pops(i))
  }

  const Nothing := Effect(multiset{}, {}, 0, 0)

  /** The effect of a piece of code. */
  function EffectOf(code: seq<Instruction>): Effect {
    if code == [] then Nothing else Then(Step(code[0]), EffectOf(code[1..]))
  }

  lemma ThenAssociative(x: Effect, y: Effect, z: Effect)
    ensures Then(Then(x, y), z) == Then(x, Then(y, z))
  {
  }

  /** The effect of code one piece after the other. */
  lemma {:induction false} EffectAppend(a: seq<Instruction>, b: seq<Instruction>)
    ensures EffectOf(a + b) == Then(EffectOf(a), EffectOf(b))
  {
    if a == [] {
      assert a + b == b;
    } else {
      assert (a + b)[1..] == a[1..] + b;
      EffectAppend(a[1..], b);
      ThenAssociative(Step(a[0]), EffectOf(a[1..]), EffectOf(b));
    }
  }

  /** The summary agrees with running the code: from a height of at least
      `need` the code runs through and changes the height by `net`; from
      any lower height some instruction finds too few values. */
  lemma {:induction false} EffectDepth(code: seq<Instruction>, d: nat)
    ensures d >= EffectOf(code).need ==> d + EffectOf(code).net >= 0
                                         && Depth(code, d) == Some(d + EffectOf(code).net)
    ensures d < EffectOf(code).need ==> Depth(code, d) == None
  {
    if code != [] {
      if d >= Pops(code[0]) {
        EffectDepth(code[1..], d - Pops(code[0]) + Pushes(code[0]));
      }
    }
  }

  /** The effect of four pieces of code one after the other. */
  lemma AppendFour(a: seq<Instruction>, b: seq<Instruction>, c: seq<Instruction>, d: seq<Instruction>)
    ensures EffectOf(a + b + c + d) == Then(Then(Then(EffectOf(a), EffectOf(b)), EffectOf(c)), EffectOf(d))
  {
    EffectAppend(a, b);
    EffectAppend(a + b, c);
    EffectAppend(a + b + c, d);
  }

  /** Four pieces whose effects add up to a block make a block. */
  lemma BlockOfFour(a: seq<Instruction>, b: seq<Instruction>, c: seq<Instruction>, d: seq<Instruction>, lo: nat, hi: nat)
    requires Fits(Then(Then(Then(EffectOf(a), EffectOf(b)), EffectOf(c)), EffectOf(d)), lo, hi)
    ensures Block(a + b + c + d, lo, hi)
  {
    AppendFour(a, b, c, d);
  }

  /** One instruction. */
  lemma One(i: Instruction)
    ensures EffectOf([i]) == Step(i)
  {
    assert [i][1..] == [];
  }

  /** The effect of a few instructions written out. */
  lemma Two(i: Instruction, j: Instruction)
    ensures EffectOf([i, j]) == Then(Step(i), Step(j))
  {
    assert [i] + [j] == [i, j];
    EffectAppend([i], [j]);
    One(i);
    One(j);
  }

  lemma Three(i: Instruction, j: Instruction, k: Instruction)
    ensures EffectOf([i, j, k]) == Then(Step(i), Then(Step(j), Step(k)))
  {
    assert [i] + [j, k] == [i, j, k];
    EffectAppend([i], [j, k]);
    One(i);
    Two(j, k);
  }

  // ---------------------------------------------------------------------
  // Expressions: one value on the stack

  /** Code with no labels and no jumps that pushes one value and needs
      nothing below it. */
  ghost predicate Value(code: seq<Instruction>) {
    EffectOf(code) == Effect(multiset{}, {}, 0, 1)
  }

  /** Code with no labels and no jumps that takes the value on top of the
      stack (if any) to another one. */
  ghost predicate Modifier(code: seq<Instruction>) {
    var e := EffectOf(code);
    e.defs == multiset{} && e.targets == {} && e.need <= 1 && e.net == 0
  }

  /** A value followed by a modifier is a value. */
  lemma ValueThen(a: seq<Instruction>, b: seq<Instruction>)
    requires Value(a) && Modifier(b)
    ensures Value(a + b)
  {
    EffectAppend(a, b);
  }

  /** A binary operator: two values in, one out, no labels. */
  predicate Binary(op: Instruction) {
    op in {ADD, SUB, MUL, DIV, LES, EQU, AND}
  }

  /** A value followed by a binary operator is a modifier. */
  lemma OperandModifier(a: seq<Instruction>, op: Instruction)
    requires Value(a) && Binary(op)
    ensures Modifier(a + [op])
  {
    EffectAppend(a, [op]);
    One(op);
  }

  /** The pieces of a binary operation: two values in, one out. */
  lemma BinaryValue(a: seq<Instruction>, b: seq<Instruction>, op: Instruction)
    requires Value(a) && Value(b) && Binary(op)
    ensures Value(a + b + [op])
  {
    OperandModifier(b, op);
    ValueThen(a, b + [op]);
    assert a + (b + [op]) == a + b + [op];
  }

  /** A constant is a value. */
  lemma ConstantValue(v: int)
    ensures Value([LC(v)])
  {
    One(LC(v));
  }

  /** A value followed by LV or NOT is a value. */
  lemma UnaryValue(a: seq<Instruction>, op: Instruction)
    requires Value(a) && (op == LV || op == NOT)
    ensures Value(a + [op])
  {
    One(op);
    ValueThen(a, [op]);
  }

  /** The address of a variable moved by its index is a value. */
  lemma LoadAddress(name: string, i: seq<Instruction>)
    requires Modifier(i)
    ensures Value([LA(name)] + i)
  {
    One(LA(name));
    ValueThen([LA(name)], i);
  }

  /** The address of a variable, moved by its index and loaded, is a value. */
  lemma LoadValue(name: string, i: seq<Instruction>)
    requires Modifier(i)
    ensures Value([LA(name)] + i + [LV])
  {
    LoadAddress(name, i);
    UnaryValue([LA(name)] + i, LV);
  }

  /** A right operand followed by its operator's code: a modifier for a
      binary operator, the operand itself for '>'. */
  lemma OperatorModifier(e: seq<Instruction>, k: TokenType)
    requires Value(e) && IsOperator(k)
    ensures k == GreaterThan ==> Value(e + OpCode(k))
    ensures k != GreaterThan ==> Modifier(e + OpCode(k))
  {
    if k == GreaterThan {
      assert e + OpCode(k) == e;
    } else {
      OperandModifier(e, OpCode(k)[0]);
    }
  }

  /** Zero minus a value is a value. */
  lemma NegativeValue(e: seq<Instruction>)
    requires Value(e)
    ensures Value([LC(0)] + e + [SUB])
  {
    ConstantValue(0);
    BinaryValue([LC(0)], e, SUB);
  }

  /** The children of an EXP node. */
  lemma ExpParts(nodes: Tree, n: nat)
    requires Emittable(nodes, n, Exp)
    ensures var ch := nodes[n].children;
      |ch| == 2 && n < ch[0] && n < ch[1]
      && Emittable(nodes, ch[0], Exp2) && Emittable(nodes, ch[1], OpExp)
  {
    assert Conforms(nodes, n);
  }

  /** The children of a non-empty OP_EXP node. */
  lemma OpExpParts(nodes: Tree, n: nat)
    requires Emittable(nodes, n, OpExp) && nodes[n].children != []
    ensures var ch := nodes[n].children;
      |ch| == 2 && n < ch[1] && Emittable(nodes, ch[1], Exp)
  {
    assert Conforms(nodes, n);
  }

  /** The children of a non-empty INDEX node. */
  lemma IndexParts(nodes: Tree, n: nat)
    requires Emittable(nodes, n, Index) && nodes[n].children != []
    ensures var ch := nodes[n].children;
      |ch| == 3 && n < ch[1] && Emittable(nodes, ch[1], Exp)
  {
    assert Conforms(nodes, n);
  }

  /** An expression pushes its value, needs nothing below it and touches
      no label. */
  lemma {:induction false} ExpValue(nodes: Tree, n: nat)
    requires Emittable(nodes, n, Exp)
    ensures Value(CodeExp(nodes, n))
    decreases |nodes| - n, 1
  {
    ExpParts(nodes, n);
    var ch := nodes[n].children;
    Exp2Value(nodes, ch[0]);
    var left := CodeExp2(nodes, ch[0]);
    if nodes[ch[1]].dataType != NoneType {
      assert nodes[ch[1]].children != [] by {
        assert Annotated(nodes);
      }
      var k := OperatorOf(nodes, ch[1]);
      OpExpValue(nodes, ch[1]);
      var right := CodeOpExp(nodes, ch[1]);
      if k == GreaterThan {
        assert CodeExp(nodes, n) == right + left + [LES];
        BinaryValue(right, left, LES);
      } else if k == Whatever {
        assert CodeExp(nodes, n) == left + right + [NOT];
        ValueThen(left, right);
        UnaryValue(left + right, NOT);
      } else {
        assert CodeExp(nodes, n) == left + right;
        ValueThen(left, right);
      }
    }
  }

  /** A non-empty index takes the address below it to the indexed one. */
  lemma {:induction false} IndexValue(nodes: Tree, n: nat)
    requires Emittable(nodes, n, Index)
    ensures Modifier(CodeIndex(nodes, n))
    decreases |nodes| - n, 0
  {
    var ch := nodes[n].children;
    if ch != [] {
      IndexParts(nodes, n);
      ExpValue(nodes, ch[1]);
      OperandModifier(CodeExp(nodes, ch[1]), ADD);
    } else {
      assert CodeIndex(nodes, n) == [];
    }
  }

  lemma {:induction false} Exp2Value(nodes: Tree, n: nat)
    requires Emittable(nodes, n, Exp2)
    ensures Value(CodeExp2(nodes, n))
    decreases |nodes| - n, 0
  {
    assert Conforms(nodes, n);
    Exp2Shapes(nodes, n);
    var ch := nodes[n].children;
    var k := TokenOf(nodes, ch[0]).kind;
    if k == ParenthesisOpen {
      ExpValue(nodes, ch[1]);
    } else if k == Identifier {
      IndexValue(nodes, ch[1]);
      var i := CodeIndex(nodes, ch[1]);
      assert CodeExp2(nodes, n) == [LA(NameOf(nodes, ch[0]))] + i + [LV];
      LoadValue(NameOf(nodes, ch[0]), i);
    } else if k == Integer {
      assert CodeExp2(nodes, n) == [LC(NumberOf(nodes, ch[0]))];
      ConstantValue(NumberOf(nodes, ch[0]));
    } else if k == Minus {
      Exp2Value(nodes, ch[1]);
      var e := CodeExp2(nodes, ch[1]);
      assert CodeExp2(nodes, n) == [LC(0)] + e + [SUB];
      NegativeValue(e);
    } else {
      Exp2Value(nodes, ch[1]);
      var e := CodeExp2(nodes, ch[1]);
      assert CodeExp2(nodes, n) == e + [NOT];
      UnaryValue(e, NOT);
    }
  }

  /** The operator chain: a binary operator combines the value below with
      the right operand; '>' only pushes its right operand, which code_exp
      then compares. */
  lemma {:induction false} OpExpValue(nodes: Tree, n: nat)
    requires Emittable(nodes, n, OpExp) && nodes[n].children != []
    ensures OperatorOf(nodes, n) == GreaterThan ==> Value(CodeOpExp(nodes, n))
    ensures OperatorOf(nodes, n) != GreaterThan ==> Modifier(CodeOpExp(nodes, n))
    decreases |nodes| - n, 0
  {
    OpExpParts(nodes, n);
    var ch := nodes[n].children;
    ExpValue(nodes, ch[1]);
    var e := CodeExp(nodes, ch[1]);
    var k := OperatorOf(nodes, n);
    assert CodeOpExp(nodes, n) == e + OpCode(k);
    OperatorModifier(e, k);
  }

  // ---------------------------------------------------------------------
  // Statements: labels and stack balance

  /** Each label id from lo below hi occurs exactly once among `defs`,
      and no other id occurs. */
  ghost predicate Once(defs: multiset<nat>, lo: nat, hi: nat) {
    forall l :: defs[l] == if lo <= l < hi then 1 else 0
  }

  /** An effect that defines each label id from lo below hi exactly once,
      jumps only to those ids, needs nothing on the stack and leaves it as
      it found it. */
  ghost predicate Fits(e: Effect, lo: nat, hi: nat) {
    Once(e.defs, lo, hi) && (forall t :: t in e.targets ==> lo <= t < hi) && e.need == 0 && e.net == 0
  }

  /** The code of a statement: it defines each label id from lo below hi
      once, jumps only to those, and leaves the stack as it found it. */
  ghost predicate Block(code: seq<Instruction>, lo: nat, hi: nat) {
    Fits(EffectOf(code), lo, hi)
  }

  /** Blocks over adjacent ranges one after the other make a block over
      both ranges. */
  lemma FitsThen(x: Effect, y: Effect, lo: nat, mid: nat, hi: nat)
    requires lo <= mid <= hi && Fits(x, lo, mid) && Fits(y, mid, hi)
    ensures Fits(Then(x, y), lo, hi)
  {
  }

  /** A value consumed by JIN: no labels, one jump. */
  lemma JumpPiece(cond: seq<Instruction>, target: LabelId)
    requires Value(cond)
    ensures EffectOf(cond + [JIN(target)]) == Effect(multiset{}, {target}, 0, 0)
  {
    EffectAppend(cond, [JIN(target)]);
    One(JIN(target));
  }

  /** The code of an empty statement list. */
  lemma NopBlock(id: nat)
    ensures Block([NOP], id, id)
  {
    One(NOP);
    assert Fits(Step(NOP), id, id);
  }

  /** A value consumed by PRI. */
  lemma WriteBlock(e: seq<Instruction>, id: nat)
    requires Value(e)
    ensures Block(e + [PRI], id, id)
  {
    EffectAppend(e, [PRI]);
    One(PRI);
  }

  /** A value stored at an address. */
  lemma StoreValue(e: seq<Instruction>, address: seq<Instruction>, id: nat)
    requires Value(e) && Value(address)
    ensures Block(e + address + [STR], id, id)
  {
    EffectAppend(e, address);
    EffectAppend(e + address, [STR]);
    One(STR);
  }

  /** A value stored at an indexed address. */
  lemma StoreBlock(e: seq<Instruction>, name: string, i: seq<Instruction>, id: nat)
    requires Value(e) && Modifier(i)
    ensures Block(e + [LA(name)] + i + [STR], id, id)
  {
    assert e + ([LA(name)] + i) == e + [LA(name)] + i;
    LoadAddress(name, i);
    StoreValue(e, [LA(name)] + i, id);
  }

  /** A value read from the input, stored at an indexed address. */
  lemma ReadBlock(name: string, i: seq<Instruction>, id: nat)
    requires Modifier(i)
    ensures Block([REA, LA(name)] + i + [STR], id, id)
  {
    assert [REA] + [LA(name)] + i + [STR] == [REA, LA(name)] + i + [STR];
    One(REA);
    StoreBlock([REA], name, i, id);
  }

  /** A label definition. */
  lemma Landing(l: LabelId)
    ensures EffectOf([LabelDef(l), NOP]) == Effect(multiset{l}, {}, 0, 0)
  {
    Two(LabelDef(l), NOP);
    assert Step(NOP) == Nothing;
    assert Then(Step(LabelDef(l)), Nothing) == Step(LabelDef(l));
  }

  /** A jump followed by a label definition. */
  lemma JumpLanding(target: LabelId, l: LabelId)
    ensures EffectOf([JMP(target), LabelDef(l), NOP]) == Effect(multiset{l}, {target}, 0, 0)
  {
    Three(JMP(target), LabelDef(l), NOP);
    assert Step(NOP) == Nothing;
    assert Then(Step(LabelDef(l)), Nothing) == Step(LabelDef(l));
    var x := Step(JMP(target));
    assert x == Effect(multiset{}, {target}, 0, 0);
    assert Then(x, Step(LabelDef(l))) == Effect(multiset{l}, {target}, 0, 0);
  }

  /** A conditional jump takes the condition off the stack. */
  lemma JumpIfFalse(l: LabelId)
    ensures EffectOf([JIN(l)]) == Effect(multiset{}, {l}, 1, -1)
  {
    One(JIN(l));
  }

  /** The loop label followed by the condition. */
  lemma LoopHead(id: LabelId, cond: seq<Instruction>)
    requires Value(cond)
    ensures EffectOf([LabelDef(id), NOP] + cond) == Effect(multiset{id}, {}, 0, 1)
  {
    Landing(id);
    EffectAppend([LabelDef(id), NOP], cond);
    assert multiset{id} + multiset{} == multiset{id};
  }

  /** The effects of the five pieces of an if statement add up to a
      block. */
  lemma IfEffect(jump: Effect, thenPart: Effect, middle: Effect, elsePart: Effect, tail: Effect,
                 id: nat, l1: nat, hi: nat)
    requires id < l1 < hi
    requires jump == Effect(multiset{}, {id}, 0, 0)
    requires Fits(thenPart, id + 1, l1)
    requires middle == Effect(multiset{id}, {l1}, 0, 0)
    requires Fits(elsePart, l1 + 1, hi)
    requires tail == Effect(multiset{l1}, {}, 0, 0)
    ensures Fits(Then(Then(Then(Then(jump, thenPart), middle), elsePart), tail), id, hi)
  {
  }

  /** The layout of code_statement_if: the condition, JIN to the else
      label, the then part, JMP to the end label, the else label, the else
      part, the end label. */
  lemma IfLayout(cond: seq<Instruction>, thenCode: seq<Instruction>, elseCode: seq<Instruction>,
                 id: LabelId, l1: LabelId, hi: nat)
    requires id < l1 < hi && Value(cond) && Block(thenCode, id + 1, l1) && Block(elseCode, l1 + 1, hi)
    ensures Block(cond + [JIN(id)] + thenCode + [JMP(l1), LabelDef(id), NOP] + elseCode + [LabelDef(l1), NOP], id, hi)
  {
    var c1 := cond + [JIN(id)];
    var c2 := [JMP(l1), LabelDef(id), NOP];
    var c3 := [LabelDef(l1), NOP];
    JumpPiece(cond, id);
    JumpLanding(l1, id);
    Landing(l1);
    EffectAppend(c1, thenCode);
    EffectAppend(c1 + thenCode, c2);
    EffectAppend(c1 + thenCode + c2, elseCode);
    EffectAppend(c1 + thenCode + c2 + elseCode, c3);
    IfEffect(EffectOf(c1), EffectOf(thenCode), EffectOf(c2), EffectOf(elseCode), EffectOf(c3), id, l1, hi);
  }

  /** The effects of the four pieces of a while statement add up to a
      block. */
  lemma WhileEffect(head: Effect, jump: Effect, body: Effect, tail: Effect, id: nat, hi: nat)
    requires id + 1 < hi
    requires head == Effect(multiset{id}, {}, 0, 1)
    requires jump == Effect(multiset{}, {id + 1}, 1, -1)
    requires Fits(body, id + 2, hi)
    requires tail == Effect(multiset{id + 1}, {id}, 0, 0)
    ensures Fits(Then(Then(Then(head, jump), body), tail), id, hi)
  {
  }

  /** Four pieces of code with the effects of a while statement's make a
      block. */
  lemma WhilePieces(head: seq<Instruction>, jump: seq<Instruction>, body: seq<Instruction>, tail: seq<Instruction>,
                    id: nat, hi: nat)
    requires id + 1 < hi
    requires EffectOf(head) == Effect(multiset{id}, {}, 0, 1)
    requires EffectOf(jump) == Effect(multiset{}, {id + 1}, 1, -1)
    requires Block(body, id + 2, hi)
    requires EffectOf(tail) == Effect(multiset{id + 1}, {id}, 0, 0)
    ensures Block(head + jump + body + tail, id, hi)
  {
    WhileEffect(EffectOf(head), EffectOf(jump), EffectOf(body), EffectOf(tail), id, hi);
    BlockOfFour(head, jump, body, tail, id, hi);
  }

  /** The layout of code_statement_while: the loop label, the condition,
      JIN to the end label, the body, JMP back to the loop label, the end
      label. */
  lemma WhileLayout(cond: seq<Instruction>, body: seq<Instruction>, id: LabelId, l1: LabelId, hi: nat)
    requires l1 == id + 1 && l1 < hi && Value(cond) && Block(body, l1 + 1, hi)
    ensures Block([LabelDef(id), NOP] + cond + [JIN(l1)] + body + [JMP(id), LabelDef(l1), NOP], id, hi)
  {
    LoopHead(id, cond);
    JumpIfFalse(l1);
    JumpLanding(id, l1);
    WhilePieces([LabelDef(id), NOP] + cond, [JIN(l1)], body, [JMP(id), LabelDef(l1), NOP], id, hi);
  }

  /** Statements one after the other. */
  lemma SequenceLayout(first: seq<Instruction>, rest: seq<Instruction>, lo: nat, mid: nat, hi: nat)
    requires lo <= mid <= hi && Block(first, lo, mid) && Block(rest, mid, hi)
    ensures Block(first + rest, lo, hi)
  {
    EffectAppend(first, rest);
    FitsThen(EffectOf(first), EffectOf(rest), lo, mid, hi);
  }

  /** Storage declarations do nothing to labels or the stack. */
  lemma {:induction false} DeclarationsNeutral(decls: seq<Instruction>)
    requires forall i :: 0 <= i < |decls| ==> decls[i].DS?
    ensures EffectOf(decls) == Nothing
  {
    if decls != [] {
      DeclarationsNeutral(decls[1..]);
    }
  }

  /** The layout of code_prog: declarations, the statements, STP. */
  lemma ProgramLayout(decls: seq<Instruction>, body: seq<Instruction>, lo: nat, hi: nat)
    requires forall i :: 0 <= i < |decls| ==> decls[i].DS?
    requires Block(body, lo, hi)
    ensures Block(decls + body + [STP], lo, hi)
  {
    var x := EffectOf(body);
    DeclarationsNeutral(decls);
    EffectAppend(decls, body);
    Neutral(x);
    assert EffectOf(decls + body) == x;
    Stop();
    EffectAppend(decls + body, [STP]);
  }

  /** STP does nothing to labels or the stack. */
  lemma Stop()
    ensures EffectOf([STP]) == Nothing
  {
    One(STP);
  }

  /** Nothing is the unit of Then, on the left always and on the right for
      code that never takes more from the stack than it found there. */
  lemma Neutral(x: Effect)
    ensures Then(Nothing, x) == x
    ensures x.need + x.net >= 0 ==> Then(x, Nothing) == x
  {
    assert x.defs + multiset{} == x.defs && multiset{} + x.defs == x.defs;
    assert x.targets + {} == x.targets && {} + x.targets == x.targets;
  }

  // ---------------------------------------------------------------------
  // The emitted program as a whole

  /** The label ids the code defines, in order. */
  function Labels(code: seq<Instruction>): (r: seq<nat>)
    ensures |r| <= |code|
  {
    if code == [] then []
    else (if code[0].LabelDef? then [code[0].labelId] else []) + Labels(code[1..])
  }

  /** The label ids the code jumps to, in order. */
  function Jumps(code: seq<Instruction>): (r: seq<nat>)
    ensures |r| <= |code|
  {
    if code == [] then []
    else (if code[0].JMP? || code[0].JIN? then [code[0].target] else []) + Jumps(code[1..])
  }

  /** The summary records exactly the labels the code defines and the
      labels it jumps to. */
  lemma {:induction false} EffectLabels(code: seq<Instruction>)
    ensures EffectOf(code).defs == multiset(Labels(code))
    ensures forall t :: t in EffectOf(code).targets <==> t in Jumps(code)
  {
    if code != [] {
      EffectLabels(code[1..]);
      var first := if code[0].LabelDef? then [code[0].labelId] else [];
      assert multiset(first + Labels(code[1..])) == multiset(first) + multiset(Labels(code[1..]));
    }
  }

  /** What the code of a block guarantees: every label id from lo below
      hi is defined exactly once and no other is, every jump lands on a
      defined label, and the code runs from an empty stack without ever
      finding too few values and leaves the stack empty. */
  lemma BlockSound(code: seq<Instruction>, lo: nat, hi: nat)
    requires Block(code, lo, hi)
    ensures forall l :: multiset(Labels(code))[l] == if lo <= l < hi then 1 else 0
    ensures forall t :: t in Jumps(code) ==> t in Labels(code)
    ensures Depth(code, 0) == Some(0)
  {
    EffectLabels(code);
    EffectDepth(code, 0);
    forall t | t in Jumps(code)
      ensures t in Labels(code)
    {
      assert multiset(Labels(code))[t] == 1;
    }
  }

  /** What make_code guarantees about a program it translates: every label
      id it took from the counter is defined exactly once and no other is,
      every jump lands on a defined label, the code runs from an empty
      stack without ever finding too few values and leaves the stack
      empty, and it ends with STP. */
  lemma MakeCodeSound(nodes: Tree, id: LabelId)
    requires WellShaped(nodes) && Annotated(nodes) && MakeCode(nodes, id).Ok?
    ensures var e := MakeCode(nodes, id).value;
      && (forall l :: multiset(Labels(e.code))[l] == if id <= l < e.next then 1 else 0)
      && (forall t :: t in Jumps(e.code) ==> t in Labels(e.code))
      && Depth(e.code, 0) == Some(0)
      && e.code != [] && e.code[|e.code| - 1] == STP
  {
    LinkedOrdered(nodes);
    var e := MakeCode(nodes, id).value;
    assert Block(e.code, id, e.next) && e.code != [] && e.code[|e.code| - 1] == STP;
    BlockSound(e.code, id, e.next);
  }
}
