/** The type checker. It walks the parse tree of a syntactically valid
    program, annotates each node with a FundamentalType, gives every
    declared identifier its type, and clears a validity flag whenever it
    reports an error. The walk follows the tree's fixed shape: each
    variable node's children spell one production of the language. */
module TypeChecks {
  import opened Results
  import opened Tokens
  import opened Information
  import opened Grammars
  import opened ParseTrees
  import opened Parsers
  import opened Strings

  type Tree = seq<Node<TreeData>>

  // ---------------------------------------------------------------------
  // The shape of a parsed program

  predicate IsVar(sk: Tree, m: nat, v: Variable) {
    m < |sk| && sk[m].userdata == Some(VariableData(v))
  }

  predicate IsTok(sk: Tree, m: nat, k: TokenType) {
    m < |sk| && sk[m].userdata.Some? && sk[m].userdata.value.TokenData?
    && sk[m].userdata.value.token.kind == k
  }

  function TokenOf(sk: Tree, m: nat): Token
    requires m < |sk| && sk[m].userdata.Some? && sk[m].userdata.value.TokenData?
  {
    sk[m].userdata.value.token
  }

  /** An identifier leaf: it carries its symbol-table lexeme. */
  predicate IsName(sk: Tree, m: nat) {
    IsTok(sk, m, Identifier) && TokenOf(sk, m).value.Lexeme?
  }

  /** An integer-literal leaf: it carries its value. */
  predicate IsNumber(sk: Tree, m: nat) {
    IsTok(sk, m, Integer) && TokenOf(sk, m).value.IntegerValue?
  }

  function NameOf(sk: Tree, m: nat): string
    requires IsName(sk, m)
  {
    TokenOf(sk, m).value.lexeme
  }

  function NumberOf(sk: Tree, m: nat): int
    requires IsNumber(sk, m)
  {
    TokenOf(sk, m).value.integer
  }

  predicate IsOperator(k: TokenType) {
    k in {Plus, Minus, Asterisk, Colon, LessThan, GreaterThan, Equality, Whatever, LogicalAnd}
  }

  /** The statement forms, told apart by their first token. */
  predicate StatementForm(sk: Tree, ch: seq<nat>)
    requires |ch| > 0
  {
    (IsName(sk, ch[0]) && |ch| == 4 && IsVar(sk, ch[1], Index) && IsTok(sk, ch[2], Assignment)
      && IsVar(sk, ch[3], Exp))
    || (IsTok(sk, ch[0], Write) && |ch| == 4 && IsTok(sk, ch[1], ParenthesisOpen)
      && IsVar(sk, ch[2], Exp) && IsTok(sk, ch[3], ParenthesisClose))
    || (IsTok(sk, ch[0], Read) && |ch| == 5 && IsTok(sk, ch[1], ParenthesisOpen) && IsName(sk, ch[2])
      && IsVar(sk, ch[3], Index) && IsTok(sk, ch[4], ParenthesisClose))
    || (IsTok(sk, ch[0], CurlyBracketOpen) && |ch| == 3 && IsVar(sk, ch[1], Statements)
      && IsTok(sk, ch[2], CurlyBracketClose))
    || (IsTok(sk, ch[0], If) && |ch| == 7 && IsTok(sk, ch[1], ParenthesisOpen) && IsVar(sk, ch[2], Exp)
      && IsTok(sk, ch[3], ParenthesisClose) && IsVar(sk, ch[4], Statement) && IsTok(sk, ch[5], Else)
      && IsVar(sk, ch[6], Statement))
    || (IsTok(sk, ch[0], While) && |ch| == 5 && IsTok(sk, ch[1], ParenthesisOpen) && IsVar(sk, ch[2], Exp)
      && IsTok(sk, ch[3], ParenthesisClose) && IsVar(sk, ch[4], Statement))
  }

  /** The five EXP2 forms, told apart by their first token. */
  predicate Exp2Form(sk: Tree, ch: seq<nat>)
    requires |ch| > 0
  {
    (IsTok(sk, ch[0], ParenthesisOpen) && |ch| == 3 && IsVar(sk, ch[1], Exp)
      && IsTok(sk, ch[2], ParenthesisClose))
    || (IsName(sk, ch[0]) && |ch| == 2 && IsVar(sk, ch[1], Index))
    || (IsNumber(sk, ch[0]) && |ch| == 1)
    || (IsTok(sk, ch[0], Minus) && |ch| == 2 && IsVar(sk, ch[1], Exp2))
    || (IsTok(sk, ch[0], Not) && |ch| == 2 && IsVar(sk, ch[1], Exp2))
  }

  /** The children ch of a node for variable v spell one production of v;
      an EPSILON production leaves the node without children. */
  predicate Derives(sk: Tree, ch: seq<nat>, v: Variable) {
    match v
    case Prog => |ch| == 2 && IsVar(sk, ch[0], Decls) && IsVar(sk, ch[1], Statements)
    case Decls => ch == [] || (|ch| == 3 && IsVar(sk, ch[0], Decl) && IsTok(sk, ch[1], Semicolon)
      && IsVar(sk, ch[2], Decls))
    case Decl => |ch| == 3 && IsTok(sk, ch[0], Int) && IsVar(sk, ch[1], Array) && IsName(sk, ch[2])
    case Array => ch == [] || (|ch| == 3 && IsTok(sk, ch[0], SquareBracketOpen) && IsNumber(sk, ch[1])
      && IsTok(sk, ch[2], SquareBracketClose))
    case Statements => ch == [] || (|ch| == 3 && IsVar(sk, ch[0], Statement)
      && IsTok(sk, ch[1], Semicolon) && IsVar(sk, ch[2], Statements))
    case Statement => |ch| > 0 && StatementForm(sk, ch)
    case Exp => |ch| == 2 && IsVar(sk, ch[0], Exp2) && IsVar(sk, ch[1], OpExp)
    case Exp2 => |ch| > 0 && Exp2Form(sk, ch)
    case Index => ch == [] || (|ch| == 3 && IsTok(sk, ch[0], SquareBracketOpen) && IsVar(sk, ch[1], Exp)
      && IsTok(sk, ch[2], SquareBracketClose))
    case OpExp => ch == [] || (|ch| == 2 && IsVar(sk, ch[0], Op) && IsVar(sk, ch[1], Exp))
    case Op => (|ch| == 1 && ch[0] < |sk| && sk[ch[0]].userdata.Some?
      && sk[ch[0]].userdata.value.TokenData? && IsOperator(TokenOf(sk, ch[0]).kind))
  }

  /** Every child comes after its parent in the arena, so a walk that
      descends to children terminates. */
  predicate Ordered(sk: Tree) {
    forall n, j :: 0 <= n < |sk| && 0 <= j < |sk[n].children| ==> n < sk[n].children[j] < |sk|
  }

  lemma LinkedOrdered(sk: Tree)
    requires Linked(sk)
    ensures Ordered(sk)
  {
  }

  /** A variable node's children spell one of its productions. */
  predicate Conforms(sk: Tree, m: nat)
    requires m < |sk|
  {
    match sk[m].userdata
    case Some(VariableData(v)) => Derives(sk, sk[m].children, v)
    case _ => true
  }

  /** The tree of a parsed program: an arena tree whose root has the PROG
      node as its only child and whose variable nodes all conform. */
  ghost predicate WellShaped(sk: Tree) {
    Linked(sk) && |sk[0].children| == 1 && IsVar(sk, sk[0].children[0], Prog)
    && forall m :: 0 <= m < |sk| ==> Conforms(sk, m)
  }

  // ---------------------------------------------------------------------
  // The checker's state

  /** The sub-message kinds of the reports, one per distinct error. */
  datatype ErrorKind =
    | NoValidDimension
    | AlreadyDefined
    | NotDefined
    | IncompatibleAssignment
    | IncompatibleRead
    | NotPrimitive

  /** One report: the node marked ERROR, the node the message is about,
      and what went wrong. */
  datatype TypeError = TypeError(source: nat, affected: nat, kind: ErrorKind)

  /** The node types, the identifier types (shared per lexeme through the
      symbol table), the first declaration of each identifier, the validity
      flag and the reports so far. An identifier missing from `ids` has
      type NONE. */
  datatype TState = TState(types: seq<FundamentalType>, ids: map<string, FundamentalType>,
                           definitions: map<string, nat>, valid: bool, errors: seq<TypeError>)

  function IdType(ids: map<string, FundamentalType>, name: string): FundamentalType {
    if name in ids then ids[name] else NoneType
  }

  /** get_data_type: a token answers with its identifier's type, any other
      node with its own slot. */
  function TypeOf(sk: Tree, st: TState, m: nat): FundamentalType
    requires m < |sk| && |st.types| == |sk|
  {
    match sk[m].userdata
    case Some(TokenData(t)) => if t.value.Lexeme? then IdType(st.ids, t.value.lexeme) else NoneType
    case _ => st.types[m]
  }

  /** set_data_type on a variable node. */
  function Mark(st: TState, m: nat, t: FundamentalType): TState
    requires m < |st.types|
  {
    st.(types := st.types[m := t])
  }

  /** handle_error: the source node becomes ERROR, the checker invalid,
      and the report is logged. */
  function WithError(st: TState, source: nat, affected: nat, kind: ErrorKind): (r: TState)
    requires source < |st.types|
    ensures |r.types| == |st.types| && r.types[source] == ErrorType && !r.valid
    ensures |r.errors| == |st.errors| + 1 && r.errors[..|st.errors|] == st.errors
    ensures r.errors[|st.errors|].source == source
  {
    st.(types := st.types[source := ErrorType], valid := false,
        errors := st.errors + [TypeError(source, affected, kind)])
  }

  /** A declaration gives the identifier its type; the dictionary of first
      declarations keeps an existing entry, as the map's insert does. */
  function Declare(st: TState, name: string, node: nat, t: FundamentalType): TState {
    st.(ids := st.ids[name := t],
        definitions := if name in st.definitions then st.definitions else st.definitions[name := node])
  }

  /** Identifier and index types that make a primitive value: a plain INT,
      or an INT_ARRAY with an index. */
  predicate Accessible(identifier: FundamentalType, index: FundamentalType) {
    (identifier == IntType && index == NoneType) || (identifier == IntArrayType && index == ArrayType)
  }

  /** determine_identifier_compound_type: the type of an identifier with an
      optional index. */
  function Compound(identifier: FundamentalType, index: FundamentalType): (r: FundamentalType)
    ensures r == IntType <==> Accessible(identifier, index)
    ensures r == NoneType <==> identifier == NoneType && index == NoneType
    ensures r == IntArrayType <==> identifier == IntArrayType && index == NoneType
    ensures r in {NoneType, IntType, IntArrayType, ErrorType}
  {
    if identifier == NoneType && index == NoneType then NoneType
    else if identifier == IntArrayType && index == ArrayType then IntType
    else if identifier == IntArrayType && index == NoneType then IntArrayType
    else if identifier == IntType && index == NoneType then IntType
    else ErrorType
  }

  // ---------------------------------------------------------------------
  // What a walk may change

  /** Only node types inside the subtree of n change. */
  ghost predicate Framed(sk: Tree, a: TState, b: TState, n: nat)
    requires Linked(sk)
  {
    |a.types| == |sk| && |b.types| == |sk|
    && forall m :: 0 <= m < |sk| && !Below(sk, m, n) ==> b.types[m] == a.types[m]
  }

  /** Reports are only appended, and the checker stays valid exactly when
      it was valid and nothing was reported. */
  ghost predicate Logged(a: TState, b: TState) {
    a.errors <= b.errors && b.valid == (a.valid && b.errors == a.errors)
  }

  ghost predicate Effect(sk: Tree, a: TState, b: TState, n: nat)
    requires Linked(sk)
  {
    Framed(sk, a, b, n) && Logged(a, b)
  }

  /** Every node of the subtree of n still has type NONE, as the parser
      leaves it. */
  ghost predicate Fresh(sk: Tree, types: seq<FundamentalType>, n: nat)
    requires Linked(sk) && |types| == |sk|
  {
    forall m :: 0 <= m < |sk| && Below(sk, m, n) ==> types[m] == NoneType
  }

  /** An expression's type after its walk: INT when no error was reported
      inside it, ERROR otherwise. */
  ghost predicate Judged(a: TState, b: TState, n: nat, ok: FundamentalType)
    requires n < |b.types|
  {
    b.types[n] == (if b.errors == a.errors then ok else ErrorType)
  }

  /** The walk of a child stays inside the subtree of its parent. */
  lemma EffectUp(sk: Tree, a: TState, b: TState, n: nat, j: nat)
    requires Linked(sk) && n < |sk| && j < |sk[n].children|
    requires Effect(sk, a, b, sk[n].children[j])
    ensures Effect(sk, a, b, n)
  {
    forall m | 0 <= m < |sk| && !Below(sk, m, n)
      ensures b.types[m] == a.types[m]
    {
      if Below(sk, m, sk[n].children[j]) {
        BelowChild(sk, m, n, j);
      }
    }
  }

  lemma EffectThen(sk: Tree, a: TState, b: TState, c: TState, n: nat)
    requires Linked(sk) && Effect(sk, a, b, n) && Effect(sk, b, c, n)
    ensures Effect(sk, a, c, n)
  {
    assert a.errors == b.errors[..|a.errors|] && b.errors == c.errors[..|b.errors|];
    assert c.errors[..|a.errors|] == c.errors[..|b.errors|][..|a.errors|];
  }

  /** Marking node n, or reporting at n, stays inside the subtree of n. */
  lemma EffectOfMark(sk: Tree, a: TState, n: nat, t: FundamentalType)
    requires Linked(sk) && n < |sk| && |a.types| == |sk|
    ensures Effect(sk, a, Mark(a, n, t), n)
  {
  }

  lemma EffectOfError(sk: Tree, a: TState, n: nat, affected: nat, kind: ErrorKind)
    requires Linked(sk) && n < |sk| && |a.types| == |sk|
    ensures Effect(sk, a, WithError(a, n, affected, kind), n)
  {
    assert a.errors <= a.errors + [TypeError(n, affected, kind)];
  }

  /** The walk of one child leaves its siblings' types alone. */
  lemma Untouched(sk: Tree, a: TState, b: TState, n: nat, j: nat, k: nat)
    requires Linked(sk) && n < |sk| && j < |sk[n].children| && k < |sk[n].children| && j != k
    requires Framed(sk, a, b, sk[n].children[j])
    ensures b.types[sk[n].children[k]] == a.types[sk[n].children[k]]
  {
    SiblingsDisjoint(sk, sk[n].children[k], n, k, j);
  }

  lemma FreshDown(sk: Tree, types: seq<FundamentalType>, n: nat, j: nat)
    requires Linked(sk) && |types| == |sk| && n < |sk| && j < |sk[n].children|
    ensures Fresh(sk, types, n) ==> Fresh(sk, types, sk[n].children[j])
  {
    if Fresh(sk, types, n) {
      forall m | 0 <= m < |sk| && Below(sk, m, sk[n].children[j])
        ensures types[m] == NoneType
      {
        BelowChild(sk, m, n, j);
      }
    }
  }

  /** The walk of one child leaves a sibling's subtree fresh. */
  lemma FreshBeside(sk: Tree, a: TState, b: TState, n: nat, j: nat, k: nat)
    requires Linked(sk) && n < |sk| && j < |sk[n].children| && k < |sk[n].children| && j != k
    requires Framed(sk, a, b, sk[n].children[j])
    ensures Fresh(sk, a.types, sk[n].children[k]) ==> Fresh(sk, b.types, sk[n].children[k])
  {
    if Fresh(sk, a.types, sk[n].children[k]) {
      forall m | 0 <= m < |sk| && Below(sk, m, sk[n].children[k])
        ensures b.types[m] == NoneType
      {
        SiblingsDisjoint(sk, m, n, k, j);
      }
    }
  }

  /** The node types are recorded in the state for every node. */
  ghost predicate Checkable(sk: Tree, st: TState, n: nat, v: Variable) {
    WellShaped(sk) && Ordered(sk) && |st.types| == |sk| && IsVar(sk, n, v) && Conforms(sk, n)
  }

  // ---------------------------------------------------------------------
  // Expressions

  /** The type an INDEX node stands for: NONE when absent, ARRAY when
      present. */
  function IndexShape(sk: Tree, m: nat): FundamentalType
    requires m < |sk|
  {
    if sk[m].children == [] then NoneType else ArrayType
  }

  /** The token kind heading node n, DEADBEEF when there is none. */
  function HeadKind(sk: Tree, n: nat): TokenType
    requires n < |sk|
  {
    var ch := sk[n].children;
    if ch != [] && ch[0] < |sk| && sk[ch[0]].userdata.Some? && sk[ch[0]].userdata.value.TokenData?
    then TokenOf(sk, ch[0]).kind else DeadBeef
  }

  // The typing rules, one per variable and stated on the tree alone: an
  // identifier is usable as a plain INT or as an indexed INT_ARRAY, and a
  // compound form is well typed when its parts are.

  ghost predicate IndexTyped(sk: Tree, ids: map<string, FundamentalType>, n: nat)
    requires Ordered(sk) && n < |sk|
    decreases |sk| - n
  {
    var ch := sk[n].children;
    ch == [] || (|ch| == 3 && ExpTyped(sk, ids, ch[1]))
  }

  ghost predicate OpExpTyped(sk: Tree, ids: map<string, FundamentalType>, n: nat)
    requires Ordered(sk) && n < |sk|
    decreases |sk| - n
  {
    var ch := sk[n].children;
    ch == [] || (|ch| == 2 && ExpTyped(sk, ids, ch[1]))
  }

  ghost predicate ExpTyped(sk: Tree, ids: map<string, FundamentalType>, n: nat)
    requires Ordered(sk) && n < |sk|
    decreases |sk| - n
  {
    var ch := sk[n].children;
    |ch| == 2 && Exp2Typed(sk, ids, ch[0]) && OpExpTyped(sk, ids, ch[1])
  }

  ghost predicate Exp2Typed(sk: Tree, ids: map<string, FundamentalType>, n: nat)
    requires Ordered(sk) && n < |sk|
    decreases |sk| - n
  {
    var ch := sk[n].children;
    match HeadKind(sk, n)
    case ParenthesisOpen => |ch| == 3 && ExpTyped(sk, ids, ch[1])
    case Identifier => |ch| == 2 && IsName(sk, ch[0])
      && Accessible(IdType(ids, NameOf(sk, ch[0])), IndexShape(sk, ch[1])) && IndexTyped(sk, ids, ch[1])
    case Integer => true
    case Minus => |ch| == 2 && Exp2Typed(sk, ids, ch[1])
    case Not => |ch| == 2 && Exp2Typed(sk, ids, ch[1])
    case _ => false
  }

  ghost predicate StatementTyped(sk: Tree, ids: map<string, FundamentalType>, n: nat)
    requires Ordered(sk) && n < |sk|
    decreases |sk| - n
  {
    var ch := sk[n].children;
    match HeadKind(sk, n)
    case Identifier => |ch| == 4 && IsName(sk, ch[0])
      && Accessible(IdType(ids, NameOf(sk, ch[0])), IndexShape(sk, ch[1]))
      && IndexTyped(sk, ids, ch[1]) && ExpTyped(sk, ids, ch[3])
    case Write => |ch| == 4 && ExpTyped(sk, ids, ch[2])
    case Read => |ch| == 5 && IsName(sk, ch[2])
      && Accessible(IdType(ids, NameOf(sk, ch[2])), IndexShape(sk, ch[3])) && IndexTyped(sk, ids, ch[3])
    case CurlyBracketOpen => |ch| == 3 && StatementsTyped(sk, ids, ch[1])
    case If => |ch| == 7 && ExpTyped(sk, ids, ch[2]) && StatementTyped(sk, ids, ch[4])
      && StatementTyped(sk, ids, ch[6])
    case While => |ch| == 5 && ExpTyped(sk, ids, ch[2]) && StatementTyped(sk, ids, ch[4])
    case _ => false
  }

  ghost predicate StatementsTyped(sk: Tree, ids: map<string, FundamentalType>, n: nat)
    requires Ordered(sk) && n < |sk|
    decreases |sk| - n
  {
    var ch := sk[n].children;
    ch == [] || (|ch| == 3 && StatementTyped(sk, ids, ch[0]) && StatementsTyped(sk, ids, ch[2]))
  }

  /** What a walk of node n promises: it stays inside its subtree, keeps
      the identifier types, only appends reports, and on a fresh subtree
      reports nothing exactly when the subtree is well typed (`typed`). */
  ghost predicate Stepped(sk: Tree, st: TState, r: TState, n: nat, typed: bool)
    requires Linked(sk) && |st.types| == |sk| && n < |sk|
  {
    Effect(sk, st, r, n) && r.ids == st.ids && r.definitions == st.definitions
    && (Fresh(sk, st.types, n) ==> (r.errors == st.errors <==> typed))
  }

  /** An expression walk also leaves its node `ok` when it reported
      nothing and ERROR otherwise. */
  ghost predicate Walked(sk: Tree, st: TState, r: TState, n: nat, typed: bool, ok: FundamentalType)
    requires Linked(sk) && |st.types| == |sk| && n < |sk|
  {
    Stepped(sk, st, r, n, typed) && (Fresh(sk, st.types, n) ==> Judged(st, r, n, ok))
  }

  /** Walking child j and then setting the type of n stays inside n. */
  lemma ChildThenMark(sk: Tree, st: TState, s1: TState, n: nat, j: nat, t: FundamentalType)
    requires Linked(sk) && n < |sk| && j < |sk[n].children| && |st.types| == |sk|
    requires Effect(sk, st, s1, sk[n].children[j])
    ensures Effect(sk, st, Mark(s1, n, t), n)
  {
    EffectUp(sk, st, s1, n, j);
    EffectOfMark(sk, s1, n, t);
    EffectThen(sk, st, s1, Mark(s1, n, t), n);
  }

  /** Walking child j and then reporting at n stays inside n. */
  lemma ChildThenError(sk: Tree, st: TState, s1: TState, n: nat, j: nat, affected: nat, kind: ErrorKind)
    requires Linked(sk) && n < |sk| && j < |sk[n].children| && |st.types| == |sk|
    requires Effect(sk, st, s1, sk[n].children[j])
    ensures Effect(sk, st, WithError(s1, n, affected, kind), n)
  {
    EffectUp(sk, st, s1, n, j);
    EffectOfError(sk, s1, n, affected, kind);
    EffectThen(sk, st, s1, WithError(s1, n, affected, kind), n);
  }

  /** One child walked, then the type of n set: the common shape of
      parentheses, unary minus, NOT, and non-empty OP_EXP and INDEX nodes.
      The new type is `ok` for a child of type `okChild`, and ERROR for an
      ERROR child. */
  lemma UnaryStep(sk: Tree, st: TState, s1: TState, n: nat, j: nat, typed: bool,
                  okChild: FundamentalType, t: FundamentalType, ok: FundamentalType)
    requires Linked(sk) && |st.types| == |sk| && n < |sk| && j < |sk[n].children|
    requires Walked(sk, st, s1, sk[n].children[j], typed, okChild)
    requires okChild != ErrorType && ok != ErrorType
    requires s1.types[sk[n].children[j]] == okChild ==> t == ok
    requires s1.types[sk[n].children[j]] == ErrorType ==> t == ErrorType
    ensures Walked(sk, st, Mark(s1, n, t), n, typed, ok)
  {
    ChildThenMark(sk, st, s1, n, j, t);
    FreshDown(sk, st.types, n, j);
  }

  /** One child walked and nothing else: a write statement, a block. */
  lemma PassStep(sk: Tree, st: TState, s1: TState, n: nat, j: nat, typed: bool)
    requires Linked(sk) && |st.types| == |sk| && n < |sk| && j < |sk[n].children|
    requires Stepped(sk, st, s1, sk[n].children[j], typed)
    ensures Stepped(sk, st, s1, n, typed)
  {
    EffectUp(sk, st, s1, n, j);
    FreshDown(sk, st.types, n, j);
  }

  /** An EPSILON-derived INDEX or OP_EXP: nothing is walked. */
  lemma EmptyStep(sk: Tree, st: TState, n: nat)
    requires Linked(sk) && |st.types| == |sk| && n < |sk| && sk[n].children == []
    requires IsVar(sk, n, Index) || IsVar(sk, n, OpExp)
    ensures Walked(sk, st, st, n, true, NoneType)
  {
  }

  /** check_index: a non-empty index is ARRAY unless its expression is
      ERROR; an empty one is left alone. */
  ghost function AfterIndex(sk: Tree, st: TState, n: nat): (r: TState)
    requires Checkable(sk, st, n, Index)
    ensures Walked(sk, st, r, n, IndexTyped(sk, st.ids, n), IndexShape(sk, n))
    ensures sk[n].children == [] ==> r == st
    decreases |sk| - n, 0
  {
    var ch := sk[n].children;
    if ch == [] then
      EmptyStep(sk, st, n);
      st
    else
      var s1 := AfterExp(sk, st, ch[1]);
      var t := if TypeOf(sk, s1, ch[1]) == ErrorType then ErrorType else ArrayType;
      UnaryStep(sk, st, s1, n, 1, ExpTyped(sk, st.ids, ch[1]), IntType, t, ArrayType);
      Mark(s1, n, t)
  }

  /** check_exp: EXP takes the EXP2 type when OP_EXP is NONE or agrees
      with it, and is ERROR otherwise. */
  ghost function AfterExp(sk: Tree, st: TState, n: nat): (r: TState)
    requires Checkable(sk, st, n, Exp)
    ensures Walked(sk, st, r, n, ExpTyped(sk, st.ids, n), IntType)
    decreases |sk| - n, 2
  {
    var ch := sk[n].children;
    var s1 := AfterExp2(sk, st, ch[0]);
    var s2 := AfterOpExp(sk, s1, ch[1]);
    ExpStep(sk, st, s1, s2, n, Exp2Typed(sk, st.ids, ch[0]), OpExpTyped(sk, st.ids, ch[1]));
    ExpVerdict(sk, s2, n)
  }

  /** The type an EXP node gets from its two parts. */
  function ExpVerdict(sk: Tree, s2: TState, n: nat): TState
    requires n < |sk| && |s2.types| == |sk| && |sk[n].children| == 2
    requires sk[n].children[0] < |sk| && sk[n].children[1] < |sk|
  {
    var left, right := TypeOf(sk, s2, sk[n].children[0]), TypeOf(sk, s2, sk[n].children[1]);
    Mark(s2, n, if right == NoneType || left == right then left else ErrorType)
  }

  lemma ExpStep(sk: Tree, st: TState, s1: TState, s2: TState, n: nat, t0: bool, t1: bool)
    requires Linked(sk) && |st.types| == |sk| && n < |sk| && IsVar(sk, n, Exp) && |sk[n].children| == 2
    requires IsVar(sk, sk[n].children[0], Exp2) && IsVar(sk, sk[n].children[1], OpExp)
    requires Walked(sk, st, s1, sk[n].children[0], t0, IntType)
    requires Walked(sk, s1, s2, sk[n].children[1], t1,
                    if sk[sk[n].children[1]].children == [] then NoneType else IntType)
    ensures Walked(sk, st, ExpVerdict(sk, s2, n), n, t0 && t1, IntType)
  {
    var ch := sk[n].children;
    EffectUp(sk, st, s1, n, 0);
    EffectUp(sk, s1, s2, n, 1);
    EffectThen(sk, st, s1, s2, n);
    EffectOfMark(sk, s2, n, ExpVerdict(sk, s2, n).types[n]);
    EffectThen(sk, st, s2, ExpVerdict(sk, s2, n), n);
    Untouched(sk, s1, s2, n, 1, 0);
    FreshDown(sk, st.types, n, 0);
    FreshDown(sk, st.types, n, 1);
    FreshBeside(sk, st, s1, n, 0, 1);
  }

  /** check_exp2: dispatch on the first token of the EXP2 node. */
  ghost function AfterExp2(sk: Tree, st: TState, n: nat): (r: TState)
    requires Checkable(sk, st, n, Exp2)
    ensures Walked(sk, st, r, n, Exp2Typed(sk, st.ids, n), IntType)
    decreases |sk| - n, 1
  {
    Exp2Shapes(sk, n);
    var k := TokenOf(sk, sk[n].children[0]).kind;
    if k == ParenthesisOpen then AfterParenthesis(sk, st, n)
    else if k == Identifier then AfterIdentifier(sk, st, n)
    else if k == Integer then
      IntegerStep(sk, st, n);
      IntegerRule(sk, st.ids, n);
      Mark(st, n, IntType)
    else if k == Minus then AfterMinus(sk, st, n)
    else AfterNot(sk, st, n)
  }

  /** check_exp2_integer: an integer literal is INT. */
  lemma IntegerStep(sk: Tree, st: TState, n: nat)
    requires Linked(sk) && |st.types| == |sk| && n < |sk| && IsVar(sk, n, Exp2)
    requires |sk[n].children| == 1 && IsNumber(sk, sk[n].children[0])
    ensures Walked(sk, st, Mark(st, n, IntType), n, true, IntType)
  {
    EffectOfMark(sk, st, n, IntType);
  }

  lemma IntegerRule(sk: Tree, ids: map<string, FundamentalType>, n: nat)
    requires Ordered(sk) && n < |sk| && |sk[n].children| == 1 && IsNumber(sk, sk[n].children[0])
    ensures Exp2Typed(sk, ids, n)
  {
    assert HeadKind(sk, n) == Integer;
  }

  /** check_exp2_parenthesis_open: the type of the enclosed expression. */
  ghost function AfterParenthesis(sk: Tree, st: TState, n: nat): (r: TState)
    requires Checkable(sk, st, n, Exp2) && IsTok(sk, sk[n].children[0], ParenthesisOpen)
    ensures Walked(sk, st, r, n, Exp2Typed(sk, st.ids, n), IntType)
    decreases |sk| - n, 0
  {
    Exp2Shapes(sk, n);
    var ch := sk[n].children;
    var s1 := AfterExp(sk, st, ch[1]);
    UnaryStep(sk, st, s1, n, 1, ExpTyped(sk, st.ids, ch[1]), IntType, TypeOf(sk, s1, ch[1]), IntType);
    ParenthesisRule(sk, st.ids, n);
    Mark(s1, n, TypeOf(sk, s1, ch[1]))
  }

  /** A parenthesised expression is well typed when its inner one is. */
  lemma ParenthesisRule(sk: Tree, ids: map<string, FundamentalType>, n: nat)
    requires Ordered(sk) && n < |sk| && |sk[n].children| == 3 && IsTok(sk, sk[n].children[0], ParenthesisOpen)
    ensures Exp2Typed(sk, ids, n) == ExpTyped(sk, ids, sk[n].children[1])
  {
    assert HeadKind(sk, n) == ParenthesisOpen;
  }

  /** check_exp2_identifier: INT for a plain INT or an indexed INT_ARRAY;
      otherwise "not defined" for an untyped identifier and "not a
      primitive type" for any other combination. */
  ghost function AfterIdentifier(sk: Tree, st: TState, n: nat): (r: TState)
    requires Checkable(sk, st, n, Exp2) && IsName(sk, sk[n].children[0])
    ensures Walked(sk, st, r, n, Exp2Typed(sk, st.ids, n), IntType)
    decreases |sk| - n, 0
  {
    Exp2Shapes(sk, n);
    var ch := sk[n].children;
    var s1 := AfterIndex(sk, st, ch[1]);
    IdentifierStep(sk, st, s1, n, IndexTyped(sk, st.ids, ch[1]));
    IdentifierRule(sk, st.ids, n);
    IdentifierVerdict(sk, s1, n)
  }

  /** The verdict on an identifier in an expression, once its index is
      checked. */
  function IdentifierVerdict(sk: Tree, s1: TState, n: nat): TState
    requires n < |sk| && |s1.types| == |sk| && |sk[n].children| == 2
    requires sk[n].children[0] < |sk| && sk[n].children[1] < |sk|
  {
    var ch := sk[n].children;
    var identifier, index := TypeOf(sk, s1, ch[0]), TypeOf(sk, s1, ch[1]);
    if Accessible(identifier, index) then Mark(s1, n, IntType)
    else if identifier == NoneType then WithError(s1, n, ch[0], NotDefined)
    else WithError(s1, n, n, NotPrimitive)
  }

  lemma IdentifierStep(sk: Tree, st: TState, s1: TState, n: nat, typed: bool)
    requires Linked(sk) && |st.types| == |sk| && n < |sk| && IsVar(sk, n, Exp2) && |sk[n].children| == 2
    requires IsName(sk, sk[n].children[0]) && IsVar(sk, sk[n].children[1], Index)
    requires Walked(sk, st, s1, sk[n].children[1], typed, IndexShape(sk, sk[n].children[1]))
    ensures Walked(sk, st, IdentifierVerdict(sk, s1, n), n,
                   Accessible(IdType(st.ids, NameOf(sk, sk[n].children[0])), IndexShape(sk, sk[n].children[1])) && typed,
                   IntType)
  {
    var ch := sk[n].children;
    FreshDown(sk, st.types, n, 1);
    var identifier, index := TypeOf(sk, s1, ch[0]), TypeOf(sk, s1, ch[1]);
    assert identifier == IdType(st.ids, NameOf(sk, ch[0]));
    if Accessible(identifier, index) {
      ChildThenMark(sk, st, s1, n, 1, IntType);
    } else if identifier == NoneType {
      ChildThenError(sk, st, s1, n, 1, ch[0], NotDefined);
    } else {
      ChildThenError(sk, st, s1, n, 1, n, NotPrimitive);
    }
  }

  /** An identifier in an expression is well typed when it names a
      primitive value with its index, and the index is well typed. */
  lemma IdentifierRule(sk: Tree, ids: map<string, FundamentalType>, n: nat)
    requires Ordered(sk) && n < |sk| && |sk[n].children| == 2 && IsName(sk, sk[n].children[0])
    ensures Exp2Typed(sk, ids, n) ==
      (Accessible(IdType(ids, NameOf(sk, sk[n].children[0])), IndexShape(sk, sk[n].children[1]))
       && IndexTyped(sk, ids, sk[n].children[1]))
  {
    assert HeadKind(sk, n) == Identifier;
  }

  /** check_exp2_minus: the operand's type. */
  ghost function AfterMinus(sk: Tree, st: TState, n: nat): (r: TState)
    requires Checkable(sk, st, n, Exp2) && IsTok(sk, sk[n].children[0], Minus)
    ensures Walked(sk, st, r, n, Exp2Typed(sk, st.ids, n), IntType)
    decreases |sk| - n, 0
  {
    Exp2Shapes(sk, n);
    var ch := sk[n].children;
    var s1 := AfterExp2(sk, st, ch[1]);
    UnaryStep(sk, st, s1, n, 1, Exp2Typed(sk, st.ids, ch[1]), IntType, TypeOf(sk, s1, ch[1]), IntType);
    UnaryRule(sk, st.ids, n);
    Mark(s1, n, TypeOf(sk, s1, ch[1]))
  }

  /** A negation, arithmetic or logical, is well typed when its operand
      is. */
  lemma UnaryRule(sk: Tree, ids: map<string, FundamentalType>, n: nat)
    requires Ordered(sk) && n < |sk| && |sk[n].children| == 2
    requires IsTok(sk, sk[n].children[0], Minus) || IsTok(sk, sk[n].children[0], Not)
    ensures Exp2Typed(sk, ids, n) == Exp2Typed(sk, ids, sk[n].children[1])
  {
    assert HeadKind(sk, n) in {Minus, Not};
  }

  /** check_exp2_not: INT for an INT operand, ERROR otherwise. */
  ghost function AfterNot(sk: Tree, st: TState, n: nat): (r: TState)
    requires Checkable(sk, st, n, Exp2) && IsTok(sk, sk[n].children[0], Not)
    ensures Walked(sk, st, r, n, Exp2Typed(sk, st.ids, n), IntType)
    decreases |sk| - n, 0
  {
    Exp2Shapes(sk, n);
    var ch := sk[n].children;
    var s1 := AfterExp2(sk, st, ch[1]);
    var t := if TypeOf(sk, s1, ch[1]) == IntType then IntType else ErrorType;
    UnaryStep(sk, st, s1, n, 1, Exp2Typed(sk, st.ids, ch[1]), IntType, t, IntType);
    UnaryRule(sk, st.ids, n);
    Mark(s1, n, t)
  }

  /** check_op_exp: a non-empty OP_EXP takes its expression's type; the
      operator itself is not checked. */
  ghost function AfterOpExp(sk: Tree, st: TState, n: nat): (r: TState)
    requires Checkable(sk, st, n, OpExp)
    ensures Walked(sk, st, r, n, OpExpTyped(sk, st.ids, n), if sk[n].children == [] then NoneType else IntType)
    ensures sk[n].children == [] ==> r == st
    decreases |sk| - n, 0
  {
    var ch := sk[n].children;
    if ch == [] then
      EmptyStep(sk, st, n);
      st
    else
      var s1 := AfterExp(sk, st, ch[1]);
      UnaryStep(sk, st, s1, n, 1, ExpTyped(sk, st.ids, ch[1]), IntType, TypeOf(sk, s1, ch[1]), IntType);
      Mark(s1, n, TypeOf(sk, s1, ch[1]))
  }

  // ---------------------------------------------------------------------
  // Statements

  /** Two children walked one after the other: together they stay inside
      the parent, keep the identifier types, and on a fresh parent report
      nothing exactly when both children are well typed. */
  lemma TwoSteps(sk: Tree, st: TState, s1: TState, s2: TState, n: nat, j: nat, tj: bool, k: nat, tk: bool)
    requires Linked(sk) && |st.types| == |sk| && n < |sk|
    requires j < |sk[n].children| && k < |sk[n].children| && j != k
    requires Stepped(sk, st, s1, sk[n].children[j], tj) && Stepped(sk, s1, s2, sk[n].children[k], tk)
    ensures Effect(sk, st, s2, n) && s2.ids == st.ids && s2.definitions == st.definitions
    ensures s2.types[sk[n].children[j]] == s1.types[sk[n].children[j]]
    ensures Fresh(sk, st.types, n) ==> (s2.errors == st.errors <==> tj && tk)
  {
    EffectUp(sk, st, s1, n, j);
    EffectUp(sk, s1, s2, n, k);
    EffectThen(sk, st, s1, s2, n);
    Untouched(sk, s1, s2, n, k, j);
    FreshDown(sk, st.types, n, j);
    FreshDown(sk, st.types, n, k);
    FreshBeside(sk, st, s1, n, j, k);
    if s2.errors == st.errors {
      assert |s1.errors| == |st.errors|;
    }
  }

  /** Two expression walks one after the other: when neither reported,
      both children have their expected types. */
  lemma TwoWalks(sk: Tree, st: TState, s1: TState, s2: TState, n: nat,
                 j: nat, tj: bool, okj: FundamentalType, k: nat, tk: bool, okk: FundamentalType)
    requires Linked(sk) && |st.types| == |sk| && n < |sk|
    requires j < |sk[n].children| && k < |sk[n].children| && j != k
    requires Walked(sk, st, s1, sk[n].children[j], tj, okj) && Walked(sk, s1, s2, sk[n].children[k], tk, okk)
    ensures Effect(sk, st, s2, n) && s2.ids == st.ids && s2.definitions == st.definitions
    ensures Fresh(sk, st.types, n) ==>
      (s2.errors == st.errors <==> tj && tk)
      && (s2.errors == st.errors ==> s2.types[sk[n].children[j]] == okj && s2.types[sk[n].children[k]] == okk)
  {
    TwoSteps(sk, st, s1, s2, n, j, tj, k, tk);
    FreshDown(sk, st.types, n, j);
    FreshDown(sk, st.types, n, k);
    FreshBeside(sk, st, s1, n, j, k);
    if s2.errors == st.errors {
      assert |s1.errors| == |st.errors|;
    }
  }

  /** A last child walked after earlier ones: the effects add up, an
      earlier sibling k keeps its type, and nothing new is reported exactly
      when the last child is well typed. */
  lemma LastStep(sk: Tree, st: TState, s2: TState, s3: TState, n: nat, j: nat, tj: bool, k: nat)
    requires Linked(sk) && |st.types| == |sk| && n < |sk|
    requires j < |sk[n].children| && k < |sk[n].children| && j != k
    requires Effect(sk, st, s2, n) && s2.ids == st.ids && s2.definitions == st.definitions
    requires Fresh(sk, st.types, n) ==> Fresh(sk, s2.types, sk[n].children[j])
    requires Stepped(sk, s2, s3, sk[n].children[j], tj)
    ensures Effect(sk, st, s3, n) && s3.ids == st.ids && s3.definitions == st.definitions
    ensures s3.types[sk[n].children[k]] == s2.types[sk[n].children[k]]
    ensures Fresh(sk, st.types, n) ==> (s3.errors == st.errors <==> s2.errors == st.errors && tj)
  {
    EffectUp(sk, s2, s3, n, j);
    EffectThen(sk, st, s2, s3, n);
    Untouched(sk, s2, s3, n, j, k);
    if s3.errors == st.errors {
      assert |s2.errors| == |st.errors|;
    }
  }

  /** The first child of n is a token. */
  predicate IsHead(sk: Tree, n: nat)
    requires n < |sk|
  {
    var ch := sk[n].children;
    ch != [] && ch[0] < |sk| && sk[ch[0]].userdata.Some? && sk[ch[0]].userdata.value.TokenData?
  }

  /** The form of an EXP2 node follows from its first token. */
  lemma Exp2Shapes(sk: Tree, n: nat)
    requires n < |sk| && IsVar(sk, n, Exp2) && Conforms(sk, n)
    ensures var ch := sk[n].children;
      |ch| > 0 && Exp2Form(sk, ch) && IsHead(sk, n)
      && (IsTok(sk, ch[0], ParenthesisOpen) ==> |ch| == 3 && IsVar(sk, ch[1], Exp))
      && (IsTok(sk, ch[0], Identifier) ==> |ch| == 2 && IsName(sk, ch[0]) && IsVar(sk, ch[1], Index))
      && (IsTok(sk, ch[0], Integer) ==> |ch| == 1 && IsNumber(sk, ch[0]))
      && (IsTok(sk, ch[0], Minus) ==> |ch| == 2 && IsVar(sk, ch[1], Exp2))
      && (IsTok(sk, ch[0], Not) ==> |ch| == 2 && IsVar(sk, ch[1], Exp2))
  {
  }

  /** The form of a statement follows from its first token. */
  lemma StatementShapes(sk: Tree, n: nat)
    requires n < |sk| && IsVar(sk, n, Statement) && Conforms(sk, n)
    ensures var ch := sk[n].children;
      |ch| > 0 && StatementForm(sk, ch) && IsHead(sk, n)
      && (IsTok(sk, ch[0], If) ==> |ch| == 7 && IsVar(sk, ch[2], Exp) && IsVar(sk, ch[4], Statement)
                                   && IsVar(sk, ch[6], Statement))
      && (IsTok(sk, ch[0], While) ==> |ch| == 5 && IsVar(sk, ch[2], Exp) && IsVar(sk, ch[4], Statement))
      && (IsTok(sk, ch[0], Write) ==> |ch| == 4 && IsVar(sk, ch[2], Exp))
      && (IsTok(sk, ch[0], Read) ==> |ch| == 5 && IsName(sk, ch[2]) && IsVar(sk, ch[3], Index))
      && (IsTok(sk, ch[0], CurlyBracketOpen) ==> |ch| == 3 && IsVar(sk, ch[1], Statements))
      && (IsName(sk, ch[0]) ==> |ch| == 4 && IsVar(sk, ch[1], Index) && IsTok(sk, ch[2], Assignment)
                                && IsVar(sk, ch[3], Exp))
  {
  }

  /** check_statement: dispatch on the first token of the statement. */
  ghost function AfterStatement(sk: Tree, st: TState, n: nat): (r: TState)
    requires Checkable(sk, st, n, Statement)
    ensures Stepped(sk, st, r, n, StatementTyped(sk, st.ids, n))
    decreases |sk| - n, 1
  {
    StatementShapes(sk, n);
    var k := TokenOf(sk, sk[n].children[0]).kind;
    if k == Identifier then AfterAssignment(sk, st, n)
    else if k == Write then AfterWrite(sk, st, n)
    else if k == Read then AfterRead(sk, st, n)
    else if k == CurlyBracketOpen then AfterBlock(sk, st, n)
    else if k == If then AfterIf(sk, st, n)
    else AfterWhile(sk, st, n)
  }

  /** check_statement_identifier: the right-hand side is checked first,
      then the index; an untyped identifier is "not defined", and a
      right-hand side that is not INT or a target that is not a primitive
      value is an incompatible assignment. */
  ghost function AfterAssignment(sk: Tree, st: TState, n: nat): (r: TState)
    requires Checkable(sk, st, n, Statement) && IsName(sk, sk[n].children[0])
    ensures Stepped(sk, st, r, n, StatementTyped(sk, st.ids, n))
    decreases |sk| - n, 0
  {
    StatementShapes(sk, n);
    var ch := sk[n].children;
    var s1 := AfterExp(sk, st, ch[3]);
    var s2 := AfterIndex(sk, s1, ch[1]);
    TwoWalks(sk, st, s1, s2, n, 3, ExpTyped(sk, st.ids, ch[3]), IntType,
             1, IndexTyped(sk, st.ids, ch[1]), IndexShape(sk, ch[1]));
    AssignmentStep(sk, st, s2, n, ExpTyped(sk, st.ids, ch[3]), IndexTyped(sk, st.ids, ch[1]));
    AssignmentRule(sk, st.ids, n);
    AssignmentVerdict(sk, s2, n)
  }

  function AssignmentVerdict(sk: Tree, s2: TState, n: nat): TState
    requires n < |sk| && |s2.types| == |sk| && |sk[n].children| == 4
    requires forall j :: 0 <= j < 4 ==> sk[n].children[j] < |sk|
  {
    var ch := sk[n].children;
    var identifier, index := TypeOf(sk, s2, ch[0]), TypeOf(sk, s2, ch[1]);
    if identifier == NoneType then WithError(s2, n, ch[0], NotDefined)
    else if TypeOf(sk, s2, ch[3]) != IntType || !Accessible(identifier, index) then
      WithError(s2, n, ch[2], IncompatibleAssignment)
    else s2
  }

  /** The assignment verdict once both walks are summarised: it reports
      nothing exactly when both walks reported nothing and the target is a
      primitive value. */
  lemma AssignmentStep(sk: Tree, st: TState, s2: TState, n: nat, texp: bool, tindex: bool)
    requires Linked(sk) && |st.types| == |sk| && n < |sk| && IsVar(sk, n, Statement) && |sk[n].children| == 4
    requires IsName(sk, sk[n].children[0]) && IsVar(sk, sk[n].children[1], Index)
    requires IsTok(sk, sk[n].children[2], Assignment) && IsVar(sk, sk[n].children[3], Exp)
    requires Effect(sk, st, s2, n) && s2.ids == st.ids && s2.definitions == st.definitions
    requires Fresh(sk, st.types, n) ==>
      (s2.errors == st.errors <==> texp && tindex)
      && (s2.errors == st.errors ==> s2.types[sk[n].children[3]] == IntType
                                     && s2.types[sk[n].children[1]] == IndexShape(sk, sk[n].children[1]))
    ensures Stepped(sk, st, AssignmentVerdict(sk, s2, n), n,
                    Accessible(IdType(st.ids, NameOf(sk, sk[n].children[0])), IndexShape(sk, sk[n].children[1]))
                    && tindex && texp)
  {
    var ch := sk[n].children;
    var r := AssignmentVerdict(sk, s2, n);
    if r != s2 {
      EffectOfError(sk, s2, n, if TypeOf(sk, s2, ch[0]) == NoneType then ch[0] else ch[2],
                    if TypeOf(sk, s2, ch[0]) == NoneType then NotDefined else IncompatibleAssignment);
      EffectThen(sk, st, s2, r, n);
    }
  }

  /** An assignment is well typed when its target is a primitive value
      and its index and right-hand side are well typed. */
  lemma AssignmentRule(sk: Tree, ids: map<string, FundamentalType>, n: nat)
    requires Ordered(sk) && n < |sk| && |sk[n].children| == 4 && IsName(sk, sk[n].children[0])
    ensures StatementTyped(sk, ids, n) ==
      (Accessible(IdType(ids, NameOf(sk, sk[n].children[0])), IndexShape(sk, sk[n].children[1]))
       && IndexTyped(sk, ids, sk[n].children[1]) && ExpTyped(sk, ids, sk[n].children[3]))
  {
    assert HeadKind(sk, n) == Identifier;
  }

  /** check_statement_write: the written expression. */
  ghost function AfterWrite(sk: Tree, st: TState, n: nat): (r: TState)
    requires Checkable(sk, st, n, Statement) && IsTok(sk, sk[n].children[0], Write)
    ensures Stepped(sk, st, r, n, StatementTyped(sk, st.ids, n))
    decreases |sk| - n, 0
  {
    StatementShapes(sk, n);
    var ch := sk[n].children;
    var s1 := AfterExp(sk, st, ch[2]);
    PassStep(sk, st, s1, n, 2, ExpTyped(sk, st.ids, ch[2]));
    PassRule(sk, st.ids, n);
    s1
  }

  /** A write statement is well typed when its expression is, and a block
      when its statements are. */
  lemma PassRule(sk: Tree, ids: map<string, FundamentalType>, n: nat)
    requires Ordered(sk) && n < |sk|
    requires (|sk[n].children| == 4 && IsTok(sk, sk[n].children[0], Write))
             || (|sk[n].children| == 3 && IsTok(sk, sk[n].children[0], CurlyBracketOpen))
    ensures IsTok(sk, sk[n].children[0], Write) ==>
      StatementTyped(sk, ids, n) == ExpTyped(sk, ids, sk[n].children[2])
    ensures IsTok(sk, sk[n].children[0], CurlyBracketOpen) ==>
      StatementTyped(sk, ids, n) == StatementsTyped(sk, ids, sk[n].children[1])
  {
    assert HeadKind(sk, n) == TokenOf(sk, sk[n].children[0]).kind;
  }

  /** check_statement_read: the index is checked; an untyped identifier is
      "not defined", and a target that is not a primitive value is an
      incompatible read. */
  ghost function AfterRead(sk: Tree, st: TState, n: nat): (r: TState)
    requires Checkable(sk, st, n, Statement) && IsTok(sk, sk[n].children[0], Read)
    ensures Stepped(sk, st, r, n, StatementTyped(sk, st.ids, n))
    decreases |sk| - n, 0
  {
    StatementShapes(sk, n);
    var ch := sk[n].children;
    var s1 := AfterIndex(sk, st, ch[3]);
    ReadStep(sk, st, s1, n, IndexTyped(sk, st.ids, ch[3]));
    ReadRule(sk, st.ids, n);
    ReadVerdict(sk, s1, n)
  }

  function ReadVerdict(sk: Tree, s1: TState, n: nat): TState
    requires n < |sk| && |s1.types| == |sk| && |sk[n].children| == 5
    requires sk[n].children[2] < |sk| && sk[n].children[3] < |sk|
  {
    var ch := sk[n].children;
    var identifier, index := TypeOf(sk, s1, ch[2]), TypeOf(sk, s1, ch[3]);
    if identifier == NoneType then WithError(s1, n, ch[2], NotDefined)
    else if !Accessible(identifier, index) then WithError(s1, n, ch[0], IncompatibleRead)
    else s1
  }

  lemma ReadStep(sk: Tree, st: TState, s1: TState, n: nat, typed: bool)
    requires Linked(sk) && |st.types| == |sk| && n < |sk| && IsVar(sk, n, Statement) && |sk[n].children| == 5
    requires IsTok(sk, sk[n].children[0], Read) && IsName(sk, sk[n].children[2])
    requires IsVar(sk, sk[n].children[3], Index)
    requires Walked(sk, st, s1, sk[n].children[3], typed, IndexShape(sk, sk[n].children[3]))
    ensures Stepped(sk, st, ReadVerdict(sk, s1, n), n,
                    Accessible(IdType(st.ids, NameOf(sk, sk[n].children[2])), IndexShape(sk, sk[n].children[3]))
                    && typed)
  {
    var ch := sk[n].children;
    EffectUp(sk, st, s1, n, 3);
    FreshDown(sk, st.types, n, 3);
    var r := ReadVerdict(sk, s1, n);
    if r != s1 {
      EffectOfError(sk, s1, n, if TypeOf(sk, s1, ch[2]) == NoneType then ch[2] else ch[0],
                    if TypeOf(sk, s1, ch[2]) == NoneType then NotDefined else IncompatibleRead);
      EffectThen(sk, st, s1, r, n);
    }
  }

  /** A read statement is well typed when its target is a primitive value
      and its index is well typed. */
  lemma ReadRule(sk: Tree, ids: map<string, FundamentalType>, n: nat)
    requires Ordered(sk) && n < |sk| && |sk[n].children| == 5 && IsTok(sk, sk[n].children[0], Read)
    requires IsName(sk, sk[n].children[2])
    ensures StatementTyped(sk, ids, n) ==
      (Accessible(IdType(ids, NameOf(sk, sk[n].children[2])), IndexShape(sk, sk[n].children[3]))
       && IndexTyped(sk, ids, sk[n].children[3]))
  {
    assert HeadKind(sk, n) == Read;
  }

  /** check_statement_curly_bracket_open: the enclosed statements. */
  ghost function AfterBlock(sk: Tree, st: TState, n: nat): (r: TState)
    requires Checkable(sk, st, n, Statement) && IsTok(sk, sk[n].children[0], CurlyBracketOpen)
    ensures Stepped(sk, st, r, n, StatementTyped(sk, st.ids, n))
    decreases |sk| - n, 0
  {
    StatementShapes(sk, n);
    var ch := sk[n].children;
    var s1 := AfterStatements(sk, st, ch[1]);
    PassStep(sk, st, s1, n, 1, StatementsTyped(sk, st.ids, ch[1]));
    PassRule(sk, st.ids, n);
    s1
  }

  /** A conditional statement becomes ERROR when its condition is ERROR;
      nothing further is reported. */
  function ConditionVerdict(sk: Tree, s: TState, n: nat): TState
    requires n < |sk| && |s.types| == |sk| && |sk[n].children| > 2 && sk[n].children[2] < |sk|
  {
    if TypeOf(sk, s, sk[n].children[2]) == ErrorType then Mark(s, n, ErrorType) else s
  }

  /** check_statement_if: condition, then-branch, else-branch. */
  ghost function AfterIf(sk: Tree, st: TState, n: nat): (r: TState)
    requires Checkable(sk, st, n, Statement) && IsTok(sk, sk[n].children[0], If)
    ensures Stepped(sk, st, r, n, StatementTyped(sk, st.ids, n))
    decreases |sk| - n, 0
  {
    StatementShapes(sk, n);
    var ch := sk[n].children;
    var s1 := AfterExp(sk, st, ch[2]);
    var s2 := AfterStatement(sk, s1, ch[4]);
    var s3 := AfterStatement(sk, s2, ch[6]);
    IfStep(sk, st, s1, s2, s3, n, ExpTyped(sk, st.ids, ch[2]), StatementTyped(sk, st.ids, ch[4]),
           StatementTyped(sk, st.ids, ch[6]));
    ConditionalRule(sk, st.ids, n);
    ConditionVerdict(sk, s3, n)
  }

  lemma IfStep(sk: Tree, st: TState, s1: TState, s2: TState, s3: TState, n: nat, t2: bool, t4: bool, t6: bool)
    requires Linked(sk) && |st.types| == |sk| && n < |sk| && |sk[n].children| == 7
    requires Walked(sk, st, s1, sk[n].children[2], t2, IntType)
    requires Stepped(sk, s1, s2, sk[n].children[4], t4)
    requires Stepped(sk, s2, s3, sk[n].children[6], t6)
    ensures Stepped(sk, st, ConditionVerdict(sk, s3, n), n, t2 && t4 && t6)
  {
    TwoSteps(sk, st, s1, s2, n, 2, t2, 4, t4);
    FreshBeside(sk, st, s1, n, 2, 6);
    FreshBeside(sk, s1, s2, n, 4, 6);
    FreshDown(sk, st.types, n, 6);
    FreshDown(sk, st.types, n, 2);
    LastStep(sk, st, s2, s3, n, 6, t6, 2);
    EffectOfMark(sk, s3, n, ErrorType);
    EffectThen(sk, st, s3, Mark(s3, n, ErrorType), n);
  }

  /** An if statement is well typed when its condition and both branches
      are, and a while statement when its condition and body are. */
  lemma ConditionalRule(sk: Tree, ids: map<string, FundamentalType>, n: nat)
    requires Ordered(sk) && n < |sk|
    requires (|sk[n].children| == 7 && IsTok(sk, sk[n].children[0], If))
             || (|sk[n].children| == 5 && IsTok(sk, sk[n].children[0], While))
    ensures IsTok(sk, sk[n].children[0], If) ==>
      StatementTyped(sk, ids, n) == (ExpTyped(sk, ids, sk[n].children[2])
                                     && StatementTyped(sk, ids, sk[n].children[4])
                                     && StatementTyped(sk, ids, sk[n].children[6]))
    ensures IsTok(sk, sk[n].children[0], While) ==>
      StatementTyped(sk, ids, n) == (ExpTyped(sk, ids, sk[n].children[2])
                                     && StatementTyped(sk, ids, sk[n].children[4]))
  {
    assert HeadKind(sk, n) == TokenOf(sk, sk[n].children[0]).kind;
  }

  /** check_statement_while: condition, then body. */
  ghost function AfterWhile(sk: Tree, st: TState, n: nat): (r: TState)
    requires Checkable(sk, st, n, Statement) && IsTok(sk, sk[n].children[0], While)
    ensures Stepped(sk, st, r, n, StatementTyped(sk, st.ids, n))
    decreases |sk| - n, 0
  {
    StatementShapes(sk, n);
    var ch := sk[n].children;
    var s1 := AfterExp(sk, st, ch[2]);
    var s2 := AfterStatement(sk, s1, ch[4]);
    WhileStep(sk, st, s1, s2, n, ExpTyped(sk, st.ids, ch[2]), StatementTyped(sk, st.ids, ch[4]));
    ConditionalRule(sk, st.ids, n);
    ConditionVerdict(sk, s2, n)
  }

  lemma WhileStep(sk: Tree, st: TState, s1: TState, s2: TState, n: nat, t2: bool, t4: bool)
    requires Linked(sk) && |st.types| == |sk| && n < |sk| && |sk[n].children| == 5
    requires Walked(sk, st, s1, sk[n].children[2], t2, IntType)
    requires Stepped(sk, s1, s2, sk[n].children[4], t4)
    ensures Stepped(sk, st, ConditionVerdict(sk, s2, n), n, t2 && t4)
  {
    TwoSteps(sk, st, s1, s2, n, 2, t2, 4, t4);
    FreshDown(sk, st.types, n, 2);
    EffectOfMark(sk, s2, n, ErrorType);
    EffectThen(sk, st, s2, Mark(s2, n, ErrorType), n);
  }

  /** check_statements: the first statement, then the rest. */
  ghost function AfterStatements(sk: Tree, st: TState, n: nat): (r: TState)
    requires Checkable(sk, st, n, Statements)
    ensures Stepped(sk, st, r, n, StatementsTyped(sk, st.ids, n))
    ensures sk[n].children == [] ==> r == st
    decreases |sk| - n, 2
  {
    var ch := sk[n].children;
    if ch == [] then
      EffectOfNothing(sk, st, n);
      st
    else
      var s1 := AfterStatement(sk, st, ch[0]);
      var s2 := AfterStatements(sk, s1, ch[2]);
      TwoSteps(sk, st, s1, s2, n, 0, StatementTyped(sk, st.ids, ch[0]), 2, StatementsTyped(sk, st.ids, ch[2]));
      s2
  }

  /** An empty statement list is well typed and walks nothing. */
  lemma EffectOfNothing(sk: Tree, st: TState, n: nat)
    requires Linked(sk) && |st.types| == |sk| && n < |sk| && IsVar(sk, n, Statements) && sk[n].children == []
    ensures Stepped(sk, st, st, n, true)
  {
  }

  // ---------------------------------------------------------------------
  // Declarations

  /** The outcome of a run of declarations: whether all were accepted, and
      the identifier types afterwards. */
  datatype Scope = Scope(ok: bool, ids: map<string, FundamentalType>)

  /** The declaration rule: an identifier may be declared once; without a
      dimension it is INT, with a positive dimension INT_ARRAY, and a
      dimension that is not positive rejects the declaration. */
  function Declaration(sk: Tree, ids: map<string, FundamentalType>, d: nat): (r: Scope)
    requires d < |sk|
    ensures !r.ok ==> r.ids == ids
    ensures r.ok ==> exists x :: IdType(ids, x) == NoneType && x in r.ids
                                 && r.ids[x] in {IntType, IntArrayType} && r.ids == ids[x := r.ids[x]]
  {
    var ch := sk[d].children;
    if |ch| == 3 && IsName(sk, ch[2]) && ch[1] < |sk| then
      var name, dims := NameOf(sk, ch[2]), sk[ch[1]].children;
      if IdType(ids, name) != NoneType then Scope(false, ids)
      else if dims == [] then
        assert ids[name := IntType] == ids[name := ids[name := IntType][name]];
        Scope(true, ids[name := IntType])
      else if |dims| == 3 && IsNumber(sk, dims[1]) && NumberOf(sk, dims[1]) > 0 then
        assert ids[name := IntArrayType] == ids[name := ids[name := IntArrayType][name]];
        Scope(true, ids[name := IntArrayType])
      else Scope(false, ids)
    else Scope(false, ids)
  }

  /** The declarations of a DECLS chain, in order. */
  function Declarations(sk: Tree, ids: map<string, FundamentalType>, n: nat): (r: Scope)
    requires Linked(sk) && n < |sk|
    ensures forall x :: IdType(ids, x) != NoneType ==> IdType(r.ids, x) == IdType(ids, x)
    decreases |sk| - n
  {
    var ch := sk[n].children;
    if |ch| == 3 then
      var first := Declaration(sk, ids, ch[0]);
      var rest := Declarations(sk, first.ids, ch[2]);
      Scope(first.ok && rest.ok, rest.ids)
    else Scope(true, ids)
  }

  /** What a declaration walk promises: it stays inside its subtree and,
      on a fresh subtree, leaves exactly the identifier types of the rule
      and reports nothing exactly when the rule accepts. */
  ghost predicate Registered(sk: Tree, st: TState, r: TState, n: nat, scope: Scope)
    requires Linked(sk) && |st.types| == |sk| && n < |sk|
  {
    Effect(sk, st, r, n)
    && (Fresh(sk, st.types, n) ==> r.ids == scope.ids && (r.errors == st.errors <==> scope.ok))
  }

  /** check_array: a positive dimension makes the array ARRAY; any other
      is reported. */
  ghost function AfterArray(sk: Tree, st: TState, a: nat): (r: TState)
    requires Checkable(sk, st, a, Array)
    ensures Dimensioned(sk, st, r, a)
  {
    var ch := sk[a].children;
    if ch == [] then st
    else if NumberOf(sk, ch[1]) > 0 then Mark(st, a, ArrayType)
    else
      EffectOfError(sk, st, a, ch[1], NoValidDimension);
      WithError(st, a, ch[1], NoValidDimension)
  }

  /** The outcome of check_array on a node of the ARRAY shape. */
  ghost predicate Dimensioned(sk: Tree, st: TState, r: TState, a: nat)
    requires Linked(sk) && |st.types| == |sk| && a < |sk|
  {
    Effect(sk, st, r, a) && r.ids == st.ids && r.definitions == st.definitions
    && (sk[a].children == [] ==> r == st)
    && (sk[a].children != [] ==>
          |sk[a].children| == 3 && IsNumber(sk, sk[a].children[1])
          && r.types[a] == (if NumberOf(sk, sk[a].children[1]) > 0 then ArrayType else ErrorType)
          && (r.errors == st.errors <==> NumberOf(sk, sk[a].children[1]) > 0))
  }

  /** check_decl: the dimension is checked first; an identifier that
      already has a type is "already defined"; a rejected dimension marks
      the declaration ERROR; otherwise the identifier is declared INT or
      INT_ARRAY and its first declaration recorded. */
  ghost function AfterDecl(sk: Tree, st: TState, d: nat): (r: TState)
    requires Checkable(sk, st, d, Decl)
    ensures Registered(sk, st, r, d, Declaration(sk, st.ids, d))
  {
    var s1 := AfterArray(sk, st, sk[d].children[1]);
    DeclStep(sk, st, s1, d);
    DeclVerdict(sk, s1, d)
  }

  function DeclVerdict(sk: Tree, s1: TState, d: nat): TState
    requires d < |sk| && |s1.types| == |sk| && |sk[d].children| == 3
    requires sk[d].children[1] < |sk| && IsName(sk, sk[d].children[2])
  {
    var ch := sk[d].children;
    var name := NameOf(sk, ch[2]);
    if TypeOf(sk, s1, ch[2]) != NoneType then WithError(s1, d, ch[2], AlreadyDefined)
    else if TypeOf(sk, s1, ch[1]) == ErrorType then Mark(s1, d, ErrorType)
    else if TypeOf(sk, s1, ch[1]) == ArrayType then Declare(s1, name, ch[2], IntArrayType)
    else Declare(s1, name, ch[2], IntType)
  }

  lemma DeclStep(sk: Tree, st: TState, s1: TState, d: nat)
    requires Linked(sk) && |st.types| == |sk| && d < |sk| && IsVar(sk, d, Decl) && |sk[d].children| == 3
    requires IsVar(sk, sk[d].children[1], Array) && IsName(sk, sk[d].children[2])
    requires Dimensioned(sk, st, s1, sk[d].children[1])
    ensures Registered(sk, st, DeclVerdict(sk, s1, d), d, Declaration(sk, st.ids, d))
  {
    var ch := sk[d].children;
    EffectUp(sk, st, s1, d, 1);
    FreshDown(sk, st.types, d, 1);
    assert Below(sk, ch[1], ch[1]);
    var r := DeclVerdict(sk, s1, d);
    if TypeOf(sk, s1, ch[2]) != NoneType {
      EffectOfError(sk, s1, d, ch[2], AlreadyDefined);
      EffectThen(sk, st, s1, r, d);
    } else if TypeOf(sk, s1, ch[1]) == ErrorType {
      EffectOfMark(sk, s1, d, ErrorType);
      EffectThen(sk, st, s1, r, d);
    }
  }

  /** check_decls: the first declaration, then the rest. */
  ghost function AfterDecls(sk: Tree, st: TState, n: nat): (r: TState)
    requires Checkable(sk, st, n, Decls)
    ensures Registered(sk, st, r, n, Declarations(sk, st.ids, n))
    decreases |sk| - n
  {
    var ch := sk[n].children;
    if ch == [] then st
    else
      var s1 := AfterDecl(sk, st, ch[0]);
      var s2 := AfterDecls(sk, s1, ch[2]);
      DeclsStep(sk, st, s1, s2, n);
      s2
  }

  lemma DeclsStep(sk: Tree, st: TState, s1: TState, s2: TState, n: nat)
    requires Linked(sk) && |st.types| == |sk| && n < |sk| && IsVar(sk, n, Decls) && |sk[n].children| == 3
    requires Registered(sk, st, s1, sk[n].children[0], Declaration(sk, st.ids, sk[n].children[0]))
    requires Registered(sk, s1, s2, sk[n].children[2], Declarations(sk, s1.ids, sk[n].children[2]))
    ensures Registered(sk, st, s2, n, Declarations(sk, st.ids, n))
  {
    EffectUp(sk, st, s1, n, 0);
    EffectUp(sk, s1, s2, n, 2);
    EffectThen(sk, st, s1, s2, n);
    FreshDown(sk, st.types, n, 0);
    FreshDown(sk, st.types, n, 2);
    FreshBeside(sk, st, s1, n, 0, 2);
    if s2.errors == st.errors {
      assert |s1.errors| == |st.errors|;
    }
  }

  // ---------------------------------------------------------------------
  // The program

  /** The typing rule of a whole program: every declaration is accepted,
      and the statements are well typed under the declared identifiers. */
  ghost predicate ProgramTyped(sk: Tree, ids: map<string, FundamentalType>, p: nat)
    requires Linked(sk) && Ordered(sk) && p < |sk|
  {
    var ch := sk[p].children;
    |ch| == 2 && Declarations(sk, ids, ch[0]).ok && StatementsTyped(sk, Declarations(sk, ids, ch[0]).ids, ch[1])
  }

  /** check_prog: the declarations, then the statements. */
  ghost function AfterProg(sk: Tree, st: TState, p: nat): (r: TState)
    requires Checkable(sk, st, p, Prog)
    ensures Effect(sk, st, r, p)
    ensures Fresh(sk, st.types, p) ==>
      r.ids == Declarations(sk, st.ids, sk[p].children[0]).ids
      && (r.errors == st.errors <==> ProgramTyped(sk, st.ids, p))
  {
    var ch := sk[p].children;
    var s1 := AfterDecls(sk, st, ch[0]);
    var s2 := AfterStatements(sk, s1, ch[1]);
    ProgStep(sk, st, s1, s2, p);
    s2
  }

  lemma ProgStep(sk: Tree, st: TState, s1: TState, s2: TState, p: nat)
    requires Linked(sk) && Ordered(sk) && |st.types| == |sk| && p < |sk| && IsVar(sk, p, Prog) && |sk[p].children| == 2
    requires Registered(sk, st, s1, sk[p].children[0], Declarations(sk, st.ids, sk[p].children[0]))
    requires Stepped(sk, s1, s2, sk[p].children[1], StatementsTyped(sk, s1.ids, sk[p].children[1]))
    ensures Effect(sk, st, s2, p)
    ensures Fresh(sk, st.types, p) ==>
      s2.ids == Declarations(sk, st.ids, sk[p].children[0]).ids
      && (s2.errors == st.errors <==> ProgramTyped(sk, st.ids, p))
  {
    EffectUp(sk, st, s1, p, 0);
    EffectUp(sk, s1, s2, p, 1);
    EffectThen(sk, st, s1, s2, p);
    FreshDown(sk, st.types, p, 0);
    FreshDown(sk, st.types, p, 1);
    FreshBeside(sk, st, s1, p, 0, 1);
    if s2.errors == st.errors {
      assert |s1.errors| == |st.errors|;
    }
  }

  // ---------------------------------------------------------------------
  // Source reconstruction for reports

  /** The separator reconstruct_source puts before a token: one space when
      the token is on another line than the previous one or starts after
      the previous token's text ends, nothing otherwise. */
  function Gap(previous: Token, previousText: string, next: Token): string {
    if next.line != previous.line || next.column > previous.column + |previousText| then " " else ""
  }

  /** The texts of the tokens, separated as reconstruct_source separates
      them. `texts[i]` is the printed form of `tokens[i]`. */
  function Reconstructed(tokens: seq<Token>, texts: seq<string>): string
    requires |tokens| == |texts|
    decreases |tokens|
  {
    if |tokens| == 0 then ""
    else if |tokens| == 1 then texts[0]
    else
      var k := |tokens| - 1;
      Reconstructed(tokens[..k], texts[..k]) + Gap(tokens[k - 1], texts[k - 1], tokens[k]) + texts[k]
  }

  /** The number of characters in all the texts together. */
  function TotalLength(texts: seq<string>): nat {
    if texts == [] then 0 else TotalLength(texts[..|texts| - 1]) + |texts[|texts| - 1]|
  }

  /** The texts one after the other, with nothing between them. */
  function Joined(texts: seq<string>): string {
    if texts == [] then "" else Joined(texts[..|texts| - 1]) + texts[|texts| - 1]
  }

  /** The texts with one space between neighbours. */
  function Spaced(texts: seq<string>): string {
    if |texts| <= 1 then Joined(texts) else Spaced(texts[..|texts| - 1]) + " " + texts[|texts| - 1]
  }

  /** No tokens give the empty string; otherwise the result starts with
      the first token's text, never with an added space, and holds every
      text's characters plus at most one space per later token. */
  lemma {:induction false} ReconstructedShape(tokens: seq<Token>, texts: seq<string>)
    requires |tokens| == |texts|
    ensures tokens == [] ==> Reconstructed(tokens, texts) == ""
    ensures tokens != [] ==> texts[0] <= Reconstructed(tokens, texts)
    ensures tokens != [] ==>
      TotalLength(texts) <= |Reconstructed(tokens, texts)| <= TotalLength(texts) + |tokens| - 1
    decreases |tokens|
  {
    if |tokens| > 1 {
      var k := |tokens| - 1;
      ReconstructedShape(tokens[..k], texts[..k]);
      assert texts[..k][0] == texts[0];
      assert texts[..k] == texts[..|texts| - 1];
    } else if |tokens| == 1 {
      assert texts[..0] == [];
    }
  }

  /** Token i is on the line of token i - 1 and starts no later than the
      text of token i - 1 ends. */
  predicate Touching(tokens: seq<Token>, texts: seq<string>, i: nat)
    requires |tokens| == |texts| && 0 < i < |tokens|
  {
    tokens[i].line == tokens[i - 1].line && tokens[i].column <= tokens[i - 1].column + |texts[i - 1]|
  }

  /** Token i is on another line than token i - 1. */
  predicate NewLine(tokens: seq<Token>, i: nat)
    requires 0 < i < |tokens|
  {
    tokens[i].line != tokens[i - 1].line
  }

  /** Tokens on one line, each starting no later than the previous one
      ends, are reconstructed with nothing between them. */
  lemma {:induction false} ReconstructedContiguous(tokens: seq<Token>, texts: seq<string>)
    requires |tokens| == |texts|
    requires forall i :: 0 < i < |tokens| ==> Touching(tokens, texts, i)
    ensures Reconstructed(tokens, texts) == Joined(texts)
    decreases |tokens|
  {
    if |tokens| > 1 {
      var k := |tokens| - 1;
      forall i | 0 < i < k
        ensures Touching(tokens[..k], texts[..k], i)
      {
        assert Touching(tokens, texts, i);
      }
      ReconstructedContiguous(tokens[..k], texts[..k]);
      assert Touching(tokens, texts, k);
      assert Gap(tokens[k - 1], texts[k - 1], tokens[k]) == "";
    } else if |tokens| == 1 {
      assert texts[..0] == [];
    }
  }

  /** Tokens each on a line of its own are reconstructed with one space
      between neighbours. */
  lemma {:induction false} ReconstructedLines(tokens: seq<Token>, texts: seq<string>)
    requires |tokens| == |texts|
    requires forall i :: 0 < i < |tokens| ==> NewLine(tokens, i)
    ensures Reconstructed(tokens, texts) == Spaced(texts)
    decreases |tokens|
  {
    if |tokens| > 1 {
      var k := |tokens| - 1;
      forall i | 0 < i < k
        ensures NewLine(tokens[..k], i)
      {
        assert NewLine(tokens, i);
      }
      ReconstructedLines(tokens[..k], texts[..k]);
      assert NewLine(tokens, k);
      assert Gap(tokens[k - 1], texts[k - 1], tokens[k]) == " ";
    } else if |tokens| == 1 {
      assert texts[..0] == [];
      assert Joined(texts[..0]) == "";
    }
  }

  /** One more token: its separator, then its text. */
  lemma ReconstructedStep(tokens: seq<Token>, texts: seq<string>, i: nat)
    requires |tokens| == |texts| && i < |tokens|
    ensures Reconstructed(tokens[..i + 1], texts[..i + 1]) ==
      Reconstructed(tokens[..i], texts[..i]) + (if i == 0 then "" else Gap(tokens[i - 1], texts[i - 1], tokens[i])) + texts[i]
  {
    assert tokens[..i + 1][..i] == tokens[..i] && texts[..i + 1][..i] == texts[..i];
  }

  /** The step in the terms of the loop of reconstruct_source: a space
      exactly when the token changes line or lies beyond the column where
      the previous token's text ended. */
  lemma SpacedStep(tokens: seq<Token>, texts: seq<string>, i: nat, lastLine: nat, nextColumn: nat)
    requires |tokens| == |texts| && i < |tokens|
    requires i == 0 ==> lastLine == tokens[0].line && nextColumn == tokens[0].column
    requires i > 0 ==> lastLine == tokens[i - 1].line && nextColumn == tokens[i - 1].column + |texts[i - 1]|
    ensures Reconstructed(tokens[..i + 1], texts[..i + 1]) ==
      Reconstructed(tokens[..i], texts[..i])
      + (if tokens[i].line != lastLine || tokens[i].column > nextColumn then " " else "") + texts[i]
  {
    ReconstructedStep(tokens, texts, i);
  }

  /** One pass of the loop of reconstruct_source on the output string: an
      optional space, then the token's text. Answers the text's size. */
  method AppendToken(output: String, space: bool, text: string) returns (size: nat)
    requires output.Valid()
    modifies output.Repr
    ensures output.Valid() && fresh(output.Repr - old(output.Repr))
    ensures output.Chars() == old(output.Chars()) + (if space then " " else "") + text
    ensures size == |text|
  {
    if space {
      output.AppendChar(' ');
    }
    var piece := new String.FromChars(text);
    output.Append(piece);
    size := piece.Size();
  }

  /** reconstruct_source: the tokens' texts in order, a space before each
      token that is on a new line or leaves a gap after the previous one. */
  method ReconstructSource(tokens: seq<Token>, texts: seq<string>) returns (output: String)
    requires |tokens| == |texts|
    ensures output.Valid() && fresh(output.Repr)
    ensures output.Chars() == Reconstructed(tokens, texts)
  {
    output := new String();
    if |tokens| == 0 {
      return;
    }
    var lastLine, nextColumn := tokens[0].line, tokens[0].column;
    var i := 0;
    while i < |tokens|
      invariant 0 <= i <= |tokens|
      invariant output.Valid() && fresh(output.Repr)
      invariant output.Chars() == Reconstructed(tokens[..i], texts[..i])
      invariant i == 0 ==> lastLine == tokens[0].line && nextColumn == tokens[0].column
      invariant i > 0 ==> lastLine == tokens[i - 1].line && nextColumn == tokens[i - 1].column + |texts[i - 1]|
    {
      lastLine, nextColumn := ReconstructPass(output, tokens, texts, i, lastLine, nextColumn);
      i := i + 1;
    }
    assert tokens[..i] == tokens && texts[..i] == texts;
  }

  /** The body of the loop of reconstruct_source for token i: the output
      gains the token's separator and text, and the line and the column
      where the token's text ends are answered. */
  method ReconstructPass(output: String, tokens: seq<Token>, texts: seq<string>, i: nat, lastLine: nat, nextColumn: nat)
    returns (line: nat, column: nat)
    requires |tokens| == |texts| && i < |tokens| && output.Valid()
    requires output.Chars() == Reconstructed(tokens[..i], texts[..i])
    requires i == 0 ==> lastLine == tokens[0].line && nextColumn == tokens[0].column
    requires i > 0 ==> lastLine == tokens[i - 1].line && nextColumn == tokens[i - 1].column + |texts[i - 1]|
    modifies output.Repr
    ensures output.Valid() && fresh(output.Repr - old(output.Repr))
    ensures output.Chars() == Reconstructed(tokens[..i + 1], texts[..i + 1])
    ensures line == tokens[i].line && column == tokens[i].column + |texts[i]|
  {
    var token := tokens[i];
    var space := token.line != lastLine || token.column > nextColumn;
    SpacedStep(tokens, texts, i, lastLine, nextColumn);
    var size := AppendToken(output, space, texts[i]);
    line, column := token.line, token.column + size;
  }

  /** The first pass of reconstruct_source with the as-written `+=`: the
      output starts with 15 free slots, so a first token of 16 characters
      takes the reallocating branch, and the output ends in an embedded
      '\0' that makes it one character longer than the token. */
  method ReconstructLongFirstTokenAsWritten() returns (size: nat, last: char)
    ensures size == 17 && last == '\0'
  {
    var output := new String();
    var piece := new String.FromChars("abcdefghijklmnop");
    output.AppendAsWritten(piece);
    size := output.Size();
    last := output.At(16);
  }

  // ---------------------------------------------------------------------
  // The checker object

  /** The data types of an arena's nodes. */
  function TypesOf(nodes: Tree): (r: seq<FundamentalType>)
    ensures |r| == |nodes|
  {
    seq(|nodes|, i requires 0 <= i < |nodes| => nodes[i].dataType)
  }

  /** An arena with its data types cleared: the shape the checker walks,
      which setting data types does not change. */
  function Stripped(nodes: Tree): (r: Tree)
    ensures |r| == |nodes|
  {
    seq(|nodes|, i requires 0 <= i < |nodes| => nodes[i].(dataType := NoneType))
  }

  /** Setting one node's data type changes that type and not the shape. */
  lemma Retyped(nodes: Tree, n: nat, t: FundamentalType)
    requires n < |nodes|
    ensures Stripped(nodes[n := nodes[n].(dataType := t)]) == Stripped(nodes)
    ensures TypesOf(nodes[n := nodes[n].(dataType := t)]) == TypesOf(nodes)[n := t]
  {
    var after := nodes[n := nodes[n].(dataType := t)];
    assert forall i :: 0 <= i < |nodes| ==> Stripped(after)[i] == Stripped(nodes)[i];
    assert forall i :: 0 <= i < |nodes| ==> TypesOf(after)[i] == TypesOf(nodes)[n := t][i];
  }

  /** The tree links do not depend on the data types. */
  lemma StrippedLinked(nodes: Tree)
    requires Linked(Stripped(nodes))
    ensures Linked(nodes)
  {
    var sk := Stripped(nodes);
    assert forall m :: 0 <= m < |nodes| ==>
      nodes[m].parent == sk[m].parent && nodes[m].children == sk[m].children && nodes[m].userdata == sk[m].userdata;
  }

  /** The state a check starts from: every node NONE as the parser left
      it, no identifier typed, valid, nothing reported. */
  function Initial(sk: Tree): (r: TState)
    ensures |r.types| == |sk| && r.valid && r.errors == [] && r.ids == map[]
    ensures forall m :: 0 <= m < |sk| ==> r.types[m] == NoneType
  {
    TState(seq(|sk|, _ => NoneType), map[], map[], true, [])
  }

  /** operator(): checking a freshly parsed program leaves the checker
      valid exactly when every declaration is accepted and the statements
      are well typed, and valid exactly when nothing was reported. */
  lemma CheckVerdict(sk: Tree)
    requires WellShaped(sk)
    ensures var r := AfterProg(sk, Initial(sk), sk[RootIndex].children[0]);
      (r.valid <==> ProgramTyped(sk, map[], sk[RootIndex].children[0])) && (r.valid <==> r.errors == [])
  {
    LinkedOrdered(sk);
    var p := sk[RootIndex].children[0];
    assert Fresh(sk, Initial(sk).types, p);
  }

  /** TypeCheck: walks the parse tree, writing node types into it, and
      keeps the identifier types, the first declarations, the validity
      flag and the reports. */
  class TypeCheck {
    const tree: ParseTree<TreeData>
    ghost const sk: Tree
    var identifierTypes: map<string, FundamentalType>
    var definitions: map<string, nat>
    var valid: bool
    var errors: seq<TypeError>

    ghost predicate Valid()
      reads this, tree
    {
      Stripped(tree.nodes) == sk && WellShaped(sk) && Ordered(sk)
    }

    ghost function State(): TState
      reads this, tree
    {
      TState(TypesOf(tree.nodes), identifierTypes, definitions, valid, errors)
    }

    /** A checker over a parsed program starts valid, with no identifier
        typed and nothing reported. */
    constructor (tree: ParseTree<TreeData>)
      requires tree.Valid() && WellShaped(Stripped(tree.nodes))
      ensures Valid() && this.tree == tree && sk == Stripped(tree.nodes)
      ensures identifierTypes == map[] && definitions == map[] && valid && errors == []
    {
      this.tree := tree;
      sk := Stripped(tree.nodes);
      LinkedOrdered(Stripped(tree.nodes));
      identifierTypes := map[];
      definitions := map[];
      valid := true;
      errors := [];
    }

    /** get_data_type. */
    function DataTypeOf(n: nat): (t: FundamentalType)
      reads this, tree
      requires Valid() && n < |sk|
      ensures t == TypeOf(sk, State(), n)
    {
      assert sk[n].userdata == tree.nodes[n].userdata;
      match tree.nodes[n].userdata
      case Some(TokenData(k)) => if k.value.Lexeme? then IdType(identifierTypes, k.value.lexeme) else NoneType
      case _ => tree.nodes[n].dataType
    }

    /** The kind of the token heading node n. */
    function HeadKindOf(n: nat): (k: TokenType)
      reads this, tree
      requires Valid() && n < |sk| && IsHead(sk, n)
      ensures k == TokenOf(sk, sk[n].children[0]).kind
    {
      var c := sk[n].children[0];
      assert sk[c].userdata == tree.nodes[c].userdata && sk[n].children == tree.nodes[n].children;
      tree.nodes[tree.nodes[n].children[0]].userdata.value.token.kind
    }

    /** The i-th child of node n. */
    function ChildOf(n: nat, i: nat): (c: nat)
      reads this, tree
      requires Valid() && n < |sk| && i < |sk[n].children|
      ensures c == sk[n].children[i] && n < c < |sk|
    {
      assert sk[n].children == tree.nodes[n].children;
      tree.nodes[n].children[i]
    }

    /** set_data_type on a variable node. */
    method SetType(n: nat, t: FundamentalType)
      requires Valid() && n < |sk|
      modifies tree
      ensures Valid() && State() == Mark(old(State()), n, t)
    {
      Retyped(tree.nodes, n, t);
      StrippedLinked(tree.nodes);
      tree.SetDataType(n, t);
    }

    /** handle_error, without the message text. */
    method HandleError(source: nat, affected: nat, kind: ErrorKind)
      requires Valid() && source < |sk|
      modifies this, tree
      ensures Valid() && State() == WithError(old(State()), source, affected, kind)
    {
      SetType(source, ErrorType);
      valid := false;
      errors := errors + [TypeError(source, affected, kind)];
    }

    /** identifier_dictionary_add, then set_data_type on the identifier. */
    method DeclareIdentifier(name: string, node: nat, t: FundamentalType)
      requires Valid()
      modifies this
      ensures Valid() && State() == Declare(old(State()), name, node, t)
    {
      if name !in definitions {
        definitions := definitions[name := node];
      }
      identifierTypes := identifierTypes[name := t];
    }

    /** operator(): checks the program under the root and answers whether
        nothing was reported. */
    method Run() returns (ok: bool)
      requires Valid()
      modifies this, tree
      ensures Valid() && ok == valid
      ensures State() == AfterProg(sk, old(State()), sk[RootIndex].children[0])
      ensures Fresh(sk, old(State()).types, sk[RootIndex].children[0]) ==>
        (ok <==> old(valid) && ProgramTyped(sk, old(identifierTypes), sk[RootIndex].children[0]))
    {
      var p := ChildOf(RootIndex, 0);
      CheckProg(p);
      ok := valid;
    }

    method CheckProg(p: nat)
      requires Valid() && IsVar(sk, p, Prog)
      modifies this, tree
      ensures Valid() && State() == AfterProg(sk, old(State()), p)
    {
      assert Conforms(sk, p);
      CheckDecls(ChildOf(p, 0));
      CheckStatements(ChildOf(p, 1));
    }

    method CheckDecls(n: nat)
      requires Valid() && IsVar(sk, n, Decls)
      modifies this, tree
      ensures Valid() && State() == AfterDecls(sk, old(State()), n)
      decreases |sk| - n
    {
      assert Conforms(sk, n);
      if ChildCount(n) != 0 {
        CheckDecl(ChildOf(n, 0));
        CheckDecls(ChildOf(n, 2));
      }
    }

    function ChildCount(n: nat): (k: nat)
      reads this, tree
      requires Valid() && n < |sk|
      ensures k == |sk[n].children|
    {
      assert sk[n].children == tree.nodes[n].children;
      |tree.nodes[n].children|
    }

    method CheckDecl(d: nat)
      requires Valid() && IsVar(sk, d, Decl)
      modifies this, tree
      ensures Valid() && State() == AfterDecl(sk, old(State()), d)
    {
      assert Conforms(sk, d);
      var a, x := ChildOf(d, 1), ChildOf(d, 2);
      CheckArray(a);
      ghost var s1 := State();
      if DataTypeOf(x) != NoneType {
        HandleError(d, x, AlreadyDefined);
      } else {
        var dimension := DataTypeOf(a);
        var name := NameAt(x);
        if dimension == ErrorType {
          SetType(d, ErrorType);
        } else if dimension == ArrayType {
          DeclareIdentifier(name, x, IntArrayType);
        } else {
          DeclareIdentifier(name, x, IntType);
        }
      }
      assert State() == DeclVerdict(sk, s1, d);
    }

    /** The lexeme of an identifier leaf. */
    function NameAt(x: nat): (name: string)
      reads this, tree
      requires Valid() && IsName(sk, x)
      ensures name == NameOf(sk, x)
    {
      assert sk[x].userdata == tree.nodes[x].userdata;
      tree.nodes[x].userdata.value.token.value.lexeme
    }

    /** The value of an integer-literal leaf. */
    function NumberAt(x: nat): (value: int)
      reads this, tree
      requires Valid() && IsNumber(sk, x)
      ensures value == NumberOf(sk, x)
    {
      assert sk[x].userdata == tree.nodes[x].userdata;
      tree.nodes[x].userdata.value.token.value.integer
    }

    method CheckArray(a: nat)
      requires Valid() && IsVar(sk, a, Array)
      modifies this, tree
      ensures Valid() && State() == AfterArray(sk, old(State()), a)
    {
      assert Conforms(sk, a);
      if ChildCount(a) != 0 {
        var dimension := ChildOf(a, 1);
        if NumberAt(dimension) > 0 {
          SetType(a, ArrayType);
        } else {
          HandleError(a, dimension, NoValidDimension);
        }
      }
    }

    method CheckStatements(n: nat)
      requires Valid() && IsVar(sk, n, Statements)
      modifies this, tree
      ensures Valid() && State() == AfterStatements(sk, old(State()), n)
      decreases |sk| - n, 2
    {
      assert Conforms(sk, n);
      if ChildCount(n) != 0 {
        CheckStatement(ChildOf(n, 0));
        CheckStatements(ChildOf(n, 2));
      }
    }

    /** check_statement: dispatch on the first token. */
    method CheckStatement(n: nat)
      requires Valid() && IsVar(sk, n, Statement)
      modifies this, tree
      ensures Valid() && State() == AfterStatement(sk, old(State()), n)
      decreases |sk| - n, 1
    {
      assert Conforms(sk, n);
      StatementShapes(sk, n);
      var k := HeadKindOf(n);
      if k == Identifier {
        CheckAssignment(n);
      } else if k == Write {
        CheckWrite(n);
      } else if k == Read {
        CheckRead(n);
      } else if k == CurlyBracketOpen {
        CheckBlock(n);
      } else if k == If {
        CheckIf(n);
      } else {
        CheckWhile(n);
      }
    }

    method CheckAssignment(n: nat)
      requires Valid() && IsVar(sk, n, Statement) && |sk[n].children| > 0 && IsName(sk, sk[n].children[0])
      modifies this, tree
      ensures Valid() && State() == AfterAssignment(sk, old(State()), n)
      decreases |sk| - n, 0
    {
      assert Conforms(sk, n);
      StatementShapes(sk, n);
      var x, index, operator, right := ChildOf(n, 0), ChildOf(n, 1), ChildOf(n, 2), ChildOf(n, 3);
      CheckExp(right);
      CheckIndex(index);
      ghost var s2 := State();
      var identifierType, indexType := DataTypeOf(x), DataTypeOf(index);
      if identifierType == NoneType {
        HandleError(n, x, NotDefined);
      } else if DataTypeOf(right) != IntType || !Accessible(identifierType, indexType) {
        HandleError(n, operator, IncompatibleAssignment);
      }
      assert State() == AssignmentVerdict(sk, s2, n);
    }

    method CheckWrite(n: nat)
      requires Valid() && IsVar(sk, n, Statement) && |sk[n].children| > 0 && IsTok(sk, sk[n].children[0], Write)
      modifies this, tree
      ensures Valid() && State() == AfterWrite(sk, old(State()), n)
      decreases |sk| - n, 0
    {
      assert Conforms(sk, n);
      StatementShapes(sk, n);
      CheckExp(ChildOf(n, 2));
    }

    method CheckRead(n: nat)
      requires Valid() && IsVar(sk, n, Statement) && |sk[n].children| > 0 && IsTok(sk, sk[n].children[0], Read)
      modifies this, tree
      ensures Valid() && State() == AfterRead(sk, old(State()), n)
      decreases |sk| - n, 0
    {
      assert Conforms(sk, n);
      StatementShapes(sk, n);
      var keyword, x, index := ChildOf(n, 0), ChildOf(n, 2), ChildOf(n, 3);
      CheckIndex(index);
      ghost var s1 := State();
      var identifierType, indexType := DataTypeOf(x), DataTypeOf(index);
      if identifierType == NoneType {
        HandleError(n, x, NotDefined);
      } else if !Accessible(identifierType, indexType) {
        HandleError(n, keyword, IncompatibleRead);
      }
      assert State() == ReadVerdict(sk, s1, n);
    }

    method CheckBlock(n: nat)
      requires Valid() && IsVar(sk, n, Statement) && |sk[n].children| > 0
      requires IsTok(sk, sk[n].children[0], CurlyBracketOpen)
      modifies this, tree
      ensures Valid() && State() == AfterBlock(sk, old(State()), n)
      decreases |sk| - n, 0
    {
      assert Conforms(sk, n);
      StatementShapes(sk, n);
      CheckStatements(ChildOf(n, 1));
    }

    method CheckIf(n: nat)
      requires Valid() && IsVar(sk, n, Statement) && |sk[n].children| > 0 && IsTok(sk, sk[n].children[0], If)
      modifies this, tree
      ensures Valid() && State() == AfterIf(sk, old(State()), n)
      decreases |sk| - n, 0
    {
      assert Conforms(sk, n);
      StatementShapes(sk, n);
      CheckExp(ChildOf(n, 2));
      CheckStatement(ChildOf(n, 4));
      CheckStatement(ChildOf(n, 6));
      MarkCondition(n);
    }

    /** A conditional statement is ERROR when its condition is. */
    method MarkCondition(n: nat)
      requires Valid() && n < |sk| && |sk[n].children| > 2
      modifies tree
      ensures Valid() && State() == ConditionVerdict(sk, old(State()), n)
    {
      if DataTypeOf(ChildOf(n, 2)) == ErrorType {
        SetType(n, ErrorType);
      }
    }

    method CheckWhile(n: nat)
      requires Valid() && IsVar(sk, n, Statement) && |sk[n].children| > 0 && IsTok(sk, sk[n].children[0], While)
      modifies this, tree
      ensures Valid() && State() == AfterWhile(sk, old(State()), n)
      decreases |sk| - n, 0
    {
      assert Conforms(sk, n);
      StatementShapes(sk, n);
      CheckExp(ChildOf(n, 2));
      CheckStatement(ChildOf(n, 4));
      MarkCondition(n);
    }

    method CheckIndex(n: nat)
      requires Valid() && IsVar(sk, n, Index)
      modifies this, tree
      ensures Valid() && State() == AfterIndex(sk, old(State()), n)
      decreases |sk| - n, 0
    {
      assert Conforms(sk, n);
      if ChildCount(n) != 0 {
        var e := ChildOf(n, 1);
        CheckExp(e);
        if DataTypeOf(e) == ErrorType {
          SetType(n, ErrorType);
        } else {
          SetType(n, ArrayType);
        }
      }
    }

    method CheckExp(n: nat)
      requires Valid() && IsVar(sk, n, Exp)
      modifies this, tree
      ensures Valid() && State() == AfterExp(sk, old(State()), n)
      decreases |sk| - n, 2
    {
      assert Conforms(sk, n);
      var left, right := ChildOf(n, 0), ChildOf(n, 1);
      CheckExp2(left);
      CheckOpExp(right);
      ghost var s2 := State();
      var leftType, rightType := DataTypeOf(left), DataTypeOf(right);
      SetType(n, if rightType == NoneType || leftType == rightType then leftType else ErrorType);
      assert State() == ExpVerdict(sk, s2, n);
    }

    /** check_exp2: dispatch on the first token. */
    method CheckExp2(n: nat)
      requires Valid() && IsVar(sk, n, Exp2)
      modifies this, tree
      ensures Valid() && State() == AfterExp2(sk, old(State()), n)
      decreases |sk| - n, 1
    {
      assert Conforms(sk, n);
      Exp2Shapes(sk, n);
      var k := HeadKindOf(n);
      if k == ParenthesisOpen {
        CheckParenthesis(n);
      } else if k == Identifier {
        CheckIdentifier(n);
      } else if k == Integer {
        SetType(n, IntType);
      } else if k == Minus {
        CheckMinus(n);
      } else {
        CheckNot(n);
      }
    }

    method CheckParenthesis(n: nat)
      requires Valid() && IsVar(sk, n, Exp2) && |sk[n].children| > 0
      requires IsTok(sk, sk[n].children[0], ParenthesisOpen)
      modifies this, tree
      ensures Valid() && State() == AfterParenthesis(sk, old(State()), n)
      decreases |sk| - n, 0
    {
      assert Conforms(sk, n);
      Exp2Shapes(sk, n);
      var e := ChildOf(n, 1);
      CheckExp(e);
      SetType(n, DataTypeOf(e));
    }

    method CheckIdentifier(n: nat)
      requires Valid() && IsVar(sk, n, Exp2) && |sk[n].children| > 0 && IsName(sk, sk[n].children[0])
      modifies this, tree
      ensures Valid() && State() == AfterIdentifier(sk, old(State()), n)
      decreases |sk| - n, 0
    {
      assert Conforms(sk, n);
      Exp2Shapes(sk, n);
      var x, index := ChildOf(n, 0), ChildOf(n, 1);
      CheckIndex(index);
      ghost var s1 := State();
      var identifierType, indexType := DataTypeOf(x), DataTypeOf(index);
      if Accessible(identifierType, indexType) {
        SetType(n, IntType);
      } else if identifierType == NoneType {
        HandleError(n, x, NotDefined);
      } else {
        HandleError(n, n, NotPrimitive);
      }
      assert State() == IdentifierVerdict(sk, s1, n);
    }

    method CheckMinus(n: nat)
      requires Valid() && IsVar(sk, n, Exp2) && |sk[n].children| > 0 && IsTok(sk, sk[n].children[0], Minus)
      modifies this, tree
      ensures Valid() && State() == AfterMinus(sk, old(State()), n)
      decreases |sk| - n, 0
    {
      assert Conforms(sk, n);
      Exp2Shapes(sk, n);
      var e := ChildOf(n, 1);
      CheckExp2(e);
      SetType(n, DataTypeOf(e));
    }

    method CheckNot(n: nat)
      requires Valid() && IsVar(sk, n, Exp2) && |sk[n].children| > 0 && IsTok(sk, sk[n].children[0], Not)
      modifies this, tree
      ensures Valid() && State() == AfterNot(sk, old(State()), n)
      decreases |sk| - n, 0
    {
      assert Conforms(sk, n);
      Exp2Shapes(sk, n);
      var e := ChildOf(n, 1);
      CheckExp2(e);
      if DataTypeOf(e) == IntType {
        SetType(n, IntType);
      } else {
        SetType(n, ErrorType);
      }
    }

    method CheckOpExp(n: nat)
      requires Valid() && IsVar(sk, n, OpExp)
      modifies this, tree
      ensures Valid() && State() == AfterOpExp(sk, old(State()), n)
      decreases |sk| - n, 0
    {
      assert Conforms(sk, n);
      if ChildCount(n) != 0 {
        var e := ChildOf(n, 1);
        CheckExp(e);
        SetType(n, DataTypeOf(e));
      }
    }
  }
}
