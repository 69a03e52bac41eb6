/** Token kinds, tokens and the fundamental data types of the language. */
module Tokens {

  /** The token kinds in declaration order. `Epsilon` (the empty word and the
      end-of-input marker) and `EnumEntryCount` (the number of kinds before
      it, used to size the parser's table) close the list. */
  datatype TokenType =
    | DeadBeef
    | Plus | Minus | Colon | Asterisk | LessThan | GreaterThan | Equality
    | Assignment | Whatever | Not | LogicalAnd | Semicolon
    | ParenthesisOpen | ParenthesisClose | CurlyBracketOpen | CurlyBracketClose
    | SquareBracketOpen | SquareBracketClose
    | Integer | OutOfRangeInteger | Identifier
    | If | Else | While | Read | Write | Int
    | Comment | LineFeed
    | Epsilon
    | EnumEntryCount

  /** The number of real token kinds: the ordinal of `EnumEntryCount`. */
  const TokenTypeCount: nat := 31

  /** The position of a kind in declaration order. */
  function Ordinal(t: TokenType): (r: nat)
    ensures r <= TokenTypeCount
  {
    match t
    case DeadBeef => 0
    case Plus => 1
    case Minus => 2
    case Colon => 3
    case Asterisk => 4
    case LessThan => 5
    case GreaterThan => 6
    case Equality => 7
    case Assignment => 8
    case Whatever => 9
    case Not => 10
    case LogicalAnd => 11
    case Semicolon => 12
    case ParenthesisOpen => 13
    case ParenthesisClose => 14
    case CurlyBracketOpen => 15
    case CurlyBracketClose => 16
    case SquareBracketOpen => 17
    case SquareBracketClose => 18
    case Integer => 19
    case OutOfRangeInteger => 20
    case Identifier => 21
    case If => 22
    case Else => 23
    case While => 24
    case Read => 25
    case Write => 26
    case Int => 27
    case Comment => 28
    case LineFeed => 29
    case Epsilon => 30
    case EnumEntryCount => 31
  }

  /** The kind with ordinal k. */
  function KindAt(k: nat): TokenType
    requires k <= TokenTypeCount
  {
    match k
    case 0 => DeadBeef
    case 1 => Plus
    case 2 => Minus
    case 3 => Colon
    case 4 => Asterisk
    case 5 => LessThan
    case 6 => GreaterThan
    case 7 => Equality
    case 8 => Assignment
    case 9 => Whatever
    case 10 => Not
    case 11 => LogicalAnd
    case 12 => Semicolon
    case 13 => ParenthesisOpen
    case 14 => ParenthesisClose
    case 15 => CurlyBracketOpen
    case 16 => CurlyBracketClose
    case 17 => SquareBracketOpen
    case 18 => SquareBracketClose
    case 19 => Integer
    case 20 => OutOfRangeInteger
    case 21 => Identifier
    case 22 => If
    case 23 => Else
    case 24 => While
    case 25 => Read
    case 26 => Write
    case 27 => Int
    case 28 => Comment
    case 29 => LineFeed
    case 30 => Epsilon
    case _ => EnumEntryCount
  }

  /** The kind with ordinal k has ordinal k. */
  lemma OrdinalOfKindAt(k: nat)
    requires k <= TokenTypeCount
    ensures Ordinal(KindAt(k)) == k
  {
    if k < 16 {
      if k < 8 {
        assert k == 0 || k == 1 || k == 2 || k == 3 || k == 4 || k == 5 || k == 6 || k == 7;
      } else {
        assert k == 8 || k == 9 || k == 10 || k == 11 || k == 12 || k == 13 || k == 14 || k == 15;
      }
    } else if k < 24 {
      assert k == 16 || k == 17 || k == 18 || k == 19 || k == 20 || k == 21 || k == 22 || k == 23;
    } else {
      assert k == 24 || k == 25 || k == 26 || k == 27 || k == 28 || k == 29 || k == 30 || k == 31;
    }
  }

  /** Every kind is the kind of its own ordinal. */
  lemma KindAtOrdinal(t: TokenType)
    ensures KindAt(Ordinal(t)) == t
  {
    match t
    case _ =>
  }

  /** Ordinals are a bijection onto 0..31, and only `EnumEntryCount` lies
      outside the parser's 31 table rows. */
  lemma OrdinalBijective(t: TokenType, u: TokenType)
    ensures Ordinal(t) == Ordinal(u) ==> t == u
    ensures Ordinal(t) < TokenTypeCount <==> t != EnumEntryCount
  {
    KindAtOrdinal(t);
    KindAtOrdinal(u);
  }

  /** What a token carries beside its kind: the symbol-table lexeme for
      identifiers and keywords, the value of an integer literal, or the
      offending character of a DEADBEEF error token. */
  datatype TokenValue =
    | NoValue
    | Lexeme(lexeme: string)
    | IntegerValue(integer: int)
    | ErrorChar(symbol: char)

  datatype Token = Token(line: nat, column: nat, kind: TokenType, value: TokenValue)
}
