/** ASCII character classes used by the lexical automaton. Characters are
    the unsigned byte the automaton reads, 0..255. */
module CharacterClassification {

  type Byte = b: int | 0 <= b < 256

  /** The largest code the automaton accepts (7-bit ASCII). */
  const SupportedEncodingMax: Byte := 0x7F

  predicate IsAlpha(c: Byte) {
    ('a' as int <= c <= 'z' as int) || ('A' as int <= c <= 'Z' as int)
  }

  predicate IsDigit(c: Byte) {
    '0' as int <= c <= '9' as int
  }

  predicate IsAlnum(c: Byte) {
    IsAlpha(c) || IsDigit(c)
  }

  /** The character classes a type transition can name. */
  datatype CharClass = Numeric | Alpha | AlphaNumeric | Any

  /** Membership of a byte in a class; `Any` is every 7-bit code. */
  predicate InClass(k: CharClass, c: Byte) {
    match k
    case Numeric => IsDigit(c)
    case Alpha => IsAlpha(c)
    case AlphaNumeric => IsAlnum(c)
    case Any => c <= SupportedEncodingMax
  }

  /** `count` consecutive codes starting at `first`. */
  function Range(first: nat, count: nat): (r: seq<Byte>)
    requires first + count <= 256
    ensures |r| == count
    ensures forall i :: 0 <= i < count ==> r[i] == first + i
  {
    seq(count, i requires 0 <= i < count => (first + i) as Byte)
  }

  /** The codes a class transition writes into the branch matrix, in the
      order the source lists them: digits, then upper case, then lower case;
      `Any` is 0x00 through 0x7F. */
  function ClassValues(k: CharClass): seq<Byte> {
    match k
    case Numeric => Range('0' as int, 10)
    case Alpha => Range('A' as int, 26) + Range('a' as int, 26)
    case AlphaNumeric => Range('0' as int, 10) + Range('A' as int, 26) + Range('a' as int, 26)
    case Any => Range(0, 128)
  }

  /** The value list of a class holds exactly the members of the class, each
      once, and never a code above 0x7F. */
  lemma ClassValuesExact(k: CharClass, c: Byte)
    ensures c in ClassValues(k) <==> InClass(k, c)
    ensures c in ClassValues(k) ==> c <= SupportedEncodingMax
  {
    var vs := ClassValues(k);
    if InClass(k, c) {
      match k
      case Numeric => assert vs[c - '0' as int] == c;
      case Alpha =>
        if 'A' as int <= c <= 'Z' as int {
          assert vs[c - 'A' as int] == c;
        } else {
          assert vs[26 + c - 'a' as int] == c;
        }
      case AlphaNumeric =>
        if IsDigit(c) {
          assert vs[c - '0' as int] == c;
        } else if 'A' as int <= c <= 'Z' as int {
          assert vs[10 + c - 'A' as int] == c;
        } else {
          assert vs[36 + c - 'a' as int] == c;
        }
      case Any => assert vs[c] == c;
    }
  }

  lemma ClassValuesDistinct(k: CharClass)
    ensures forall i, j :: 0 <= i < j < |ClassValues(k)| ==> ClassValues(k)[i] != ClassValues(k)[j]
  {
  }

  lemma ClassValuesSizes()
    ensures |ClassValues(Numeric)| == 10 && |ClassValues(Alpha)| == 52
    ensures |ClassValues(AlphaNumeric)| == 62 && |ClassValues(Any)| == 128
  {
  }

  lemma AlphaDigitDisjoint(c: Byte)
    ensures !(IsAlpha(c) && IsDigit(c))
    ensures IsAlnum(c) <==> IsAlpha(c) || IsDigit(c)
  {
  }
}
