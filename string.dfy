/** The project's NUL-terminated string over a `Vector<char>`: the storage
    always ends in '\0', and the characters before it are the string. */
module Strings {
  import opened Vectors

  const InitialStringCapacity: nat := 16

  /** Index of the last character of `s` that occurs in `chars`, if any. */
  predicate LastOccurrence(s: seq<char>, chars: seq<char>, i: nat)
  {
    i < |s| && s[i] in chars && forall k :: i < k < |s| ==> s[k] !in chars
  }

  class String {
    var storage: Vector<char>
    ghost var Repr: set<object>

    ghost predicate Valid()
      reads this, Repr
    {
      storage in Repr && storage.Repr <= Repr && this !in storage.Repr
      && Repr == {this} + storage.Repr
      && storage.Valid()
      && storage.size >= 1 && storage.Elements()[storage.size - 1] == '\0'
    }

    /** The characters before the terminator (`begin()` to `end()`). */
    function Chars(): seq<char>
      reads this, Repr
      requires Valid()
    {
      storage.Elements()[..storage.size - 1]
    }

    /** size(): the storage size minus the terminator. */
    function Size(): (r: nat)
      reads this, Repr
      requires Valid()
      ensures r == |Chars()|
    {
      storage.size - 1
    }

    /** c_str(): the whole storage, whose last slot is the terminator. */
    function CStr(): (r: seq<char>)
      reads this, Repr
      requires Valid()
      ensures |r| == Size() + 1 && r[Size()] == '\0' && r[..Size()] == Chars()
    {
      storage.Elements()
    }

    /** operator[]: any index up to the terminator's. */
    function At(index: nat): (r: char)
      reads this, Repr
      requires Valid() && index <= Size()
      ensures index < Size() ==> r == Chars()[index]
      ensures index == Size() ==> r == '\0'
    {
      storage.At(index)
    }

    /** The private String(capacity): empty, with room for `capacity`
        elements including the terminator. */
    constructor WithCapacity(capacity: nat)
      ensures Valid() && fresh(Repr)
      ensures Chars() == []
    {
      var v := new Vector<char>(capacity);
      v.PushBack('\0');
      storage := v;
      Repr := {this} + v.Repr;
    }

    /** String(): empty, capacity 16, so 15 slots are free past the
        terminator. */
    constructor ()
      ensures Valid() && fresh(Repr)
      ensures Chars() == []
      ensures storage.FreeCapacity() == InitialStringCapacity - 1
    {
      var v := new Vector<char>(InitialStringCapacity);
      v.PushBack('\0');
      storage := v;
      Repr := {this} + v.Repr;
    }

    /** String(source, bytes): a copy of the `bytes` characters given. */
    constructor FromChars(source: seq<char>)
      ensures Valid() && fresh(Repr)
      ensures Chars() == source
    {
      var v := new Vector<char>(|source| + 1);
      var _ := v.Insert(0, source);
      v.PushBack('\0');
      storage := v;
      Repr := {this} + v.Repr;
    }

    /** operator=(char): a fresh storage of capacity 16 holding `c`. */
    method AssignChar(c: char)
      requires Valid()
      modifies this
      ensures Valid() && fresh(Repr - {this})
      ensures Chars() == [c]
    {
      var v := new Vector<char>(InitialStringCapacity);
      v.PushBack(c);
      v.PushBack('\0');
      storage := v;
      Repr := {this} + v.Repr;
    }

    /** operator+(String) as written: the right operand is copied together
        with its terminator, so the result ends in an extra '\0' and its
        size is one more than the two sizes together. */
    method PlusAsWritten(source: String) returns (r: String)
      requires Valid() && source.Valid()
      ensures fresh(r.Repr) && r.Valid()
      ensures r.Chars() == Chars() + source.Chars() + ['\0']
      ensures r.Size() == Size() + source.Size() + 1
    {
      var a, b := Chars(), source.CStr();
      r := new String.WithCapacity(Size() + source.Size() + 1);
      var v := r.storage;
      InsertBeforeTerminator(v, a, b);
      r.Repr := {r} + v.Repr;
      assert r.Chars() == a + b;
    }

    /** operator+(String) with the right operand's terminator left out:
        the concatenation of the two strings. */
    method Plus(source: String) returns (r: String)
      requires Valid() && source.Valid()
      ensures fresh(r.Repr) && r.Valid()
      ensures r.Chars() == Chars() + source.Chars()
    {
      var a, b := Chars(), source.Chars();
      r := new String.WithCapacity(Size() + source.Size() + 1);
      var v := r.storage;
      InsertBeforeTerminator(v, a, b);
      r.Repr := {r} + v.Repr;
      assert r.Chars() == a + b;
    }

    /** operator+(char): this string followed by `c`. */
    method PlusChar(c: char) returns (r: String)
      requires Valid()
      ensures fresh(r.Repr) && r.Valid()
      ensures r.Chars() == Chars() + [c]
    {
      var a := Chars();
      r := new String.WithCapacity(Size() + 2);
      var v := r.storage;
      AppendCharAfter(v, a, c);
      r.Repr := {r} + v.Repr;
    }

    /** operator+=(String) as written: appends in place when the free
        capacity holds the source's characters; otherwise swaps in
        `*this + source`, the as-written sum, which carries the source's
        terminator as one more character. */
    method AppendAsWritten(source: String)
      requires Valid() && source.Valid() && Repr !! source.Repr
      modifies Repr
      ensures Valid() && fresh(Repr - old(Repr))
      ensures old(storage.FreeCapacity()) >= old(source.Size()) ==>
        Chars() == old(Chars()) + old(source.Chars())
      ensures old(storage.FreeCapacity()) < old(source.Size()) ==>
        Chars() == old(Chars()) + old(source.Chars()) + ['\0']
    {
      if storage.FreeCapacity() >= source.Size() {
        var _ := storage.Insert(storage.size - 1, source.Chars());
        Repr := {this} + storage.Repr;
      } else {
        var tmp := PlusAsWritten(source);
        storage := tmp.storage;
        Repr := {this} + storage.Repr;
      }
    }

    /** operator+=(String) with the corrected sum on the reallocating
        branch: either way the source's characters are appended. */
    method Append(source: String)
      requires Valid() && source.Valid() && Repr !! source.Repr
      modifies Repr
      ensures Valid() && fresh(Repr - old(Repr))
      ensures Chars() == old(Chars()) + old(source.Chars())
    {
      if storage.FreeCapacity() >= source.Size() {
        var _ := storage.Insert(storage.size - 1, source.Chars());
        Repr := {this} + storage.Repr;
      } else {
        var tmp := Plus(source);
        storage := tmp.storage;
        Repr := {this} + storage.Repr;
      }
    }

    /** operator+=(char): replaces the terminator by `c` and a new one. */
    method AppendChar(c: char)
      requires Valid()
      modifies Repr
      ensures Valid() && fresh(Repr - old(Repr))
      ensures Chars() == old(Chars()) + [c]
    {
      storage.PopBack();
      storage.PushBack(c);
      storage.PushBack('\0');
      Repr := {this} + storage.Repr;
      assert storage.Elements() == old(Chars()) + [c] + ['\0'];
    }

    /** find_last_of as written: scanning from the back, the reverse
        iterator's `base()` is returned, which is the position just after
        the character found; with no match it is `cend()`, the size. */
    method FindLastOfAsWritten(chars: seq<char>) returns (pos: nat)
      requires Valid()
      ensures forall i: nat :: LastOccurrence(Chars(), chars, i) ==> pos == i + 1
      ensures (forall k :: 0 <= k < Size() ==> Chars()[k] !in chars) ==> pos == Size()
    {
      var s := Chars();
      var i := |s|;
      while i > 0
        invariant 0 <= i <= |s|
        invariant forall k :: i <= k < |s| ==> s[k] !in chars
      {
        if s[i - 1] in chars {
          return i;
        }
        i := i - 1;
      }
      return |s|;
    }

    /** find_last_of with the position of the character found: the index of
        the last character of the string that occurs in `chars`, and the
        size when none does. */
    method FindLastOf(chars: seq<char>) returns (pos: nat)
      requires Valid()
      ensures pos <= Size()
      ensures pos < Size() ==> LastOccurrence(Chars(), chars, pos)
      ensures pos == Size() ==> forall k :: 0 <= k < Size() ==> Chars()[k] !in chars
    {
      var s := Chars();
      var i := |s|;
      while i > 0
        invariant 0 <= i <= |s|
        invariant forall k :: i <= k < |s| ==> s[k] !in chars
      {
        if s[i - 1] in chars {
          return i - 1;
        }
        i := i - 1;
      }
      return |s|;
    }

    /** operator==: same size and the same characters. */
    method Equals(other: String) returns (r: bool)
      requires Valid() && other.Valid()
      ensures r <==> Chars() == other.Chars()
    {
      if Size() != other.Size() {
        return false;
      }
      var i := 0;
      while i < Size()
        invariant 0 <= i <= Size()
        invariant Chars()[..i] == other.Chars()[..i]
      {
        if storage.At(i) != other.storage.At(i) {
          assert Chars()[i] != other.Chars()[i];
          return false;
        }
        i := i + 1;
      }
      assert Chars() == Chars()[..i];
      return true;
    }

    /** operator!=: the negation of operator==. */
    method NotEquals(other: String) returns (r: bool)
      requires Valid() && other.Valid()
      ensures r <==> Chars() != other.Chars()
    {
      var same := Equals(other);
      r := !same;
    }
  }

  /** The body of operator+(String) on the new storage, which holds only a
      terminator: `a`, then `b`, each inserted just before the last slot. */
  method InsertBeforeTerminator(v: Vector<char>, a: seq<char>, b: seq<char>)
    requires v.Valid() && v.Elements() == ['\0']
    modifies v.Repr
    ensures v.Valid() && fresh(v.Repr - old(v.Repr))
    ensures v.Elements() == a + b + ['\0']
  {
    var _ := v.Insert(v.size - 1, a);
    assert v.Elements() == a + ['\0'];
    var _ := v.Insert(v.size - 1, b);
  }

  /** The body of operator+(char) on the new storage, which holds only a
      terminator: the terminator is dropped, the characters are copied, and
      `c` and a new terminator are pushed. */
  method AppendCharAfter(v: Vector<char>, a: seq<char>, c: char)
    requires v.Valid() && v.Elements() == ['\0']
    modifies v.Repr
    ensures v.Valid() && fresh(v.Repr - old(v.Repr))
    ensures v.Elements() == a + [c] + ['\0']
  {
    v.PopBack();
    assert v.Elements() == [];
    var _ := v.Insert(v.size, a);
    assert v.Elements() == a;
    v.PushBack(c);
    assert v.Elements() == a + [c];
    v.PushBack('\0');
  }

  /** swap: the two strings exchange their storage. */
  method Swap(left: String, right: String)
    requires left.Valid() && right.Valid() && left.Repr !! right.Repr
    modifies left, right
    ensures left.Valid() && right.Valid()
    ensures left.Chars() == old(right.Chars()) && right.Chars() == old(left.Chars())
  {
    left.storage, right.storage := right.storage, left.storage;
    left.Repr, right.Repr := {left} + left.storage.Repr, {right} + right.storage.Repr;
  }

  /** "ab\n": the as-written find_last_of answers 3 for a line feed that is
      the last character, the same as for a string with no line feed. */
  method FindLastOfLineFeedAtEnd() returns (found: nat, missing: nat)
    ensures found == 3 && missing == 3
  {
    var s := new String.FromChars(['a', 'b', '\n']);
    assert LastOccurrence(s.Chars(), ['\r', '\n'], 2);
    found := s.FindLastOfAsWritten(['\r', '\n']);
    var t := new String.FromChars(['a', 'b', 'c']);
    assert forall k :: 0 <= k < t.Size() ==> t.Chars()[k] !in ['\r', '\n'];
    missing := t.FindLastOfAsWritten(['\r', '\n']);
  }

  /** "a" + "b" as written has size 3 and ends in '\0'. */
  method PlusEmbedsTerminator() returns (size: nat, last: char)
    ensures size == 3 && last == '\0'
  {
    var a := new String.FromChars(['a']);
    var b := new String.FromChars(['b']);
    var ab := a.PlusAsWritten(b);
    size := ab.Size();
    last := ab.At(2);
  }
}
