/**
 * Go strings as byte sequences, and Go's `<` on strings: the "i;octet" collation
 * of section 9.3 of RFC 4790 (compare byte by byte, a proper prefix sorts first).
 */
module ByteOrder {

  newtype byte = x: int | 0 <= x < 256

  /** A Go `string` or `[]byte`. */
  type Bytes = seq<byte>

  /** The bytes of an ASCII literal. */
  function Ascii(s: string): (r: Bytes)
    ensures |r| == |s|
  {
    seq(|s|, i requires 0 <= i < |s| => (s[i] as int % 256) as byte)
  }

  /** Go's `a < b` for strings. */
  predicate Less(a: Bytes, b: Bytes)
  {
    if |b| == 0 then false
    else if |a| == 0 then true
    else if a[0] != b[0] then a[0] < b[0]
    else Less(a[1..], b[1..])
  }

  lemma {:induction false} LessIrreflexive(a: Bytes)
    ensures !Less(a, a)
  {
    if |a| > 0 {
      LessIrreflexive(a[1..]);
    }
  }

  lemma {:induction false} LessTransitive(a: Bytes, b: Bytes, c: Bytes)
    requires Less(a, b) && Less(b, c)
    ensures Less(a, c)
  {
    if |a| > 0 && a[0] == b[0] && b[0] == c[0] {
      LessTransitive(a[1..], b[1..], c[1..]);
    }
  }

  lemma {:induction false} LessTotal(a: Bytes, b: Bytes)
    ensures a == b || Less(a, b) || Less(b, a)
  {
    if |a| > 0 && |b| > 0 && a[0] == b[0] {
      LessTotal(a[1..], b[1..]);
      if a[1..] == b[1..] {
        assert a == [a[0]] + a[1..] && b == [b[0]] + b[1..];
      }
    }
  }

  /** A sort key: a tuple of strings compared component by component, as the
      comparators handed to `sort.Slice` in disco/caps.go do. */
  type Key = seq<Bytes>

  predicate KeyLess(a: Key, b: Key)
  {
    if |b| == 0 then false
    else if |a| == 0 then true
    else if a[0] != b[0] then Less(a[0], b[0])
    else KeyLess(a[1..], b[1..])
  }

  lemma {:induction false} KeyLessIrreflexive(a: Key)
    ensures !KeyLess(a, a)
  {
    if |a| > 0 {
      KeyLessIrreflexive(a[1..]);
    }
  }

  lemma {:induction false} KeyLessTransitive(a: Key, b: Key, c: Key)
    requires KeyLess(a, b) && KeyLess(b, c)
    ensures KeyLess(a, c)
  {
    if |a| > 0 {
      if a[0] != b[0] && b[0] != c[0] {
        LessTransitive(a[0], b[0], c[0]);
        LessIrreflexive(a[0]);
      } else if a[0] == b[0] && b[0] == c[0] {
        KeyLessTransitive(a[1..], b[1..], c[1..]);
      }
    }
  }

  lemma {:induction false} KeyLessTotal(a: Key, b: Key)
    ensures a == b || KeyLess(a, b) || KeyLess(b, a)
  {
    if |a| > 0 && |b| > 0 {
      if a[0] == b[0] {
        KeyLessTotal(a[1..], b[1..]);
        if a[1..] == b[1..] {
          assert a == [a[0]] + a[1..] && b == [b[0]] + b[1..];
        }
      } else {
        LessTotal(a[0], b[0]);
      }
    }
  }

  lemma KeyLessAsymmetric(a: Key, b: Key)
    requires KeyLess(a, b)
    ensures !KeyLess(b, a)
  {
    if KeyLess(b, a) {
      KeyLessTransitive(a, b, a);
      KeyLessIrreflexive(a);
    }
  }

  /** "not greater than" is transitive: the order is a total preorder. */
  lemma KeyNotLessTransitive(a: Key, b: Key, c: Key)
    requires !KeyLess(b, a) && !KeyLess(c, b)
    ensures !KeyLess(c, a)
  {
    if KeyLess(c, a) {
      KeyLessTotal(a, b);
      KeyLessTotal(b, c);
      if a == b {
      } else if b == c {
      } else {
        KeyLessTransitive(a, b, c);
        KeyLessTransitive(c, a, c);
        KeyLessIrreflexive(c);
      }
    }
  }
}
