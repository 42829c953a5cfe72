/** Big-endian reads over an immutable byte sequence with an explicit cursor,
    standing for java.io.DataInputStream as the class reader uses it.  A read
    that runs past the end fails with Truncated (DataInputStream's EOFException). */
module Bytes {

  newtype byte = x: int | 0 <= x < 256

  datatype Option<+T> = None | Some(value: T)

  /** The ways decoding a classfile structure can fail. */
  datatype Error =
    | Truncated                 // the stream ends inside a structure
    | InvalidIndex(index: nat)  // a constant-pool index outside the pool
    | NegativeLength(length: int)  // a signed 32-bit length read as negative

  datatype Result<+T> = Ok(value: T) | Err(error: Error) {
    predicate IsFailure() { Err? }
    function PropagateFailure<U>(): Result<U> requires Err? { Err(error) }
    function Extract(): T requires Ok? { value }
  }

  /** A decoded item together with the cursor just after it. */
  datatype Decoded<+T> = Decoded(item: T, next: nat)

  const U2_LIMIT: nat := 0x1_0000
  const U4_LIMIT: nat := 0x1_0000_0000
  const S4_LIMIT: nat := 0x8000_0000

  /** The limits' values, for proofs that hide definitions. */
  lemma Limits()
    ensures U2_LIMIT == 0x1_0000 && S4_LIMIT == 0x8000_0000 && U4_LIMIT == 0x1_0000_0000
  {
  }

  /** readUnsignedShort: two bytes, most significant first. */
  function ReadU2(bytes: seq<byte>, pos: nat): (r: Result<Decoded<nat>>)
    ensures r.Ok? <==> pos + 2 <= |bytes|
    ensures r.Err? ==> r.error == Truncated
    ensures r.Ok? ==> r.value.item < U2_LIMIT && r.value.next == pos + 2
  {
    if pos + 2 <= |bytes| then
      Ok(Decoded(bytes[pos] as nat * 0x100 + bytes[pos + 1] as nat, pos + 2))
    else
      Err(Truncated)
  }

  /** Four bytes, most significant first, as an unsigned number. */
  function ReadU4(bytes: seq<byte>, pos: nat): (r: Result<Decoded<nat>>)
    ensures r.Ok? <==> pos + 4 <= |bytes|
    ensures r.Err? ==> r.error == Truncated
    ensures r.Ok? ==> r.value.item < U4_LIMIT && r.value.next == pos + 4
  {
    if pos + 4 <= |bytes| then
      Ok(Decoded(((bytes[pos] as nat * 0x100 + bytes[pos + 1] as nat) * 0x100
                  + bytes[pos + 2] as nat) * 0x100 + bytes[pos + 3] as nat, pos + 4))
    else
      Err(Truncated)
  }

  /** readInt: four bytes read as a two's-complement 32-bit integer. */
  function ReadS4(bytes: seq<byte>, pos: nat): (r: Result<Decoded<int>>)
    ensures r.Ok? <==> pos + 4 <= |bytes|
    ensures r.Err? ==> r.error == Truncated
    ensures r.Ok? ==> -(S4_LIMIT as int) <= r.value.item < S4_LIMIT && r.value.next == pos + 4
    ensures r.Ok? ==> r.value.item == ToSigned(ReadU4(bytes, pos).value.item)
  {
    var u :- ReadU4(bytes, pos);
    Ok(Decoded(ToSigned(u.item), u.next))
  }

  /** The 32-bit two's-complement reading of an unsigned 32-bit number. */
  function ToSigned(u: nat): int
    requires u < U4_LIMIT
  {
    if u < S4_LIMIT then u else u - U4_LIMIT
  }

  /** Exactly n bytes from the cursor on. */
  function ReadBytes(bytes: seq<byte>, pos: nat, n: nat): (r: Result<Decoded<seq<byte>>>)
    ensures r.Ok? <==> pos + n <= |bytes|
    ensures r.Err? ==> r.error == Truncated
    ensures r.Ok? ==> r.value.next == pos + n && r.value.item == bytes[pos..pos + n]
  {
    if pos + n <= |bytes| then Ok(Decoded(bytes[pos..pos + n], pos + n)) else Err(Truncated)
  }

  /** The big-endian encoding of an unsigned 16-bit number. */
  function U2(v: nat): (s: seq<byte>)
    requires v < U2_LIMIT
    ensures |s| == 2
  {
    [(v / 0x100) as byte, (v % 0x100) as byte]
  }

  /** The big-endian encoding of an unsigned 32-bit number. */
  function U4(v: nat): (s: seq<byte>)
    requires v < U4_LIMIT
    ensures |s| == 4
  {
    [(v / 0x100_0000) as byte, (v / 0x1_0000 % 0x100) as byte,
     (v / 0x100 % 0x100) as byte, (v % 0x100) as byte]
  }

  /** Reading a u2 inverts U2, and a successful read finds U2 of its value. */
  lemma {:induction false} ReadU2Inverse(bytes: seq<byte>, pos: nat, v: nat)
    requires v < U2_LIMIT && pos + 2 <= |bytes|
    ensures ReadU2(bytes, pos) == Ok(Decoded(v, pos + 2)) <==> bytes[pos..pos + 2] == U2(v)
  {
    var w := ReadU2(bytes, pos).value.item;
    assert bytes[pos..pos + 2] == [bytes[pos], bytes[pos + 1]];
    assert w / 0x100 == bytes[pos] as nat && w % 0x100 == bytes[pos + 1] as nat;
  }

  /** Reading a u4 inverts U4, and a successful read finds U4 of its value. */
  lemma {:induction false} ReadU4Inverse(bytes: seq<byte>, pos: nat, v: nat)
    requires v < U4_LIMIT && pos + 4 <= |bytes|
    ensures ReadU4(bytes, pos) == Ok(Decoded(v, pos + 4)) <==> bytes[pos..pos + 4] == U4(v)
  {
    var b0, b1, b2, b3 := bytes[pos] as nat, bytes[pos + 1] as nat, bytes[pos + 2] as nat, bytes[pos + 3] as nat;
    assert bytes[pos..pos + 4] == [bytes[pos], bytes[pos + 1], bytes[pos + 2], bytes[pos + 3]];
    Digits(b0, b1, b2, b3);
    Digits(v / 0x100_0000, v / 0x1_0000 % 0x100, v / 0x100 % 0x100, v % 0x100);
    Recompose(v);
  }

  /** The value of four big-endian digits, and the digits of that value. */
  function FromDigits(b0: nat, b1: nat, b2: nat, b3: nat): nat {
    ((b0 * 0x100 + b1) * 0x100 + b2) * 0x100 + b3
  }

  lemma {:induction false} Digits(b0: nat, b1: nat, b2: nat, b3: nat)
    requires b0 < 0x100 && b1 < 0x100 && b2 < 0x100 && b3 < 0x100
    ensures var w := FromDigits(b0, b1, b2, b3);
      w / 0x100_0000 == b0 && w / 0x1_0000 % 0x100 == b1 && w / 0x100 % 0x100 == b2 && w % 0x100 == b3
  {
    var hi := b0 * 0x100 + b1;
    var mid := hi * 0x100 + b2;
    var w := mid * 0x100 + b3;
    Split(w, mid, b3);
    Split(mid, hi, b2);
    Split(hi, b0, b1);
    DivDiv(w, 0x100);
    DivDiv(w, 0x1_0000);
  }

  /** Any u4 is the value of its four digits. */
  lemma {:induction false} Recompose(v: nat)
    requires v < U4_LIMIT
    ensures FromDigits(v / 0x100_0000, v / 0x1_0000 % 0x100, v / 0x100 % 0x100, v % 0x100) == v
  {
    DivDiv(v, 0x100);
    DivDiv(v, 0x1_0000);
    Split(v, v / 0x100, v % 0x100);
    Split(v / 0x100, v / 0x1_0000, v / 0x100 % 0x100);
    Split(v / 0x1_0000, v / 0x100_0000, v / 0x1_0000 % 0x100);
  }

  lemma {:induction false} Split(x: nat, q: nat, r: nat)
    requires r < 0x100 && x == q * 0x100 + r
    ensures x / 0x100 == q && x % 0x100 == r
  {
  }

  lemma {:induction false} DivDiv(x: nat, a: nat)
    requires a == 0x100 || a == 0x1_0000
    ensures x / a / 0x100 == x / (a * 0x100)
  {
    var q, r := x / a, x % a;
    var q2, r2 := q / 0x100, q % 0x100;
    assert x == q2 * (a * 0x100) + (r2 * a + r);
    assert 0 <= r2 * a + r < a * 0x100;
  }

  /** The bytes of s occur in bytes from pos on. */
  predicate At(bytes: seq<byte>, pos: nat, s: seq<byte>)
    decreases |s|
  {
    if s == [] then pos <= |bytes|
    else pos < |bytes| && bytes[pos] == s[0] && At(bytes, pos + 1, s[1..])
  }

  /** Where s occurs, it fits. */
  lemma {:induction false} AtBound(bytes: seq<byte>, pos: nat, s: seq<byte>)
    requires At(bytes, pos, s)
    ensures pos + |s| <= |bytes|
    decreases |s|
  {
    if s != [] {
      AtBound(bytes, pos + 1, s[1..]);
    }
  }

  /** At is the slice equality it abbreviates. */
  lemma {:induction false} AtSlice(bytes: seq<byte>, pos: nat, s: seq<byte>)
    ensures At(bytes, pos, s) <==> pos + |s| <= |bytes| && bytes[pos..pos + |s|] == s
    decreases |s|
  {
    if s != [] {
      AtSlice(bytes, pos + 1, s[1..]);
      if pos + |s| <= |bytes| {
        assert bytes[pos..pos + |s|] == [bytes[pos]] + bytes[pos + 1..pos + |s|];
      }
    }
  }

  /** A concatenation occurs where its first part occurs followed by its second. */
  lemma {:induction false} AtAppend(bytes: seq<byte>, pos: nat, a: seq<byte>, b: seq<byte>)
    ensures At(bytes, pos, a + b) <==> At(bytes, pos, a) && At(bytes, pos + |a|, b)
    decreases |a|
  {
    if a == [] {
      assert a + b == b;
      if At(bytes, pos, b) { AtSlice(bytes, pos, b); }
    } else {
      assert (a + b)[1..] == a[1..] + b;
      AtAppend(bytes, pos + 1, a[1..], b);
    }
  }

  /** Where a concatenation occurs, its parts occur one after the other;
      mid is where the second part begins. */
  lemma {:induction false} AtSplit(bytes: seq<byte>, pos: nat, a: seq<byte>, b: seq<byte>, mid: nat)
    requires At(bytes, pos, a + b) && mid == pos + |a|
    ensures At(bytes, pos, a) && At(bytes, mid, b)
  {
    AtAppend(bytes, pos, a, b);
  }

  /** Reading a u2 where U2(v) occurs finds v. */
  lemma {:induction false} ReadU2At(bytes: seq<byte>, pos: nat, v: nat)
    requires v < U2_LIMIT && At(bytes, pos, U2(v))
    ensures ReadU2(bytes, pos) == Ok(Decoded(v, pos + 2))
  {
    AtSlice(bytes, pos, U2(v));
    ReadU2Inverse(bytes, pos, v);
  }

  /** Reading a u4 where U4(v) occurs finds v. */
  lemma {:induction false} ReadU4At(bytes: seq<byte>, pos: nat, v: nat)
    requires v < U4_LIMIT && At(bytes, pos, U4(v))
    ensures ReadU4(bytes, pos) == Ok(Decoded(v, pos + 4))
  {
    AtSlice(bytes, pos, U4(v));
    ReadU4Inverse(bytes, pos, v);
  }

  /** Reading an s4 where U4(v) occurs finds v when it is below 2^31. */
  lemma {:induction false} ReadS4At(bytes: seq<byte>, pos: nat, v: nat)
    requires v < S4_LIMIT && At(bytes, pos, U4(v))
    ensures ReadS4(bytes, pos) == Ok(Decoded(v as int, pos + 4))
  {
    ReadU4At(bytes, pos, v);
  }

  /** Reading |s| bytes where s occurs finds s. */
  lemma {:induction false} ReadBytesAt(bytes: seq<byte>, pos: nat, s: seq<byte>)
    requires At(bytes, pos, s)
    ensures ReadBytes(bytes, pos, |s|) == Ok(Decoded(s, pos + |s|))
  {
    AtSlice(bytes, pos, s);
  }
}
