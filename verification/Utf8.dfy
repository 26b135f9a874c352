/** Well-formed UTF-8 is exactly the bytes of scalar values (section 3 of RFC 3629). */
module Utf8 {
  import opened Prelude
  import opened HtaData

  /** The bytes of one scalar value. */
  function Encoded(c: nat): Bytes
    requires IsScalar(c)
  {
    if c < 0x80 then [c]
    else if c < 0x800 then [0xc0 + c / 64, 0x80 + c % 64]
    else if c < 0x1_0000 then [0xe0 + c / 4096, 0x80 + c / 64 % 64, 0x80 + c % 64]
    else [0xf0 + c / 262144, 0x80 + c / 4096 % 64, 0x80 + c / 64 % 64, 0x80 + c % 64]
  }

  predicate Scalars(codes: seq<nat>) { forall i :: 0 <= i < |codes| ==> IsScalar(codes[i]) }

  function EncodedAll(codes: seq<nat>): Bytes
    requires Scalars(codes)
  {
    if codes == [] then [] else Encoded(codes[0]) + EncodedAll(codes[1..])
  }

  /** The bytes of a scalar value begin what is well formed. */
  lemma EncodedIsValid(c: nat, rest: Bytes)
    requires IsScalar(c) && ValidUtf8(rest)
    ensures ValidUtf8(Encoded(c) + rest)
  {
    var b := Encoded(c) + rest;
    if c < 0x80 {
      assert b[1..] == rest;
    } else if c < 0x800 {
      assert 2 <= c / 64 < 32;
      assert b[2..] == rest;
    } else if c < 0x1_0000 {
      ThreeBytes(c);
      assert b[3..] == rest;
    } else {
      FourBytes(c);
      assert b[4..] == rest;
    }
  }

  lemma ThreeBytes(c: nat)
    requires IsScalar(c) && 0x800 <= c < 0x1_0000
    ensures c / 4096 < 16 && c / 64 % 64 < 64
    ensures c / 4096 == 0 ==> c / 64 % 64 >= 32
    ensures c / 4096 == 13 ==> c / 64 % 64 < 32
  {
    assert c / 64 / 64 == c / 4096;
  }

  lemma FourBytes(c: nat)
    requires IsScalar(c) && c >= 0x1_0000
    ensures c / 262144 < 5 && c / 4096 % 64 < 64
    ensures c / 262144 == 0 ==> c / 4096 % 64 >= 16
    ensures c / 262144 == 4 ==> c / 4096 % 64 < 16
  {
    assert c / 4096 / 64 == c / 262144;
  }

  lemma TwoBack(a: nat, b: nat)
    requires 2 <= a < 32 && b < 64
    ensures
      var c := a * 64 + b;
      IsScalar(c) && Encoded(c) == [0xc0 + a, 0x80 + b]
  {
  }

  lemma ThreeBack(a: nat, b: nat, d: nat)
    requires a < 16 && b < 64 && d < 64 && (a == 0 ==> b >= 32) && (a == 13 ==> b < 32)
    ensures
      var c := a * 4096 + b * 64 + d;
      IsScalar(c) && Encoded(c) == [0xe0 + a, 0x80 + b, 0x80 + d]
  {
    var c := a * 4096 + b * 64 + d;
    assert c / 64 == a * 64 + b && c / 4096 == a;
  }

  lemma FourBack(a: nat, b: nat, d: nat, e: nat)
    requires a < 5 && b < 64 && d < 64 && e < 64 && (a == 0 ==> b >= 16) && (a == 4 ==> b < 16)
    ensures
      var c := a * 262144 + b * 4096 + d * 64 + e;
      IsScalar(c) && Encoded(c) == [0xf0 + a, 0x80 + b, 0x80 + d, 0x80 + e]
  {
    var c := a * 262144 + b * 4096 + d * 64 + e;
    assert c / 64 == a * 4096 + b * 64 + d && c / 4096 == a * 64 + b && c / 262144 == a;
  }

  /** What is well formed begins with the bytes of a scalar value. */
  lemma CodeFound(b: Bytes) returns (c: nat, rest: Bytes)
    requires b != [] && ValidUtf8(b)
    ensures IsScalar(c) && b == Encoded(c) + rest && ValidUtf8(rest) && |rest| < |b|
  {
    if b[0] < 0x80 {
      c, rest := b[0], b[1..];
      assert b == [b[0]] + b[1..];
    } else if b[0] < 0xe0 {
      var x: nat, y: nat := b[0] - 0xc0, b[1] - 0x80;
      c, rest := x * 64 + y, b[2..];
      TwoBack(x, y);
      hide Encoded;
      assert b == [b[0], b[1]] + b[2..];
    } else if b[0] < 0xf0 {
      var x: nat, y: nat, z: nat := b[0] - 0xe0, b[1] - 0x80, b[2] - 0x80;
      c, rest := x * 4096 + y * 64 + z, b[3..];
      ThreeBack(x, y, z);
      hide Encoded;
      assert b == [b[0], b[1], b[2]] + b[3..];
    } else {
      var x: nat, y: nat, z: nat, w: nat := b[0] - 0xf0, b[1] - 0x80, b[2] - 0x80, b[3] - 0x80;
      c, rest := x * 262144 + y * 4096 + z * 64 + w, b[4..];
      FourBack(x, y, z, w);
      hide Encoded;
      assert b == [b[0], b[1], b[2], b[3]] + b[4..];
    }
  }

  lemma {:induction false} CodesFound(b: Bytes) returns (codes: seq<nat>)
    requires ValidUtf8(b)
    ensures Scalars(codes) && EncodedAll(codes) == b
    decreases |b|
  {
    hide Encoded, ValidUtf8, IsScalar;
    if b == [] {
      codes := [];
    } else {
      var c, rest := CodeFound(b);
      var more := CodesFound(rest);
      codes := [c] + more;
      assert codes[1..] == more;
    }
  }

  lemma {:induction false} CodesValid(codes: seq<nat>)
    requires Scalars(codes)
    ensures ValidUtf8(EncodedAll(codes))
  {
    if codes != [] {
      hide Encoded, ValidUtf8, IsScalar;
      CodesValid(codes[1..]);
      EncodedIsValid(codes[0], EncodedAll(codes[1..]));
    }
  }

  /** Bytes are well formed exactly when they are those of some scalar values, each in its shortest form. */
  lemma Utf8Exactly(b: Bytes)
    ensures ValidUtf8(b) <==> exists codes :: Scalars(codes) && EncodedAll(codes) == b
  {
    hide ValidUtf8, EncodedAll;
    if ValidUtf8(b) { var codes := CodesFound(b); }
    if codes :| Scalars(codes) && EncodedAll(codes) == b { CodesValid(codes); }
  }
}
