/** UTF-8, with the decoder's replacement of ill-formed input. */
module Utf8 {
  import opened Text

  type byte = b: int | 0 <= b < 256

  const REPLACEMENT: char := '\U{FFFD}'

  function EncodeChar(c: char): (b: seq<byte>)
    ensures 1 <= |b| <= 4
  {
    var n := c as int;
    if n < 0x80 then [n]
    else if n < 0x800 then [0xC0 + n / 64, 0x80 + n % 64]
    else if n < 0x10000 then [0xE0 + n / 4096, 0x80 + (n / 64) % 64, 0x80 + n % 64]
    else [0xF0 + n / 262144, 0x80 + (n / 4096) % 64, 0x80 + (n / 64) % 64, 0x80 + n % 64]
  }

  function Encode(s: string): seq<byte> {
    if s == [] then [] else EncodeChar(s[0]) + Encode(s[1..])
  }

  predicate Continues(b: seq<byte>, i: nat) {
    i < |b| && 0x80 <= b[i] < 0xC0
  }

  /** Whether the second octet may follow the first. */
  predicate SecondOk(b: seq<byte>)
    requires b != []
  {
    && Continues(b, 1)
    && (b[0] == 0xE0 ==> b[1] >= 0xA0)
    && (b[0] == 0xED ==> b[1] < 0xA0)
    && (b[0] == 0xF0 ==> b[1] >= 0x90)
    && (b[0] == 0xF4 ==> b[1] < 0x90)
  }

  /** The first character and how many octets it takes. An ill-formed start yields one replacement
      character for its longest well-formed prefix. */
  function DecodeHead(b: seq<byte>): (r: (char, nat))
    requires b != []
    ensures 1 <= r.1 <= |b|
  {
    if b[0] < 0x80 then (b[0] as char, 1)
    else if b[0] < 0xC2 || b[0] > 0xF4 || !SecondOk(b) then (REPLACEMENT, 1)
    else if b[0] < 0xE0 then (Point2(b[0], b[1]) as char, 2)
    else if !Continues(b, 2) then (REPLACEMENT, 2)
    else if b[0] < 0xF0 then (Point3(b[0], b[1], b[2]) as char, 3)
    else if !Continues(b, 3) then (REPLACEMENT, 3)
    else (Point4(b[0], b[1], b[2], b[3]) as char, 4)
  }

  function Point2(b0: int, b1: int): int {
    (b0 - 0xC0) * 64 + (b1 - 0x80)
  }

  function Point3(b0: int, b1: int, b2: int): int {
    (b0 - 0xE0) * 4096 + (b1 - 0x80) * 64 + (b2 - 0x80)
  }

  function Point4(b0: int, b1: int, b2: int, b3: int): int {
    (b0 - 0xF0) * 262144 + (b1 - 0x80) * 4096 + (b2 - 0x80) * 64 + (b3 - 0x80)
  }

  function Decode(b: seq<byte>): string {
    if b == [] then [] else [DecodeHead(b).0] + Decode(b[DecodeHead(b).1..])
  }

  /** Well-formed as a whole: decoding replaces nothing. */
  predicate WellFormed(b: seq<byte>) {
    b == [] || (EncodeChar(DecodeHead(b).0) <= b && |EncodeChar(DecodeHead(b).0)| == DecodeHead(b).1
                && WellFormed(b[DecodeHead(b).1..]))
  }

  lemma Split2(n: nat)
    requires 0x80 <= n < 0x800
    ensures 2 <= n / 64 < 32
    ensures Point2(0xC0 + n / 64, 0x80 + n % 64) == n
  {}

  lemma Split3(n: nat)
    requires 0x800 <= n < 0x10000 && !(0xD800 <= n < 0xE000)
    ensures n / 4096 < 16
    ensures n / 4096 == 0 ==> (n / 64) % 64 >= 0x20
    ensures n / 4096 == 13 ==> (n / 64) % 64 < 0x20
    ensures Point3(0xE0 + n / 4096, 0x80 + (n / 64) % 64, 0x80 + n % 64) == n
  {
    var q, r := n / 64, n % 64;
    assert n == 64 * q + r && n / 4096 == q / 64;
    assert q == 64 * (q / 64) + q % 64;
  }

  lemma Split4(n: nat)
    requires 0x10000 <= n < 0x110000
    ensures n / 262144 <= 4
    ensures n / 262144 == 0 ==> (n / 4096) % 64 >= 0x10
    ensures n / 262144 == 4 ==> (n / 4096) % 64 < 0x10
    ensures Point4(0xF0 + n / 262144, 0x80 + (n / 4096) % 64, 0x80 + (n / 64) % 64, 0x80 + n % 64) == n
  {
    var q := n / 64;
    var p := q / 64;
    assert n == 64 * q + n % 64 && q == 64 * p + q % 64 && p == 64 * (p / 64) + p % 64;
    assert n / 4096 == p && n / 262144 == p / 64;
  }

  lemma DecodeEncodedChar(c: char, rest: seq<byte>)
    ensures DecodeHead(EncodeChar(c) + rest) == (c, |EncodeChar(c)|)
  {
    var n, e := c as int, EncodeChar(c);
    var b := e + rest;
    assert forall i :: 0 <= i < |e| ==> b[i] == e[i];
    if n < 0x80 {
    } else if n < 0x800 {
      Split2(n);
    } else if n < 0x10000 {
      Split3(n);
    } else {
      Split4(n);
    }
  }

  lemma {:induction false} DecodeEncode(s: string)
    ensures Decode(Encode(s)) == s && WellFormed(Encode(s))
  {
    if s != [] {
      DecodeEncodedChar(s[0], Encode(s[1..]));
      assert Encode(s)[|EncodeChar(s[0])|..] == Encode(s[1..]);
      DecodeEncode(s[1..]);
    }
  }

  lemma {:induction false} EncodeAppend(a: string, b: string)
    ensures Encode(a + b) == Encode(a) + Encode(b)
  {
    if a == [] {
      assert a + b == b;
    } else {
      EncodeAppend(a[1..], b);
      assert (a + b)[1..] == a[1..] + b && (a + b)[0] == a[0];
      Regroup(EncodeChar(a[0]), Encode(a[1..]), Encode(b));
    }
  }

  lemma {:induction false} WellFormedEncodes(b: seq<byte>)
    requires WellFormed(b)
    ensures Encode(Decode(b)) == b
  {
    if b != [] {
      var c, n := DecodeHead(b).0, DecodeHead(b).1;
      WellFormedEncodes(b[n..]);
      assert Decode(b)[1..] == Decode(b[n..]);
      assert b == EncodeChar(c) + b[n..];
    }
  }

  /** Octets are well-formed exactly if they encode some text, which decoding gives back. */
  lemma WellFormedExactly(b: seq<byte>)
    ensures WellFormed(b) <==> exists s :: Encode(s) == b
  {
    if WellFormed(b) {
      WellFormedEncodes(b);
    }
    if s :| Encode(s) == b {
      DecodeEncode(s);
    }
  }
}
