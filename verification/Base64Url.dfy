/** Base64url without padding (section 5 of RFC 4648), and the lenient decoder it meets. */
module Base64Url {
  import opened Wrappers
  import opened Utf8
  import opened Text

  function Symbol(n: nat): char
    requires n < 64
  {
    if n < 26 then (n + 'A' as int) as char
    else if n < 52 then (n - 26 + 'a' as int) as char
    else if n < 62 then (n - 52 + '0' as int) as char
    else if n == 62 then '-' else '_'
  }

  /** The decoder takes both alphabets; anything else has no value. */
  function Sextet(c: char): Option<nat> {
    if 'A' <= c <= 'Z' then Some(c as int - 'A' as int)
    else if 'a' <= c <= 'z' then Some(c as int - 'a' as int + 26)
    else if '0' <= c <= '9' then Some(c as int - '0' as int + 52)
    else if c == '-' || c == '+' then Some(62)
    else if c == '_' || c == '/' then Some(63)
    else None
  }

  /** One or two octets left over; the padding that would complete the group is not written. */
  function EncodeTail(b: seq<byte>): string
    requires |b| < 3
  {
    if |b| == 0 then []
    else if |b| == 1 then [Symbol(b[0] / 4), Symbol(b[0] % 4 * 16)]
    else [Symbol(b[0] / 4), Symbol(b[0] % 4 * 16 + b[1] / 16), Symbol(b[1] % 16 * 4)]
  }

  function EncodeBytes(b: seq<byte>): string {
    if |b| < 3 then EncodeTail(b) else Quad(b[0], b[1], b[2]) + EncodeBytes(b[3..])
  }

  function Quad(x: byte, y: byte, z: byte): string {
    [Symbol(x / 4), Symbol(x % 4 * 16 + y / 16), Symbol(y % 16 * 4 + z / 64), Symbol(z % 64)]
  }

  /** The decoder's loop: position in the group of four, bits left over, padding seen. Characters
      outside the alphabet are skipped; padding that completes a group ends the input. */
  function Collect(s: string, quad: nat, left: nat, pads: nat): Option<seq<byte>>
    requires quad < 4 && (quad == 0 ==> left == 0) && (quad == 1 ==> left < 64) && (quad == 2 ==> left < 16) && (quad == 3 ==> left < 4)
  {
    if s == [] then (if quad == 0 then Some([]) else None)
    else if s[0] == '=' then
      if quad >= 2 && quad + pads + 1 >= 4 then Some([])
      else Collect(s[1..], quad, left, if quad >= 2 then pads + 1 else pads)
    else
      match Sextet(s[0])
      case None => Collect(s[1..], quad, left, pads)
      case Some(v) =>
        if quad == 0 then Collect(s[1..], 1, v, 0)
        else if quad == 1 then After(left * 4 + v / 16, Collect(s[1..], 2, v % 16, 0))
        else if quad == 2 then After(left * 16 + v / 4, Collect(s[1..], 3, v % 4, 0))
        else After(left * 64 + v, Collect(s[1..], 0, 0, 0))
  }

  function After(b: byte, rest: Option<seq<byte>>): Option<seq<byte>> {
    if rest.Some? then Some([b] + rest.value) else None
  }

  /** Padding up to a multiple of four. */
  function Padding(s: string): string {
    match |s| % 4
    case 0 => ""
    case 1 => "==="
    case 2 => "=="
    case _ => "="
  }

  /** Text that is not ASCII is an error. */
  function DecodeBytes(s: string): Option<seq<byte>> {
    if Ascii(s) then Collect(s + Padding(s), 0, 0, 0) else None
  }

  lemma SextetOfSymbol(n: nat)
    requires n < 64
    ensures Sextet(Symbol(n)) == Some(n) && Symbol(n) != '=' && Symbol(n) != '.' && Symbol(n) < '\U{0080}'
  {}

  lemma CollectTwo(x: nat, y: nat, rest: string)
    requires x < 64 && y < 64
    ensures Collect([Symbol(x), Symbol(y)] + rest, 0, 0, 0) == After(x * 4 + y / 16, Collect(rest, 2, y % 16, 0))
  {
    var s := [Symbol(x), Symbol(y)] + rest;
    SextetOfSymbol(x);
    SextetOfSymbol(y);
    assert s[0] == Symbol(x) && s[1..][0] == Symbol(y) && s[1..][1..] == rest;
  }

  lemma CollectThird(left: nat, z: nat, rest: string)
    requires left < 16 && z < 64
    ensures Collect([Symbol(z)] + rest, 2, left, 0) == After(left * 16 + z / 4, Collect(rest, 3, z % 4, 0))
  {
    SextetOfSymbol(z);
    assert ([Symbol(z)] + rest)[1..] == rest;
  }

  lemma CollectFourth(left: nat, w: nat, rest: string)
    requires left < 4 && w < 64
    ensures Collect([Symbol(w)] + rest, 3, left, 0) == After(left * 64 + w, Collect(rest, 0, 0, 0))
  {
    SextetOfSymbol(w);
    assert ([Symbol(w)] + rest)[1..] == rest;
  }

  lemma CollectFour(x: nat, b: nat, c: nat, d: nat, rest: string)
    requires x < 64 && b < 64 && c < 64 && d < 64
    ensures Collect([Symbol(x), Symbol(b)] + ([Symbol(c)] + ([Symbol(d)] + rest)), 0, 0, 0)
         == After(x * 4 + b / 16, After(b % 16 * 16 + c / 4, After(c % 4 * 64 + d, Collect(rest, 0, 0, 0))))
  {
    var s2 := [Symbol(d)] + rest;
    CollectTwo(x, b, [Symbol(c)] + s2);
    CollectThird(b % 16, c, s2);
    CollectFourth(c % 4, d, rest);
  }

  lemma CollectQuad(x: byte, y: byte, z: byte, rest: string)
    ensures Collect(Quad(x, y, z) + rest, 0, 0, 0) == After(x, After(y, After(z, Collect(rest, 0, 0, 0))))
  {
    Sextets(x, y, z);
    QuadThen(x, y, z, rest);
    CollectFour(x / 4, x % 4 * 16 + y / 16, y % 16 * 4 + z / 64, z % 64, rest);
  }

  lemma QuadThen(x: byte, y: byte, z: byte, rest: string)
    ensures Quad(x, y, z) + rest
      == [Symbol(x / 4), Symbol(x % 4 * 16 + y / 16)] + ([Symbol(y % 16 * 4 + z / 64)] + ([Symbol(z % 64)] + rest))
  {}

  lemma Sextets(x: byte, y: byte, z: byte)
    ensures var b, c, d := x % 4 * 16 + y / 16, y % 16 * 4 + z / 64, z % 64;
      && x / 4 * 4 + b / 16 == x as nat && b % 16 * 16 + c / 4 == y as nat && c % 4 * 64 + d == z as nat
  {}

  lemma Mods(n: nat, m: nat)
    ensures n >= 3 ==> (n - 3) % 3 == n % 3
    ensures (4 + m) % 4 == m % 4
  {}

  lemma {:induction false} LengthOfEncoded(b: seq<byte>)
    ensures |EncodeBytes(b)| % 4 == (if |b| % 3 == 0 then 0 else |b| % 3 + 1)
  {
    if |b| >= 3 {
      LengthOfEncoded(b[3..]);
      Mods(|b|, |EncodeBytes(b[3..])|);
      assert |EncodeBytes(b)| == 4 + |EncodeBytes(b[3..])|;
    }
  }

  /** What padding makes of an encoding's last group. */
  function PadFor(n: nat): string {
    if n % 3 == 0 then "" else if n % 3 == 1 then "==" else "="
  }

  lemma CollectPad(left: nat)
    ensures left < 16 ==> Collect("==", 2, left, 0) == Some([])
    ensures left < 4 ==> Collect("=", 3, left, 0) == Some([])
  {
    if left < 16 {
      assert "=="[1..] == "=";
      assert Collect("=", 2, left, 1) == Some([]);
    }
  }

  lemma CollectOneLeft(x: byte)
    ensures Collect([Symbol(x / 4), Symbol(x % 4 * 16)] + "==", 0, 0, 0) == Some([x])
  {
    CollectTwo(x / 4, x % 4 * 16, "==");
    assert (x % 4 * 16) % 16 == 0 && x / 4 * 4 + (x % 4 * 16) / 16 == x;
    CollectPad(0);
    assert [x] + [] == [x];
  }

  lemma CollectTwoLeft(x: byte, y: byte)
    ensures Collect([Symbol(x / 4), Symbol(x % 4 * 16 + y / 16), Symbol(y % 16 * 4)] + "=", 0, 0, 0) == Some([x, y])
  {
    var m, c := x % 4 * 16 + y / 16, y % 16 * 4;
    assert [Symbol(x / 4), Symbol(m), Symbol(c)] + "=" == [Symbol(x / 4), Symbol(m)] + ([Symbol(c)] + "=");
    CollectTwo(x / 4, m, [Symbol(c)] + "=");
    CollectThird(m % 16, c, "=");
    assert c % 4 == 0 && x / 4 * 4 + m / 16 == x && m % 16 * 16 + c / 4 == y;
    CollectPad(0);
    assert [x] + ([y] + []) == [x, y];
  }

  lemma CollectTail(b: seq<byte>)
    requires |b| < 3
    ensures Collect(EncodeTail(b) + PadFor(|b|), 0, 0, 0) == Some(b)
  {
    if |b| == 0 {
      assert EncodeTail(b) + PadFor(|b|) == [];
    } else if |b| == 1 {
      CollectOneLeft(b[0]);
      assert b == [b[0]];
    } else {
      CollectTwoLeft(b[0], b[1]);
      assert b == [b[0], b[1]];
    }
  }

  lemma CollectFirst(x: byte, y: byte, z: byte, rest: string, pad: string, b: seq<byte>)
    requires Collect(rest + pad, 0, 0, 0) == Some(b)
    ensures Collect((Quad(x, y, z) + rest) + pad, 0, 0, 0) == Some([x] + ([y] + ([z] + b)))
  {
    Regroup(Quad(x, y, z), rest, pad);
    CollectQuad(x, y, z, rest + pad);
  }

  lemma {:induction false} CollectEncoded(b: seq<byte>)
    ensures Collect(EncodeBytes(b) + PadFor(|b|), 0, 0, 0) == Some(b)
  {
    if |b| < 3 {
      CollectTail(b);
    } else {
      CollectEncoded(b[3..]);
      Mods(|b|, 0);
      CollectFirst(b[0], b[1], b[2], EncodeBytes(b[3..]), PadFor(|b|), b[3..]);
      assert b == [b[0]] + ([b[1]] + ([b[2]] + b[3..]));
    }
  }

  /** Decoding inverts encoding. */
  lemma DecodeEncodeBytes(b: seq<byte>)
    ensures DecodeBytes(EncodeBytes(b)) == Some(b)
  {
    LengthOfEncoded(b);
    CollectEncoded(b);
    EncodedAlphabet(b);
  }

  /** An encoding holds no dot and only ASCII characters. */
  lemma {:induction false} EncodedAlphabet(b: seq<byte>)
    ensures forall i :: 0 <= i < |EncodeBytes(b)| ==> EncodeBytes(b)[i] != '.' && EncodeBytes(b)[i] < '\U{0080}'
  {
    if |b| >= 3 {
      EncodedAlphabet(b[3..]);
    }
  }

  /** A vector of section 10 of RFC 4648, without its padding, and the two symbols that differ from plain base64. */
  lemma EncodeExample()
    ensures EncodeBytes([0x66, 0x6F, 0x6F, 0x62, 0x61]) == "Zm9vYmE"
    ensures EncodeBytes([0xFB, 0xFF]) == "-_8"
  {
    assert [0x66, 0x6F, 0x6F, 0x62, 0x61][3..] == [0x62, 0x61];
    assert Symbol(0x66 / 4) == 'Z' && Symbol(0x66 % 4 * 16 + 0x6F / 16) == 'm';
    assert Symbol(0x6F % 16 * 4 + 0x6F / 64) == '9' && Symbol(0x6F % 64) == 'v';
    assert EncodeTail([0x62, 0x61]) == "YmE";
    assert Quad(0x66, 0x6F, 0x6F) == "Zm9v";
    assert EncodeTail([0xFB, 0xFF]) == "-_8";
  }

  lemma UrlsafeHead(s: string)
    requires s != [] && s[0] != '='
    ensures Sextet(s[0]).None? ==> Urlsafe(s) == Urlsafe(s[1..])
    ensures Sextet(s[0]).Some? ==>
      var t := Urlsafe(s);
      t != [] && t[0] != '=' && Sextet(t[0]) == Sextet(s[0]) && t[1..] == Urlsafe(s[1..])
  {
    assert [] + Urlsafe(s[1..]) == Urlsafe(s[1..]);
  }

  /** The bits left over after one more symbol. */
  function NextLeft(quad: nat, v: nat): nat {
    if quad == 0 then v else if quad == 1 then v % 16 else if quad == 2 then v % 4 else 0
  }

  lemma StepAlike(s: string, t: string, quad: nat, left: nat, v: nat)
    requires quad < 4 && (quad == 0 ==> left == 0) && (quad == 1 ==> left < 64) && (quad == 2 ==> left < 16) && (quad == 3 ==> left < 4)
    requires s != [] && t != [] && s[0] != '=' && t[0] != '=' && Sextet(s[0]) == Sextet(t[0]) == Some(v) && v < 64
    requires Collect(s[1..], (quad + 1) % 4, NextLeft(quad, v), 0) == Collect(t[1..], (quad + 1) % 4, NextLeft(quad, v), 0)
    ensures Collect(s, quad, left, 0) == Collect(t, quad, left, 0)
  {}

  /** The decoder takes plain base64 too, and passes over what belongs to neither alphabet. */
  lemma {:induction false} AlphabetsAgree(s: string, quad: nat, left: nat)
    requires quad < 4 && (quad == 0 ==> left == 0) && (quad == 1 ==> left < 64) && (quad == 2 ==> left < 16) && (quad == 3 ==> left < 4)
    requires '=' !in s
    ensures Collect(s, quad, left, 0) == Collect(Urlsafe(s), quad, left, 0)
  {
    if s != [] {
      UrlsafeHead(s);
      match Sextet(s[0])
      case None => AlphabetsAgree(s[1..], quad, left);
      case Some(v) =>
        AlphabetsAgree(s[1..], (quad + 1) % 4, NextLeft(quad, v));
        StepAlike(s, Urlsafe(s), quad, left, v);
    }
  }

  /** Text in the one alphabet, with what belongs to neither left out. */
  function Urlsafe(s: string): string {
    if s == [] then []
    else
      var c := s[0];
      (if 'A' <= c <= 'Z' || 'a' <= c <= 'z' || '0' <= c <= '9' || c == '-' || c == '_' then [c]
       else if c == '+' then ['-'] else if c == '/' then ['_'] else []) + Urlsafe(s[1..])
  }
}
