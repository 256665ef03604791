/** Presentation-format character-strings (section 5.1 of RFC 1035): the Cloudflare TXT writer and
    tokenizer, and the Akamai escape pair. */
module TxtCodec {
  import opened Text
  import opened Utf8

  function Replace(s: string, c: char, sub: string): string {
    if s == [] then [] else (if s[0] == c then sub else [s[0]]) + Replace(s[1..], c, sub)
  }

  /** Backslashes first, then quotes. */
  function Escape(value: string): string {
    Replace(Replace(value, '\\', "\\\\"), '"', "\\\"")
  }

  function Quote(value: string): string {
    "\"" + Escape(value) + "\""
  }

  // ---- the tokenizer ----

  predicate IsDigit(c: char) {
    '0' <= c <= '9'
  }

  function Digit(c: char): nat
    requires IsDigit(c)
  {
    c as int - '0' as int
  }

  /** `s` starts with a backslash and three decimal digits worth at most 255. */
  predicate OctetEscape(s: string) {
    && |s| >= 4 && s[0] == '\\' && IsDigit(s[1]) && IsDigit(s[2]) && IsDigit(s[3])
    && 100 * Digit(s[1]) + 10 * Digit(s[2]) + Digit(s[3]) <= 255
  }

  function EscapedOctet(s: string): byte
    requires OctetEscape(s)
  {
    100 * Digit(s[1]) + 10 * Digit(s[2]) + Digit(s[3])
  }

  function Flush(buf: seq<byte>, open: bool): seq<string> {
    if open then [Decode(buf)] else []
  }

  /** The tokens still to come, from the text left and the token under construction. */
  function Scan(s: string, buf: seq<byte>, inQuotes: bool, open: bool): seq<string>
    decreases |s|
  {
    if s == [] then Flush(buf, open)
    else if s[0] == '\\' && |s| > 1 then
      if OctetEscape(s) then Scan(s[4..], buf + [EscapedOctet(s)], inQuotes, true)
      else Scan(s[2..], buf + EncodeChar(s[1]), inQuotes, true)
    else if s[0] == '"' then Scan(s[1..], buf, !inQuotes, true)
    else if IsSpace(s[0]) && !inQuotes then
      Flush(buf, open) + Scan(s[1..], if open then [] else buf, inQuotes, false)
    else Scan(s[1..], buf + EncodeChar(s[0]), inQuotes, true)
  }

  lemma TailOf(s: string, i: nat)
    requires i < |s|
    ensures s[i..][0] == s[i] && s[i..][1..] == s[i + 1..]
  {}

  lemma ScanOctetAt(s: string, i: nat, buf: seq<byte>, inQuotes: bool, open: bool)
    requires i < |s| && OctetEscape(s[i..])
    ensures i + 4 <= |s| && Scan(s[i..], buf, inQuotes, open) == Scan(s[i + 4..], buf + [EscapedOctet(s[i..])], inQuotes, true)
  {
    assert s[i..][4..] == s[i + 4..];
  }

  lemma ScanEscaped(s: string, i: nat, buf: seq<byte>, inQuotes: bool, open: bool)
    requires i + 1 < |s| && s[i] == '\\' && !OctetEscape(s[i..])
    ensures Scan(s[i..], buf, inQuotes, open) == Scan(s[i + 2..], buf + EncodeChar(s[i + 1]), inQuotes, true)
  {
    assert s[i..][1] == s[i + 1] && s[i..][2..] == s[i + 2..];
  }

  lemma ScanSpace(values: seq<string>, s: string, i: nat, buf: seq<byte>, open: bool)
    requires i < |s| && IsSpace(s[i])
    ensures values + Scan(s[i..], buf, false, open)
      == (if open then values + [Decode(buf)] else values) + Scan(s[i + 1..], if open then [] else buf, false, false)
  {
    var rest := Scan(s[i + 1..], if open then [] else buf, false, false);
    TailOf(s, i);
    assert [] + rest == rest;
    Regroup(values, [Decode(buf)], rest);
  }

  method ParseTxtContent(content: string) returns (values: seq<string>)
    ensures values == Scan(content, [], false, false)
  {
    values := [];
    var buf: seq<byte> := [];
    var inQuotes, haveToken := false, false;
    var i, n := 0, |content|;
    while i < n
      invariant 0 <= i <= n
      invariant Scan(content, [], false, false) == values + Scan(content[i..], buf, inQuotes, haveToken)
    {
      var c := content[i];
      TailOf(content, i);
      if c == '\\' && i + 1 < n {
        if OctetEscape(content[i..]) {
          ScanOctetAt(content, i, buf, inQuotes, haveToken);
          buf, i := buf + [EscapedOctet(content[i..])], i + 4;
        } else {
          ScanEscaped(content, i, buf, inQuotes, haveToken);
          buf, i := buf + EncodeChar(content[i + 1]), i + 2;
        }
        haveToken := true;
      } else if c == '"' {
        inQuotes, haveToken, i := !inQuotes, true, i + 1;
      } else if IsSpace(c) && !inQuotes {
        ScanSpace(values, content, i, buf, haveToken);
        if haveToken {
          values := values + [Decode(buf)];
          buf, haveToken := [], false;
        }
        i := i + 1;
      } else {
        buf, haveToken, i := buf + EncodeChar(c), true, i + 1;
      }
    }
    if haveToken {
      values := values + [Decode(buf)];
    }
  }

  // ---- every way to print a quoted character-string ----

  /** A character as it is, a character after a backslash, or an octet as three digits. */
  datatype Piece = Plain(c: char) | Escaped(c: char) | Octet(b: byte)

  predicate Printable(p: Piece) {
    match p
    case Plain(c) => c != '\\' && c != '"'
    case Escaped(c) => !IsDigit(c)
    case Octet(_) => true
  }

  function DigitChar(n: nat): char
    requires n < 10
  {
    (n + '0' as int) as char
  }

  function PrintPiece(p: Piece): string {
    match p
    case Plain(c) => [c]
    case Escaped(c) => ['\\', c]
    case Octet(b) => ['\\', DigitChar(b / 100), DigitChar(b / 10 % 10), DigitChar(b % 10)]
  }

  function PieceOctets(p: Piece): seq<byte> {
    match p
    case Plain(c) => EncodeChar(c)
    case Escaped(c) => EncodeChar(c)
    case Octet(b) => [b]
  }

  function Print(ps: seq<Piece>): string {
    if ps == [] then [] else PrintPiece(ps[0]) + Print(ps[1..])
  }

  function Octets(ps: seq<Piece>): seq<byte> {
    if ps == [] then [] else PieceOctets(ps[0]) + Octets(ps[1..])
  }

  /** Quoted tokens, separated by `gap`. */
  function PrintAll(tokens: seq<seq<Piece>>, gap: string): string {
    Join(seq(|tokens|, i requires 0 <= i < |tokens| => "\"" + Print(tokens[i]) + "\""), gap)
  }

  lemma DigitsOfOctet(b: byte)
    ensures IsDigit(DigitChar(b / 100)) && IsDigit(DigitChar(b / 10 % 10)) && IsDigit(DigitChar(b % 10))
    ensures 100 * Digit(DigitChar(b / 100)) + 10 * Digit(DigitChar(b / 10 % 10)) + Digit(DigitChar(b % 10)) == b
  {}

  lemma ScanOctet(b: byte, rest: string, buf: seq<byte>)
    ensures Scan(PrintPiece(Octet(b)) + rest, buf, true, true) == Scan(rest, buf + [b], true, true)
  {
    var s := PrintPiece(Octet(b)) + rest;
    DigitsOfOctet(b);
    assert s[0] == '\\' && s[1] == DigitChar(b / 100) && s[2] == DigitChar(b / 10 % 10) && s[3] == DigitChar(b % 10);
    assert s[4..] == rest;
  }

  lemma ScanPiece(p: Piece, rest: string, buf: seq<byte>)
    requires Printable(p)
    ensures Scan(PrintPiece(p) + rest, buf, true, true) == Scan(rest, buf + PieceOctets(p), true, true)
  {
    var s := PrintPiece(p) + rest;
    match p
    case Plain(c) =>
      assert s[0] == c && s[1..] == rest;
    case Escaped(c) =>
      assert s[0] == '\\' && s[1] == c && s[2..] == rest;
      assert !OctetEscape(s);
    case Octet(b) =>
      ScanOctet(b, rest, buf);
  }

  lemma {:induction false} ScanPieces(ps: seq<Piece>, rest: string, buf: seq<byte>)
    requires forall p :: p in ps ==> Printable(p)
    ensures Scan(Print(ps) + rest, buf, true, true) == Scan(rest, buf + Octets(ps), true, true)
  {
    if ps == [] {
      assert Print(ps) + rest == rest && buf + Octets(ps) == buf;
    } else {
      assert Print(ps) + rest == PrintPiece(ps[0]) + (Print(ps[1..]) + rest);
      ScanPiece(ps[0], Print(ps[1..]) + rest, buf);
      ScanPieces(ps[1..], rest, buf + PieceOctets(ps[0]));
      assert (buf + PieceOctets(ps[0])) + Octets(ps[1..]) == buf + Octets(ps);
    }
  }

  lemma ScanToken(ps: seq<Piece>, rest: string)
    requires forall p :: p in ps ==> Printable(p)
    ensures Scan("\"" + Print(ps) + "\"" + rest, [], false, false) == Scan(rest, Octets(ps), false, true)
  {
    var s := "\"" + Print(ps) + "\"" + rest;
    assert s[0] == '"' && s[1..] == Print(ps) + ("\"" + rest);
    ScanPieces(ps, "\"" + rest, []);
    assert ("\"" + rest)[1..] == rest && [] + Octets(ps) == Octets(ps);
  }

  lemma {:induction false} ScanSpaces(gap: string, rest: string, buf: seq<byte>, open: bool)
    requires forall i :: 0 <= i < |gap| ==> IsSpace(gap[i])
    requires open || buf == []
    ensures Scan(gap + rest, buf, false, open)
         == if gap == [] then Scan(rest, buf, false, open) else Flush(buf, open) + Scan(rest, [], false, false)
    decreases |gap|
  {
    if gap == [] {
      assert gap + rest == rest;
    } else {
      var s := gap + rest;
      assert s[0] == gap[0] && s[1..] == gap[1..] + rest;
      ScanSpaces(gap[1..], rest, [], false);
    }
  }

  /** However its tokens are printed, a TXT content string reads back as the tokens' octets. */
  lemma {:induction false} PrintedReadsBack(tokens: seq<seq<Piece>>, gap: string)
    requires forall ps :: ps in tokens ==> forall p :: p in ps ==> Printable(p)
    requires gap != [] && forall i :: 0 <= i < |gap| ==> IsSpace(gap[i])
    ensures Scan(PrintAll(tokens, gap), [], false, false)
         == seq(|tokens|, i requires 0 <= i < |tokens| => Decode(Octets(tokens[i])))
  {
    if tokens != [] {
      var first, rest := tokens[0], tokens[1..];
      assert first in tokens;
      forall ps | ps in rest ensures ps in tokens {}
      var printed := seq(|tokens|, i requires 0 <= i < |tokens| => "\"" + Print(tokens[i]) + "\"");
      var printedRest := seq(|rest|, i requires 0 <= i < |rest| => "\"" + Print(rest[i]) + "\"");
      assert printed[1..] == printedRest;
      if rest == [] {
        assert PrintAll(tokens, gap) == "\"" + Print(first) + "\"" + "";
        ScanToken(first, "");
      } else {
        assert PrintAll(tokens, gap) == "\"" + Print(first) + "\"" + (gap + PrintAll(rest, gap));
        ScanToken(first, gap + PrintAll(rest, gap));
        ScanSpaces(gap, PrintAll(rest, gap), Octets(first), true);
        PrintedReadsBack(rest, gap);
      }
    }
  }

  /** What can stand outside quotation marks. */
  predicate Bare(p: Piece) {
    Printable(p) && (p.Plain? ==> !IsSpace(p.c))
  }

  lemma ScanBareOctet(b: byte, rest: string, buf: seq<byte>, open: bool)
    ensures Scan(PrintPiece(Octet(b)) + rest, buf, false, open) == Scan(rest, buf + [b], false, true)
  {
    var s := PrintPiece(Octet(b)) + rest;
    DigitsOfOctet(b);
    assert s[0] == '\\' && s[1] == DigitChar(b / 100) && s[2] == DigitChar(b / 10 % 10) && s[3] == DigitChar(b % 10);
    assert s[4..] == rest;
  }

  lemma ScanBare(p: Piece, rest: string, buf: seq<byte>, open: bool)
    requires Bare(p)
    ensures Scan(PrintPiece(p) + rest, buf, false, open) == Scan(rest, buf + PieceOctets(p), false, true)
  {
    var s := PrintPiece(p) + rest;
    match p
    case Plain(c) =>
      assert s[0] == c && s[1..] == rest;
    case Escaped(c) =>
      assert s[0] == '\\' && s[1] == c && s[2..] == rest;
      assert !OctetEscape(s);
    case Octet(b) =>
      ScanBareOctet(b, rest, buf, open);
  }

  lemma {:induction false} ScanBares(ps: seq<Piece>, rest: string, buf: seq<byte>, open: bool)
    requires forall p :: p in ps ==> Bare(p)
    ensures Scan(Print(ps) + rest, buf, false, open) == Scan(rest, buf + Octets(ps), false, open || ps != [])
  {
    if ps == [] {
      assert Print(ps) + rest == rest && buf + Octets(ps) == buf;
    } else {
      assert Print(ps) + rest == PrintPiece(ps[0]) + (Print(ps[1..]) + rest);
      ScanBare(ps[0], Print(ps[1..]) + rest, buf, open);
      ScanBares(ps[1..], rest, buf + PieceOctets(ps[0]), true);
      assert (buf + PieceOctets(ps[0])) + Octets(ps[1..]) == buf + Octets(ps);
    }
  }

  /** A token without quotation marks, escapes allowed, ends at white space and reads back too. */
  lemma BareReadsBack(ps: seq<Piece>, gap: string, rest: string)
    requires ps != [] && forall p :: p in ps ==> Bare(p)
    requires gap != [] && forall i :: 0 <= i < |gap| ==> IsSpace(gap[i])
    ensures Scan(Print(ps) + (gap + rest), [], false, false) == [Decode(Octets(ps))] + Scan(rest, [], false, false)
    ensures Scan(Print(ps), [], false, false) == [Decode(Octets(ps))]
  {
    ScanBares(ps, gap + rest, [], false);
    ScanBares(ps, [], [], false);
    ScanSpaces(gap, rest, Octets(ps), true);
    assert [] + Octets(ps) == Octets(ps) && Print(ps) + [] == Print(ps);
  }

  /** The printing that the writer chooses. */
  function WriterPieces(value: string): seq<Piece> {
    if value == [] then []
    else [if value[0] == '\\' || value[0] == '"' then Escaped(value[0]) else Plain(value[0])] + WriterPieces(value[1..])
  }

  lemma {:induction false} WriterPrints(value: string)
    ensures Print(WriterPieces(value)) == Escape(value)
    ensures Octets(WriterPieces(value)) == Encode(value)
    ensures forall p :: p in WriterPieces(value) ==> Printable(p)
  {
    if value != [] {
      WriterPrints(value[1..]);
      var head := if value[0] == '\\' then "\\\\" else [value[0]];
      assert Replace(value, '\\', "\\\\") == head + Replace(value[1..], '\\', "\\\\");
      ReplaceAppend(head, Replace(value[1..], '\\', "\\\\"));
    }
  }

  lemma {:induction false} ReplaceAppend(a: string, b: string)
    ensures Replace(a + b, '"', "\\\"") == Replace(a, '"', "\\\"") + Replace(b, '"', "\\\"")
  {
    if a == [] {
      assert a + b == b;
    } else {
      ReplaceAppend(a[1..], b);
      assert (a + b)[1..] == a[1..] + b && (a + b)[0] == a[0];
      Regroup(if a[0] == '"' then "\\\"" else [a[0]], Replace(a[1..], '"', "\\\""), Replace(b, '"', "\\\""));
    }
  }

  /** What the Cloudflare backend writes for a list of values. */
  function Content(values: seq<string>): string {
    Join(seq(|values|, i requires 0 <= i < |values| => Quote(values[i])), " ")
  }

  /** Reading back what was written yields the values, whatever they contain. */
  lemma TxtRoundTrip(values: seq<string>)
    ensures Scan(Content(values), [], false, false) == values
  {
    var tokens := seq(|values|, i requires 0 <= i < |values| => WriterPieces(values[i]));
    forall i | 0 <= i < |values|
      ensures "\"" + Print(tokens[i]) + "\"" == Quote(values[i]) && Decode(Octets(tokens[i])) == values[i]
      ensures forall p :: p in tokens[i] ==> Printable(p)
    {
      WriterPrints(values[i]);
      DecodeEncode(values[i]);
    }
    assert seq(|tokens|, i requires 0 <= i < |tokens| => "\"" + Print(tokens[i]) + "\"")
        == seq(|values|, i requires 0 <= i < |values| => Quote(values[i]));
    PrintedReadsBack(tokens, " ");
    assert seq(|tokens|, i requires 0 <= i < |tokens| => Decode(Octets(tokens[i]))) == values;
  }

  // ---- the Akamai pair ----

  function Unescape(value: string): string {
    if value == [] then []
    else if value[0] == '\\' && |value| > 1 then [value[1]] + Unescape(value[2..])
    else [value[0]] + Unescape(value[1..])
  }

  method UnescapeCharString(value: string) returns (out: string)
    ensures out == Unescape(value)
  {
    out := [];
    var i, n := 0, |value|;
    while i < n
      invariant 0 <= i <= n
      invariant Unescape(value) == out + Unescape(value[i..])
    {
      assert value[i..][1..] == value[i + 1..];
      if value[i] == '\\' && i + 1 < n {
        assert value[i..][1] == value[i + 1] && value[i..][2..] == value[i + 2..];
        out, i := out + [value[i + 1]], i + 2;
      } else {
        out, i := out + [value[i]], i + 1;
      }
    }
  }

  function EscapeChar(c: char): string {
    if c == '\\' || c == '"' then ['\\', c] else [c]
  }

  lemma EscapeHead(value: string)
    requires value != []
    ensures Escape(value) == EscapeChar(value[0]) + Escape(value[1..])
  {
    WriterPrints(value);
    WriterPrints(value[1..]);
  }

  /** Unescaping undoes escaping, whatever follows. */
  lemma {:induction false} UnescapeEscape(value: string, rest: string)
    ensures Unescape(Escape(value) + rest) == value + Unescape(rest)
  {
    if value == [] {
      assert Escape(value) + rest == rest;
    } else {
      UnescapeEscape(value[1..], rest);
      EscapeHead(value);
      var tail := Escape(value[1..]) + rest;
      Regroup(EscapeChar(value[0]), Escape(value[1..]), rest);
      UnescapeChar(value[0], tail);
      Regroup([value[0]], value[1..], Unescape(rest));
      assert value == [value[0]] + value[1..];
    }
  }

  lemma UnescapeChar(c: char, tail: string)
    ensures Unescape(EscapeChar(c) + tail) == [c] + Unescape(tail)
  {
    var s := EscapeChar(c) + tail;
    if c == '\\' || c == '"' {
      assert s[0] == '\\' && s[1] == c && s[2..] == tail;
    } else {
      assert s[0] == c && s[1..] == tail;
    }
  }

  lemma UnescapeInvertsEscape(value: string)
    ensures Unescape(Escape(value)) == value
  {
    UnescapeEscape(value, []);
    assert Escape(value) + [] == Escape(value) && value + [] == value;
  }

  /** What the Akamai backend makes of a stored TXT value: outer quotes stripped, then unescaped. */
  function ReadBack(stored: string): string {
    Unescape(DropQuotes(stored))
  }

  lemma {:induction false} EscapeAppend(a: string, b: string)
    ensures Escape(a + b) == Escape(a) + Escape(b)
  {
    if a == [] {
      assert a + b == b;
    } else {
      EscapeAppend(a[1..], b);
      assert (a + b)[1..] == a[1..] + b && (a + b)[0] == a[0];
      EscapeHead(a);
      EscapeHead(a + b);
      Regroup(EscapeChar(a[0]), Escape(a[1..]), Escape(b));
    }
  }

  lemma EscapeOne(c: char)
    ensures Escape([c]) == EscapeChar(c)
  {
    EscapeHead([c]);
  }

  lemma EscapeLast(value: string)
    requires value != []
    ensures var u, c := value[..|value| - 1], value[|value| - 1];
      Escape(value) == Escape(u) + EscapeChar(c)
  {
    var u, c := value[..|value| - 1], value[|value| - 1];
    assert value == u + [c];
    EscapeAppend(u, [c]);
    EscapeOne(c);
  }

  predicate IsQuote(c: char) {
    c == '"'
  }

  function DropQuotes(s: string): string {
    StripChars(s, IsQuote)
  }

  lemma StripFirst(body: string)
    requires body != [] && body[0] != '"'
    ensures StripLeft("\"" + body, IsQuote) == body
  {
    assert ("\"" + body)[1..] == body;
  }

  lemma StripLast(body: string)
    requires body != [] && body[|body| - 1] != '"'
    ensures StripRight(body + "\"", IsQuote) == body
    ensures StripRight(body + "\"\"", IsQuote) == body
  {
    assert (body + "\"")[..|body|] == body;
    assert (body + "\"\"")[..|body| + 1] == body + "\"";
  }

  /** Stripping the quoted form removes exactly the outer quotes, unless the value ends in one. */
  lemma StripQuoted(value: string)
    ensures DropQuotes(Quote(value))
         == if value != [] && value[|value| - 1] == '"' then Escape(value[..|value| - 1]) + "\\" else Escape(value)
  {
    var q := Escape(value);
    if value == [] {
      assert Quote(value) == "\"\"" && "\"\""[1..] == "\"";
    } else {
      EscapeHead(value);
      EscapeLast(value);
      StripFirst(q + "\"");
      assert Quote(value) == "\"" + (q + "\"");
      if value[|value| - 1] == '"' {
        var p := Escape(value[..|value| - 1]) + "\\";
        StripLast(p);
        assert q + "\"" == p + "\"\"";
      } else {
        StripLast(q);
      }
    }
  }

  /** Reading back a stored value is the identity exactly on values that do not end in a double quote. */
  lemma ReadBackExactly(value: string)
    ensures ReadBack(Quote(value)) == value <==> !(value != [] && value[|value| - 1] == '"')
  {
    StripQuoted(value);
    if value != [] && value[|value| - 1] == '"' {
      var u := value[..|value| - 1];
      UnescapeEscape(u, "\\");
      assert (u + "\\")[|u|] != value[|u|];
    } else {
      UnescapeInvertsEscape(value);
    }
  }
}
