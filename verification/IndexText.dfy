/** The agent index as TXT: `agents=name:protocol,...`. */
module IndexText {
  import opened Wrappers
  import opened Text
  import opened Ordering

  /** A name and a protocol. */
  type Entry = (string, string)

  const HEADER := "agents="

  function MakeEntry(name: string, protocol: string): Option<Entry> {
    if name != [] && protocol != [] then Some((name, protocol)) else None
  }

  /** Cut at the first colon. */
  function Cut(e: string): Option<Entry> {
    var at := Find(e, ":");
    if at == |e| then None else MakeEntry(Strip(e[..at]), Lower(Strip(e[at + 1..])))
  }

  /** One element of the list, if it is an entry. */
  function ParseChunk(chunk: string): Option<Entry> {
    Cut(Strip(chunk))
  }

  function OptionSeq<T>(o: Option<T>): seq<T> {
    match o
    case Some(x) => [x]
    case None => []
  }

  function ParseChunks(chunks: seq<string>): seq<Entry> {
    if chunks == [] then [] else OptionSeq(ParseChunk(chunks[0])) + ParseChunks(chunks[1..])
  }

  /** What follows the header. */
  function Body(txt: string): Option<string> {
    if StartsWith(txt, HEADER) then Some(txt[|HEADER|..]) else None
  }

  function Parse(txt: string): seq<Entry> {
    match Body(txt)
    case Some(body) => ParseChunks(Split(body, ','))
    case None => []
  }

  method ParseIndexTxt(txt: string) returns (entries: seq<Entry>)
    ensures entries == Parse(txt)
  {
    entries := [];
    var body := Body(txt);
    if body.Some? {
      entries := ParseList(Split(body.value, ','));
    }
  }

  method ParseList(chunks: seq<string>) returns (entries: seq<Entry>)
    ensures entries == ParseChunks(chunks)
  {
    entries := [];
    var i := 0;
    while i < |chunks|
      invariant 0 <= i <= |chunks| && ParseChunks(chunks) == entries + ParseChunks(chunks[i..])
    {
      NextChunk(entries, chunks, i);
      entries := entries + OptionSeq(ParseChunk(chunks[i]));
      i := i + 1;
    }
  }

  lemma NextChunk(entries: seq<Entry>, chunks: seq<string>, i: nat)
    requires i < |chunks|
    ensures entries + ParseChunks(chunks[i..])
         == (entries + OptionSeq(ParseChunk(chunks[i]))) + ParseChunks(chunks[i + 1..])
  {
    assert chunks[i..][1..] == chunks[i + 1..];
    Regroup(entries, OptionSeq(ParseChunk(chunks[i])), ParseChunks(chunks[i + 1..]));
  }

  function Render(e: Entry): string {
    e.0 + ":" + e.1
  }

  function Rendered(es: seq<Entry>): (r: seq<string>)
    ensures |r| == |es|
  {
    if es == [] then [] else [Render(es[0])] + Rendered(es[1..])
  }

  function Format(es: seq<Entry>): string {
    HEADER + Join(Rendered(Sort(es, PairLe)), ",")
  }

  predicate IsDouble(c: char) {
    c == '"'
  }

  predicate IsSingle(c: char) {
    c == '\''
  }

  /** A stored value with quotes around it taken off. */
  function Unquoted(value: string): string {
    StripChars(StripChars(value, IsDouble), IsSingle)
  }

  function ReadText(value: string): seq<Entry> {
    Parse(Unquoted(value))
  }

  // ---- which entries a text has ----

  lemma {:induction false} FromSomeChunk(chunks: seq<string>, e: Entry)
    ensures e in ParseChunks(chunks) <==> exists i :: 0 <= i < |chunks| && ParseChunk(chunks[i]) == Some(e)
  {
    if chunks != [] {
      FromSomeChunk(chunks[1..], e);
      if i :| 0 <= i < |chunks| && ParseChunk(chunks[i]) == Some(e) {
        assert i > 0 ==> chunks[1..][i - 1] == chunks[i];
      }
      if i :| 0 <= i < |chunks| - 1 && ParseChunk(chunks[1..][i]) == Some(e) {
        assert chunks[i + 1] == chunks[1..][i];
      }
    }
  }

  /** A trimmed chunk is an entry if a colon divides it: what precedes the first one is the name, and what
      follows the protocol, in lower case; neither is empty once trimmed. */
  ghost predicate Divides(s: string, e: Entry) {
    exists a, b :: s == a + ":" + b && ':' !in a && e == (Strip(a), Lower(Strip(b))) && e.0 != [] && e.1 != []
  }

  lemma CutDivided(s: string, a: string, b: string)
    requires s == a + ":" + b && ':' !in a
    ensures Cut(s) == MakeEntry(Strip(a), Lower(Strip(b)))
  {
    FirstColon(a, b);
    CutAt(s, a, b);
  }

  lemma DividedAt(s: string) returns (a: string, b: string)
    requires Find(s, ":") < |s|
    ensures s == a + ":" + b && ':' !in a
  {
    var at := Find(s, ":");
    BeforeFirst(s);
    assert s[at..at + 1] == ":";
    a, b := s[..at], s[at + 1..];
  }

  lemma CutExactly(s: string, e: Entry)
    ensures Cut(s) == Some(e) <==> Divides(s, e)
  {
    if Cut(s) == Some(e) {
      var a, b := DividedAt(s);
      CutDivided(s, a, b);
    }
    if Divides(s, e) {
      var a, b :| s == a + ":" + b && ':' !in a && e == (Strip(a), Lower(Strip(b))) && e.0 != [] && e.1 != [];
      CutDivided(s, a, b);
    }
  }

  /** One of the chunks, once trimmed, is the entry. */
  ghost predicate SomeDivides(chunks: seq<string>, e: Entry) {
    exists i :: 0 <= i < |chunks| && Divides(Strip(chunks[i]), e)
  }

  lemma ChunksExactly(chunks: seq<string>, e: Entry)
    ensures e in ParseChunks(chunks) <==> SomeDivides(chunks, e)
  {
    FromSomeChunk(chunks, e);
    forall i | 0 <= i < |chunks| ensures ParseChunk(chunks[i]) == Some(e) <==> Divides(Strip(chunks[i]), e) {
      CutExactly(Strip(chunks[i]), e);
    }
  }

  /** The entries of a text: those of the chunks between commas, after the header; other text has none. */
  lemma ParsedExactly(txt: string, e: Entry)
    ensures e in Parse(txt) <==> StartsWith(txt, "agents=") && SomeDivides(Split(txt[7..], ','), e)
  {
    if StartsWith(txt, "agents=") {
      ChunksExactly(Split(txt[7..], ','), e);
    }
  }

  /** Quotation marks of either kind around a text come off. */
  lemma QuotesComeOff(txt: string)
    requires txt != [] && !EndsInQuote(txt) && txt[0] != '"' && txt[0] != '\''
    ensures ReadText("\"" + txt + "\"") == ReadText("'" + txt + "'") == ReadText(txt) == Parse(txt)
  {
    UnquotedFixed(txt);
    StripPair(txt, '"', IsDouble);
    StripPair(txt, '\'', IsSingle);
    OuterStays("'" + txt + "'");
  }

  lemma OuterStays(t: string)
    requires t != [] && !IsDouble(t[0]) && !IsDouble(t[|t| - 1])
    ensures StripChars(t, IsDouble) == t
  {}

  lemma StripPair(txt: string, c: char, drop: char -> bool)
    requires txt != [] && drop(c) && !drop(txt[0]) && !drop(txt[|txt| - 1])
    ensures StripChars([c] + txt + [c], drop) == txt
  {
    var t, rest := [c] + txt + [c], txt + [c];
    assert t[0] == c && t[1..] == rest && rest[0] == txt[0];
    assert StripLeft(t, drop) == StripLeft(rest, drop) == rest;
    assert rest[|rest| - 1] == c && rest[..|rest| - 1] == txt;
    assert StripRight(rest, drop) == StripRight(txt, drop) == txt;
  }

  lemma SortTwo(a: Entry, b: Entry)
    requires PairLe(a, b) && !PairLe(b, a)
    ensures Sort([b, a], PairLe) == [a, b]
  {
    assert [b, a][1..] == [a] && [a][1..] == [];
    assert Sort([a], PairLe) == Insert(a, [], PairLe) == [a];
    assert Insert(b, [a], PairLe) == [a] + Insert(b, [a][1..], PairLe) == [a] + [b];
  }

  /** Two entries are written in order, name and protocol of each with a colon in between, and a comma. */
  lemma FormatTwo(a: Entry, b: Entry)
    requires PairLe(a, b) && !PairLe(b, a)
    ensures Format([b, a]) == "agents=" + ((a.0 + ":" + a.1) + "," + (b.0 + ":" + b.1))
  {
    SortTwo(a, b);
    assert [a, b][1..] == [b] && [b][1..] == [];
    assert Rendered([b]) == [Render(b)];
    assert Rendered([a, b]) == [Render(a)] + Rendered([b]);
    var parts := [Render(a), Render(b)];
    assert parts[1..] == [Render(b)];
    assert Join(parts, ",") == Render(a) + "," + Render(b);
  }

  // ---- what can be stored ----

  /** An entry in the form the index can hold. */
  predicate Storable(e: Entry) {
    && e.0 != [] && Trimmed(e.0) && ',' !in e.0 && ':' !in e.0
    && e.1 != [] && Trimmed(e.1) && ',' !in e.1 && IsLower(e.1)
  }

  predicate AllStorable(es: seq<Entry>) {
    forall e :: e in es ==> Storable(e)
  }

  predicate EndsInQuote(s: string) {
    s != [] && (s[|s| - 1] == '"' || s[|s| - 1] == '\'')
  }

  function EntrySet(es: seq<Entry>): set<Entry> {
    set e | e in es
  }

  lemma StripFacts(s: string)
    ensures Trimmed(Strip(s)) && |Strip(s)| <= |s|
    ensures forall c :: c in Strip(s) ==> c in s
  {
    var l := StripLeft(s, IsSpace);
    assert forall c :: c in l ==> c in s;
    assert forall c :: c in Strip(s) ==> c in l;
  }

  lemma LowerFacts(s: string)
    requires Trimmed(s) && ',' !in s
    ensures Trimmed(Lower(s)) && ',' !in Lower(s) && IsLower(Lower(s))
  {
    LowerIsLower(s);
  }

  lemma ColonAt(s: string, j: nat)
    requires j < |s| && s[j] == ':'
    ensures Text.At(s, ":", j)
  {
    assert s[j..j + 1] == ":";
  }

  lemma BeforeFirst(s: string)
    ensures ':' !in s[..Find(s, ":")]
  {
    var at := Find(s, ":");
    forall j: nat | j < at ensures s[j] != ':' {
      if s[j] == ':' {
        ColonAt(s, j);
      }
    }
  }

  lemma FirstColon(a: string, b: string)
    requires ':' !in a
    ensures Find(a + ":" + b, ":") == |a|
    ensures (a + ":" + b)[..|a|] == a && (a + ":" + b)[|a| + 1..] == b
  {
    var s := a + ":" + b;
    assert s[|a|] == ':';
    assert Text.At(s, ":", |a|);
    forall j: nat | j < |a| ensures !Text.At(s, ":", j) {
      assert s[j] == a[j];
      assert s[j..j + 1][0] == s[j];
    }
  }

  lemma ChunkStorable(chunk: string)
    requires ',' !in chunk
    ensures ParseChunk(chunk).Some? ==> Storable(ParseChunk(chunk).value)
    ensures ParseChunk(chunk).Some? ==> |Render(ParseChunk(chunk).value)| <= |chunk|
  {
    var e := Strip(chunk);
    var at := Find(e, ":");
    StripFacts(chunk);
    if at < |e| {
      BeforeFirst(e);
      assert ',' !in e[..at] && ',' !in e[at + 1..];
      StripFacts(e[..at]);
      StripFacts(e[at + 1..]);
      LowerFacts(Strip(e[at + 1..]));
    }
  }

  predicate CommaFree(chunks: seq<string>) {
    forall c :: c in chunks ==> ',' !in c
  }

  lemma {:induction false} ChunksStorable(chunks: seq<string>)
    requires CommaFree(chunks)
    ensures AllStorable(ParseChunks(chunks))
  {
    if chunks != [] {
      ChunkStorable(chunks[0]);
      ChunksStorable(chunks[1..]);
    }
  }

  /** Whatever is read is storable. */
  lemma ParsedStorable(txt: string)
    ensures AllStorable(Parse(txt))
  {
    if Body(txt).Some? {
      ChunksStorable(Split(Body(txt).value, ','));
    }
  }

  // ---- what is written reads back ----

  lemma CutAt(s: string, a: string, b: string)
    requires Find(s, ":") == |a| < |s| && s[..|a|] == a && s[|a| + 1..] == b
    ensures Cut(s) == MakeEntry(Strip(a), Lower(Strip(b)))
  {}

  lemma CutRendered(a: string, b: string)
    requires a != [] && Trimmed(a) && ':' !in a && b != [] && Trimmed(b) && IsLower(b)
    ensures Cut(a + ":" + b) == Some((a, b))
  {
    FirstColon(a, b);
    CutAt(a + ":" + b, a, b);
    StripTrimmed(a);
    StripTrimmed(b);
    LowerFixed(b);
  }

  lemma TrimmedPair(a: string, b: string)
    requires a != [] && b != [] && Trimmed(a) && Trimmed(b)
    ensures Strip(a + ":" + b) == a + ":" + b
  {
    StripTrimmed(a + ":" + b);
  }

  lemma RenderedChunk(e: Entry)
    requires Storable(e)
    ensures ParseChunk(Render(e)) == Some(e)
  {
    TrimmedPair(e.0, e.1);
    CutRendered(e.0, e.1);
    assert Strip(Render(e)) == Render(e);
  }

  lemma RenderedCommaFree(e: Entry)
    requires Storable(e)
    ensures ',' !in Render(e)
  {}

  lemma ConsChunk(chunk: string, e: Entry, rest: seq<string>)
    requires ParseChunk(chunk) == Some(e)
    ensures ParseChunks([chunk] + rest) == [e] + ParseChunks(rest)
  {
    assert ([chunk] + rest)[1..] == rest;
  }

  lemma ConsRendered(e: Entry, rest: seq<Entry>)
    ensures Rendered([e] + rest) == [Render(e)] + Rendered(rest)
  {
    assert ([e] + rest)[1..] == rest;
  }

  lemma {:induction false} RenderedChunks(es: seq<Entry>)
    requires AllStorable(es)
    ensures ParseChunks(Rendered(es)) == es
  {
    if es != [] {
      var first, rest := es[0], es[1..];
      assert es == [first] + rest && first in es;
      RenderedChunks(rest);
      RenderedChunk(first);
      ConsChunk(Render(first), first, Rendered(rest));
      ConsRendered(first, rest);
    }
  }

  lemma {:induction false} RenderedWithoutCommas(es: seq<Entry>)
    requires AllStorable(es)
    ensures CommaFree(Rendered(es))
  {
    if es != [] {
      RenderedCommaFree(es[0]);
      RenderedWithoutCommas(es[1..]);
    }
  }

  lemma SortedElements(es: seq<Entry>)
    ensures |Sort(es, PairLe)| == |es| && forall e :: e in Sort(es, PairLe) <==> e in es
  {
    PairsOrdered();
    SortKeeps(es, PairLe);
  }

  /** Storable entries read back in sorted order. */
  lemma ParseFormat(es: seq<Entry>)
    requires AllStorable(es)
    ensures Parse(Format(es)) == Sort(es, PairLe)
  {
    var sorted := Sort(es, PairLe);
    SortedElements(es);
    RenderedChunks(sorted);
    RenderedWithoutCommas(sorted);
    BodyOf(Join(Rendered(sorted), ","));
    if es == [] {
      EmptyChunk();
    } else {
      SplitJoin(Rendered(sorted), ',');
    }
  }

  lemma BodyOf(body: string)
    ensures Body(HEADER + body) == Some(body)
  {
    assert (HEADER + body)[|HEADER|..] == body;
  }

  lemma EmptyChunk()
    ensures ParseChunks(Split([], ',')) == []
  {
    assert ParseChunk([]) == None;
  }

  lemma UnquotedFixed(s: string)
    requires s != [] && !IsDouble(s[0]) && !IsSingle(s[0])
    ensures !EndsInQuote(s) ==> Unquoted(s) == s
    ensures EndsInQuote(s) ==> |Unquoted(s)| < |s|
  {}

  // ---- exactly what reads back ----

  /** A protocol whose final quotation marks were taken for those around the text. */
  function Clipped(protocol: string): string {
    StripRight(StripRight(protocol, IsDouble), IsSingle)
  }

  /** What the last entry of a text is read as. */
  function ReadLast(e: Entry): Option<Entry> {
    MakeEntry(e.0, Lower(Strip(Clipped(e.1))))
  }

  lemma {:induction false} StripAfter(a: string, b: string, drop: char -> bool)
    requires a != [] && !drop(a[|a| - 1])
    ensures StripRight(a + b, drop) == a + StripRight(b, drop)
  {
    if b == [] {
      assert a + b == a;
    } else if drop(b[|b| - 1]) {
      assert (a + b)[..|a + b| - 1] == a + b[..|b| - 1];
      StripAfter(a, b[..|b| - 1], drop);
    }
  }

  lemma StripBoth(a: string, b: string, drop: char -> bool)
    requires a != [] && !drop(a[0]) && !drop(a[|a| - 1])
    ensures StripChars(a + b, drop) == a + StripRight(b, drop)
  {
    assert (a + b)[0] == a[0];
    StripAfter(a, b, drop);
  }

  lemma UnquotedText(a: string, protocol: string)
    requires a != [] && a[0] == 'a' && a[|a| - 1] == ':'
    ensures Unquoted(a + protocol) == a + Clipped(protocol)
  {
    StripBoth(a, protocol, IsDouble);
    StripBoth(a, StripRight(protocol, IsDouble), IsSingle);
  }

  lemma ClippedStrip(protocol: string)
    requires Trimmed(protocol)
    ensures Strip(Clipped(protocol)) == StripRight(Clipped(protocol), IsSpace) && Trimmed(Strip(Clipped(protocol)))
    ensures |Strip(Clipped(protocol))| <= |protocol|
    ensures ',' !in protocol ==> ',' !in Clipped(protocol)
    ensures !EndsInQuote(protocol) ==> Strip(Clipped(protocol)) == protocol
    ensures EndsInQuote(protocol) ==> |Strip(Clipped(protocol))| < |protocol|
  {
    var p := Clipped(protocol);
    assert p != [] ==> p[0] == protocol[0];
    StripIsTrimmed(p);
  }

  lemma CutName(name: string, p: string)
    requires name != [] && Trimmed(name) && ':' !in name && Trimmed(p)
    ensures Cut(name + ":" + p) == MakeEntry(name, Lower(p))
  {
    FirstColon(name, p);
    CutAt(name + ":" + p, name, p);
    StripTrimmed(name);
    StripTrimmed(p);
  }

  function Rest(e: Entry): string {
    e.0 + ":" + Clipped(e.1)
  }

  lemma LastChunk(e: Entry)
    requires Storable(e)
    ensures ParseChunk(Rest(e)) == ReadLast(e) && ',' !in Rest(e)
  {
    ClippedStrip(e.1);
    StripBoth(e.0 + ":", Clipped(e.1), IsSpace);
    CutName(e.0, Strip(Clipped(e.1)));
  }

  /** What stands in front of the last chunk. */
  function InFront(chunks: seq<string>): string {
    if chunks == [] then [] else Join(chunks, ",") + ","
  }

  lemma JoinLast(chunks: seq<string>, c: string)
    ensures Join(chunks + [c], ",") == InFront(chunks) + c
  {
    if chunks != [] {
      JoinAppend(chunks, [c], ",");
    } else {
      assert [] + [c] == [c] && InFront(chunks) + c == c;
    }
  }

  lemma {:induction false} RenderedLast(es: seq<Entry>, e: Entry)
    ensures Rendered(es + [e]) == Rendered(es) + [Render(e)]
  {
    if es != [] {
      assert (es + [e])[1..] == es[1..] + [e];
      RenderedLast(es[1..], e);
    }
  }

  lemma {:induction false} ChunksLast(chunks: seq<string>, c: string)
    ensures ParseChunks(chunks + [c]) == ParseChunks(chunks) + OptionSeq(ParseChunk(c))
  {
    if chunks == [] {
      assert [] + [c] == [c] && ParseChunks([c][1..]) == [];
    } else {
      assert (chunks + [c])[1..] == chunks[1..] + [c];
      ChunksLast(chunks[1..], c);
      Regroup(OptionSeq(ParseChunk(chunks[0])), ParseChunks(chunks[1..]), OptionSeq(ParseChunk(c)));
    }
  }

  lemma ChunksRead(chunks: seq<string>, c: string)
    requires CommaFree(chunks) && ',' !in c
    ensures Parse(HEADER + (InFront(chunks) + c)) == ParseChunks(chunks) + OptionSeq(ParseChunk(c))
  {
    JoinLast(chunks, c);
    BodyOf(InFront(chunks) + c);
    SplitJoin(chunks + [c], ',');
    ChunksLast(chunks, c);
  }

  lemma EndOfText(front: string, e: Entry)
    ensures Unquoted(HEADER + (front + Render(e))) == HEADER + (front + Rest(e))
  {
    var a := HEADER + (front + (e.0 + ":"));
    assert HEADER + (front + Render(e)) == a + e.1;
    assert HEADER + (front + Rest(e)) == a + Clipped(e.1);
    UnquotedText(a, e.1);
  }

  lemma EndReads(chunks: seq<string>, last: Entry)
    requires CommaFree(chunks) && Storable(last)
    ensures ReadText(HEADER + (InFront(chunks) + Render(last))) == ParseChunks(chunks) + OptionSeq(ReadLast(last))
  {
    EndOfText(InFront(chunks), last);
    LastChunk(last);
    ChunksRead(chunks, Rest(last));
  }

  /** The text of a sorted list of storable entries: all but the last read back as they are. */
  lemma SortedReads(front: seq<Entry>, last: Entry)
    requires AllStorable(front + [last])
    ensures ReadText(HEADER + Join(Rendered(front + [last]), ",")) == front + OptionSeq(ReadLast(last))
  {
    StorableEnds(front, last);
    RenderedWithoutCommas(front);
    RenderedChunks(front);
    EndReads(Rendered(front), last);
    RenderedLast(front, last);
    JoinLast(Rendered(front), Render(last));
  }

  lemma StorableEnds(front: seq<Entry>, last: Entry)
    requires AllStorable(front + [last])
    ensures AllStorable(front) && Storable(last)
  {
    assert forall e :: e in front ==> e in front + [last];
    assert last in front + [last];
  }

  /** The last entry in order reads back, or is in the list a second time and reads as nothing else new. */
  predicate EndKept(sorted: seq<Entry>) {
    sorted != [] ==>
      var front, last := sorted[..|sorted| - 1], sorted[|sorted| - 1];
      || ReadLast(last) == Some(last)
      || (last in front && (ReadLast(last).Some? ==> ReadLast(last).value in front))
  }

  lemma LastKept(e: Entry)
    requires Storable(e)
    ensures ReadLast(e) == Some(e) <==> !EndsInQuote(e.1)
  {
    ClippedStrip(e.1);
    LowerFixed(e.1);
  }

  lemma SameSets(front: seq<Entry>, last: Entry, read: Option<Entry>)
    ensures EntrySet(front + OptionSeq(read)) == EntrySet(front + [last])
       <==> read == Some(last) || (last in front && (read.Some? ==> read.value in front))
  {
    assert forall e :: e in EntrySet(front + [last]) <==> e in front || e == last;
    assert forall e :: e in EntrySet(front + OptionSeq(read)) <==> e in front || read == Some(e);
    if EntrySet(front + OptionSeq(read)) == EntrySet(front + [last]) {
      assert last in EntrySet(front + [last]);
      assert read.Some? ==> read.value in EntrySet(front + OptionSeq(read));
    }
  }

  lemma SortedSet(es: seq<Entry>)
    ensures EntrySet(Sort(es, PairLe)) == EntrySet(es)
  {
    SortedElements(es);
  }

  lemma UnstorableIsLost(es: seq<Entry>)
    requires !AllStorable(es)
    ensures EntrySet(ReadText(Format(es))) != EntrySet(es)
  {
    ParsedStorable(Unquoted(Format(es)));
    var e :| e in es && !Storable(e);
    assert e in EntrySet(es);
  }

  lemma FormatReads(es: seq<Entry>, front: seq<Entry>, last: Entry)
    requires AllStorable(es) && Sort(es, PairLe) == front + [last]
    ensures ReadText(Format(es)) == front + OptionSeq(ReadLast(last))
  {
    SortedElements(es);
    SortedReads(front, last);
  }

  lemma EndKeptIs(front: seq<Entry>, last: Entry)
    ensures EndKept(front + [last])
       <==> ReadLast(last) == Some(last) || (last in front && (ReadLast(last).Some? ==> ReadLast(last).value in front))
  {
    assert (front + [last])[..|front|] == front && (front + [last])[|front|] == last;
  }

  lemma SortEnds(es: seq<Entry>) returns (front: seq<Entry>, last: Entry)
    requires es != []
    ensures Sort(es, PairLe) == front + [last] && last in es
  {
    var sorted := Sort(es, PairLe);
    SortedElements(es);
    front, last := sorted[..|sorted| - 1], sorted[|sorted| - 1];
  }

  lemma StorableReadsExactly(es: seq<Entry>)
    requires AllStorable(es) && es != []
    ensures EntrySet(ReadText(Format(es))) == EntrySet(es) <==> EndKept(Sort(es, PairLe))
  {
    var front, last := SortEnds(es);
    SortedSet(es);
    FormatReads(es, front, last);
    SameSets(front, last, ReadLast(last));
    EndKeptIs(front, last);
  }

  /** What a list says survives being written and read exactly when all its entries are storable and its
      end is kept. */
  lemma ListReadsBackExactly(es: seq<Entry>)
    ensures EntrySet(ReadText(Format(es))) == EntrySet(es) <==> AllStorable(es) && EndKept(Sort(es, PairLe))
  {
    if !AllStorable(es) {
      UnstorableIsLost(es);
    } else if es == [] {
      EmptyFormat();
      StoredReadsBack(es);
    } else {
      StorableReadsExactly(es);
    }
  }

  lemma StoredReadsBack(es: seq<Entry>)
    requires AllStorable(es) && !EndsInQuote(Format(es))
    ensures ReadText(Format(es)) == Sort(es, PairLe) && EntrySet(ReadText(Format(es))) == EntrySet(es)
  {
    assert Format(es)[0] == 'a';
    UnquotedFixed(Format(es));
    ParseFormat(es);
    SortedElements(es);
  }

  lemma EmptyFormat()
    ensures Format([]) == HEADER
  {}

  lemma LastIsAlone(es: seq<Entry>, front: seq<Entry>, last: Entry)
    requires NoDuplicates(es) && Sort(es, PairLe) == front + [last] && last in es
    ensures last !in front
  {
    PairsOrdered();
    SortSorts(es, PairLe);
    CountOnce(es, last);
    assert multiset(front + [last])[last] == multiset(front)[last] + 1;
  }

  lemma EndOfFormat(es: seq<Entry>, front: seq<Entry>, last: Entry)
    requires Sort(es, PairLe) == front + [last] && last.1 != []
    ensures EndsInQuote(Format(es)) == EndsInQuote(last.1)
  {
    RenderedEnd(front + [last]);
  }

  lemma StorableSetReads(es: seq<Entry>)
    requires NoDuplicates(es) && AllStorable(es) && es != []
    ensures EndKept(Sort(es, PairLe)) <==> !EndsInQuote(Format(es))
  {
    var front, last := SortEnds(es);
    LastIsAlone(es, front, last);
    EndOfFormat(es, front, last);
    LastKept(last);
    EndKeptIs(front, last);
  }

  /** A set of entries survives exactly when every one of them is storable and the text does not end in a
      quotation mark. */
  lemma SetReadsBackExactly(es: seq<Entry>)
    requires NoDuplicates(es)
    ensures EntrySet(ReadText(Format(es))) == EntrySet(es) <==> AllStorable(es) && !EndsInQuote(Format(es))
  {
    if !AllStorable(es) {
      UnstorableIsLost(es);
    } else if es == [] {
      EmptyFormat();
      StoredReadsBack(es);
    } else {
      StorableReadsExactly(es);
      StorableSetReads(es);
    }
  }

  /** The text is a function of the set, and on storable entries tells sets apart. */
  lemma TextIsTheSet(a: seq<Entry>, b: seq<Entry>)
    requires NoDuplicates(a) && NoDuplicates(b)
    ensures EntrySet(a) == EntrySet(b) ==> Format(a) == Format(b)
    ensures AllStorable(a) && AllStorable(b) && Format(a) == Format(b) ==> EntrySet(a) == EntrySet(b)
  {
    if EntrySet(a) == EntrySet(b) {
      assert forall e :: e in a <==> e in EntrySet(a);
      assert forall e :: e in b <==> e in EntrySet(b);
      SameElements(a, b);
      PairsOrdered();
      SortCanonical(a, b, PairLe);
    }
    if AllStorable(a) && AllStorable(b) && Format(a) == Format(b) {
      ParseFormat(a);
      ParseFormat(b);
      SortedElements(a);
      SortedElements(b);
    }
  }

  /** Storable, and not ending in a quotation mark. */
  predicate Clean(e: Entry) {
    Storable(e) && !EndsInQuote(e.1)
  }

  lemma {:induction false} RenderedEnd(es: seq<Entry>)
    requires es != [] && es[|es| - 1].1 != []
    ensures var r, last := Join(Rendered(es), ","), es[|es| - 1].1;
      r != [] && r[|r| - 1] == last[|last| - 1]
  {
    assert Rendered(es)[1..] == Rendered(es[1..]);
    if |es| > 1 {
      RenderedEnd(es[1..]);
      assert es[1..][|es| - 2] == es[|es| - 1];
    }
  }

  lemma CleanEnd(es: seq<Entry>)
    requires forall e :: e in es ==> !EndsInQuote(e.1) && e.1 != []
    ensures !EndsInQuote(Format(es))
  {
    var sorted := Sort(es, PairLe);
    SortedElements(es);
    if es == [] {
      EmptyFormat();
    } else {
      var last := sorted[|sorted| - 1];
      assert last in es;
      RenderedEnd(sorted);
    }
  }
}
