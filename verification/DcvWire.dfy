/** The TXT record of a domain control challenge: what is written and how it is read. */
module DcvWire {
  import opened Wrappers
  import opened Text

  /** Reading a timestamp: not one, one without a time zone, or an instant in seconds. */
  datatype Instant = Malformed | Naive | At(seconds: real)

  /** ISO timestamps, written to the second. */
  datatype Iso = Iso(format: int -> string, parse: string -> Instant)

  ghost predicate IsoLaws(iso: Iso) {
    forall t :: iso.parse(iso.format(t)) == At(t as real) && Solid(iso.format(t))
  }

  /** Not empty and free of white space. */
  predicate Solid(s: string) {
    s != [] && forall i :: 0 <= i < |s| ==> !IsSpace(s[i])
  }

  // ---- the wire format ----

  function Optional(key: string, value: string): seq<string> {
    if value != [] then [key + value] else []
  }

  function Parts(token: string, domain: string, bndReq: string): seq<string> {
    ["token=" + token] + Optional("domain=", domain) + Optional("bnd-req=", bndReq)
  }

  function Built(token: string, domain: string, bndReq: string, expiry: string): seq<string> {
    Parts(token, domain, bndReq) + ["expiry=" + expiry]
  }

  function BuildTxt(token: string, domain: string, bndReq: string, expiry: string): string {
    Join(Built(token, domain, bndReq, expiry), " ")
  }

  /** The text of a challenge: token, domain, binding if there is one, and expiry, in this order. */
  lemma WrittenAs(token: string, domain: string, bndReq: string, expiry: string)
    requires domain != []
    ensures BuildTxt(token, domain, bndReq, expiry)
         == "token=" + token + (" domain=" + domain) + (if bndReq != [] then " bnd-req=" + bndReq else []) + (" expiry=" + expiry)
  {
    var t, d, b, e := "token=" + token, "domain=" + domain, "bnd-req=" + bndReq, "expiry=" + expiry;
    assert " domain=" + domain == " " + d && " bnd-req=" + bndReq == " " + b && " expiry=" + expiry == " " + e;
    if bndReq != [] {
      assert Built(token, domain, bndReq, expiry) == [t, d, b, e];
      JoinFour(t, d, b, e);
    } else {
      assert Built(token, domain, bndReq, expiry) == [t, d, e];
      JoinThree(t, d, e);
    }
  }

  lemma JoinTwo(a: string, b: string)
    ensures Join([a, b], " ") == a + (" " + b)
  {
    assert [a, b][1..] == [b];
  }

  lemma JoinThree(a: string, b: string, c: string)
    ensures Join([a, b, c], " ") == a + (" " + b) + (" " + c)
  {
    JoinTwo(b, c);
    assert [a, b, c][1..] == [b, c];
    assert a + " " + (b + (" " + c)) == a + (" " + b) + (" " + c);
  }

  lemma JoinFour(a: string, b: string, c: string, d: string)
    ensures Join([a, b, c, d], " ") == a + (" " + b) + (" " + c) + (" " + d)
  {
    JoinThree(b, c, d);
    assert [a, b, c, d][1..] == [b, c, d];
    assert a + " " + (b + (" " + c) + (" " + d)) == a + (" " + b) + (" " + c) + (" " + d);
  }

  /** The leading run without white space. */
  function Word(s: string): (w: string)
    ensures |w| <= |s| && w == s[..|w|]
    ensures forall i :: 0 <= i < |w| ==> !IsSpace(w[i])
  {
    if s == [] || IsSpace(s[0]) then [] else [s[0]] + Word(s[1..])
  }

  function Words(s: string): (ws: seq<string>)
    ensures forall w :: w in ws ==> Solid(w)
    decreases |s|
  {
    if s == [] then []
    else if IsSpace(s[0]) then Words(s[1..])
    else [Word(s)] + Words(s[|Word(s)|..])
  }

  /** Fold one word into the fields: `key=value`, keys in lower case, the first of a key wins. */
  function AddField(fields: map<string, string>, word: string): map<string, string> {
    var at := Find(word, "=");
    if at == |word| then fields
    else
      var key := Lower(word[..at]);
      if key in fields then fields else fields[key := word[at + 1..]]
  }

  function FieldsOf(words: seq<string>): map<string, string> {
    if words == [] then map[] else AddField(FieldsOf(words[..|words| - 1]), words[|words| - 1])
  }

  /** One layer of outer double quotes is taken off. */
  function Unquote(s: string): string {
    if |s| >= 2 && s[0] == '"' && s[|s| - 1] == '"' then s[1..|s| - 1] else s
  }

  method ParseTxt(txt: string) returns (result: map<string, string>)
    ensures result == Parse(txt)
  {
    var words := Words(Strip(Unquote(Strip(txt))));
    result := CollectFields(words);
  }

  /** Fill the dictionary word by word; a key already there keeps its value. */
  method CollectFields(words: seq<string>) returns (result: map<string, string>)
    ensures result == FieldsOf(words)
  {
    result := map[];
    var i := 0;
    while i < |words|
      invariant 0 <= i <= |words| && result == FieldsOf(words[..i])
    {
      NextField(words, i);
      var at := Find(words[i], "=");
      if at < |words[i]| {
        var key := Lower(words[i][..at]);
        if key !in result {
          result := result[key := words[i][at + 1..]];
        }
      }
      i := i + 1;
    }
    assert words[..|words|] == words;
  }

  lemma NextField(words: seq<string>, i: nat)
    requires i < |words|
    ensures FieldsOf(words[..i + 1]) == AddField(FieldsOf(words[..i]), words[i])
  {
    assert words[..i + 1][..i] == words[..i];
  }

  function Parse(txt: string): map<string, string> {
    FieldsOf(Words(Strip(Unquote(Strip(txt)))))
  }

  function Field(fields: map<string, string>, key: string): string {
    if key in fields then fields[key] else []
  }

  // ---- what is written reads back ----

  lemma WordThen(w: string, rest: string)
    requires Solid(w) && (rest == [] || IsSpace(rest[0]))
    ensures Word(w + rest) == w
  {
    if |w| == 1 {
      assert (w + rest)[1..] == rest;
      assert w == [w[0]];
    } else {
      assert (w + rest)[1..] == w[1..] + rest;
      WordThen(w[1..], rest);
      assert w == [w[0]] + w[1..];
    }
  }

  lemma {:induction false} WordsOfJoined(ws: seq<string>)
    requires AllSolid(ws)
    ensures Words(Join(ws, " ")) == ws
  {
    if |ws| == 1 {
      assert ws[0] + [] == ws[0];
      WordThen(ws[0], []);
      assert ws[0][|ws[0]|..] == [];
    } else if |ws| > 1 {
      var rest := " " + Join(ws[1..], " ");
      assert Join(ws, " ") == ws[0] + rest;
      WordThen(ws[0], rest);
      assert (ws[0] + rest)[|ws[0]|..] == rest && rest[1..] == Join(ws[1..], " ");
      WordsOfJoined(ws[1..]);
      assert ws == [ws[0]] + ws[1..];
    }
  }

  lemma AddKnown(fields: map<string, string>, key: string, value: string)
    requires IsLower(key) && '=' !in key && key !in fields
    ensures AddField(fields, key + "=" + value) == fields[key := value]
  {
    var w := key + "=" + value;
    assert w[|key|] == '=';
    assert Text.At(w, "=", |key|);
    forall j: nat | j < |key| ensures !Text.At(w, "=", j) {
      assert w[j] == key[j];
      assert w[j..j + 1][0] == w[j];
    }
    assert Find(w, "=") == |key|;
    assert w[..|key|] == key && w[|key| + 1..] == value;
    LowerFixed(key);
  }

  function With(fields: map<string, string>, key: string, value: string): map<string, string> {
    if value != [] then fields[key := value] else fields
  }

  /** What a challenge record should say. */
  function Said(token: string, domain: string, bndReq: string, expiry: string): map<string, string> {
    Opening(token, domain, bndReq)["expiry" := expiry]
  }

  function Opening(token: string, domain: string, bndReq: string): map<string, string> {
    With(With(map["token" := token], "domain", domain), "bnd-req", bndReq)
  }

  lemma FieldsAppend(ws: seq<string>, key: string, value: string)
    requires IsLower(key) && '=' !in key && key !in FieldsOf(ws)
    ensures FieldsOf(ws + [key + "=" + value]) == FieldsOf(ws)[key := value]
  {
    var w := key + "=" + value;
    assert (ws + [w])[..|ws|] == ws;
    AddKnown(FieldsOf(ws), key, value);
  }

  lemma FieldsOptional(ws: seq<string>, key: string, value: string)
    requires IsLower(key) && '=' !in key && key !in FieldsOf(ws)
    ensures FieldsOf(ws + Optional(key + "=", value)) == With(FieldsOf(ws), key, value)
  {
    if value == [] {
      assert ws + [] == ws;
    } else {
      FieldsAppend(ws, key, value);
    }
  }

  lemma FirstField(token: string)
    ensures FieldsOf(["token=" + token]) == map["token" := token]
  {
    assert [] + ["token=" + token] == ["token=" + token] && "token" + "=" + token == "token=" + token;
    FieldsAppend([], "token", token);
  }

  lemma MiddleFields(token: string, domain: string, bndReq: string)
    ensures FieldsOf(Parts(token, domain, bndReq)) == Opening(token, domain, bndReq)
  {
    var w1: seq<string> := ["token=" + token];
    FirstField(token);
    assert "domain" + "=" == "domain=" && "bnd-req" + "=" == "bnd-req=";
    FieldsOptional(w1, "domain", domain);
    FieldsOptional(w1 + Optional("domain=", domain), "bnd-req", bndReq);
  }

  lemma LastField(ws: seq<string>, fields: map<string, string>, expiry: string)
    requires FieldsOf(ws) == fields && "expiry" !in fields
    ensures FieldsOf(ws + ["expiry=" + expiry]) == fields["expiry" := expiry]
  {
    assert "expiry" + "=" == "expiry=";
    FieldsAppend(ws, "expiry", expiry);
  }

  lemma NoExpiryYet(token: string, domain: string, bndReq: string)
    ensures "expiry" !in Opening(token, domain, bndReq)
  {}

  lemma BuiltFields(token: string, domain: string, bndReq: string, expiry: string)
    ensures FieldsOf(Built(token, domain, bndReq, expiry)) == Said(token, domain, bndReq, expiry)
  {
    MiddleFields(token, domain, bndReq);
    NoExpiryYet(token, domain, bndReq);
    LastField(Parts(token, domain, bndReq), Opening(token, domain, bndReq), expiry);
  }

  lemma BuiltTrims(token: string, domain: string, bndReq: string, expiry: string)
    requires Solid(expiry)
    ensures var txt := BuildTxt(token, domain, bndReq, expiry); Strip(Unquote(Strip(txt))) == txt
  {
    var ws, last := Parts(token, domain, bndReq), ["expiry=" + expiry];
    JoinAppend(ws, last, " ");
    var txt := Join(ws, " ") + " " + Join(last, " ");
    assert Join(last, " ") == "expiry=" + expiry;
    LastOf(Join(ws, " ") + " " + "expiry=", expiry);
    assert txt == Join(ws, " ") + " " + "expiry=" + expiry;
    JoinHead(ws, " ");
    StripTrimmed(txt);
  }

  lemma LastOf(a: string, b: string)
    requires b != []
    ensures (a + b)[|a + b| - 1] == b[|b| - 1]
  {}

  lemma JoinHead(ws: seq<string>, sep: string)
    requires ws != [] && ws[0] != []
    ensures Join(ws, sep) != [] && Join(ws, sep)[0] == ws[0][0]
  {}

  predicate AllSolid(ws: seq<string>) {
    forall i :: 0 <= i < |ws| ==> Solid(ws[i])
  }

  lemma SolidParts(token: string, domain: string, bndReq: string)
    requires Solid(token) && (domain == [] || Solid(domain)) && (bndReq == [] || Solid(bndReq))
    ensures AllSolid(Parts(token, domain, bndReq))
  {
    SolidAppend("token=", token);
    if domain != [] {
      SolidAppend("domain=", domain);
    }
    if bndReq != [] {
      SolidAppend("bnd-req=", bndReq);
    }
  }

  lemma SolidBuilt(token: string, domain: string, bndReq: string, expiry: string)
    requires Solid(token) && Solid(expiry) && (domain == [] || Solid(domain)) && (bndReq == [] || Solid(bndReq))
    ensures AllSolid(Built(token, domain, bndReq, expiry))
  {
    SolidParts(token, domain, bndReq);
    SolidAppend("expiry=", expiry);
  }

  lemma SolidAppend(a: string, b: string)
    requires Solid(a) && Solid(b)
    ensures Solid(a + b)
  {}

  lemma ReadsBack(token: string, domain: string, bndReq: string, expiry: string)
    requires Solid(token) && Solid(expiry) && (domain == [] || Solid(domain)) && (bndReq == [] || Solid(bndReq))
    ensures Parse(BuildTxt(token, domain, bndReq, expiry)) == Said(token, domain, bndReq, expiry)
  {
    BuiltTrims(token, domain, bndReq, expiry);
    SolidBuilt(token, domain, bndReq, expiry);
    BuiltFields(token, domain, bndReq, expiry);
    ParseJoined(Built(token, domain, bndReq, expiry), Said(token, domain, bndReq, expiry));
  }

  lemma ParseJoined(ws: seq<string>, said: map<string, string>)
    requires AllSolid(ws) && FieldsOf(ws) == said
    requires Strip(Unquote(Strip(Join(ws, " ")))) == Join(ws, " ")
    ensures Parse(Join(ws, " ")) == said
  {
    WordsOfJoined(ws);
    ParseWords(Join(ws, " "), ws);
  }

  lemma ParseWords(txt: string, ws: seq<string>)
    requires Strip(Unquote(Strip(txt))) == txt && Words(txt) == ws
    ensures Parse(txt) == FieldsOf(ws)
  {}

  lemma ParsedValuesAreSolid(txt: string, key: string)
    ensures key in Parse(txt) ==> Parse(txt)[key] == [] || Solid(Parse(txt)[key])
  {
    ValuesAreWords(Words(Strip(Unquote(Strip(txt)))), key);
  }

  lemma SaidBinding(token: string, domain: string, bndReq: string, expiry: string)
    requires bndReq != []
    ensures "bnd-req" in Said(token, domain, bndReq, expiry) && Said(token, domain, bndReq, expiry)["bnd-req"] == bndReq
  {}

  lemma DoesNotReadBack(token: string, domain: string, bndReq: string, expiry: string)
    requires bndReq != [] && !Solid(bndReq)
    ensures Parse(BuildTxt(token, domain, bndReq, expiry)) != Said(token, domain, bndReq, expiry)
  {
    ParsedValuesAreSolid(BuildTxt(token, domain, bndReq, expiry), "bnd-req");
    SaidBinding(token, domain, bndReq, expiry);
  }

  /** A record reads back as written exactly when its binding holds no white space. */
  lemma WireRoundTrip(token: string, domain: string, bndReq: string, expiry: string)
    requires Solid(token) && Solid(expiry) && (domain == [] || Solid(domain))
    ensures Parse(BuildTxt(token, domain, bndReq, expiry)) == Said(token, domain, bndReq, expiry)
       <==> (bndReq == [] || Solid(bndReq))
  {
    if bndReq == [] || Solid(bndReq) {
      ReadsBack(token, domain, bndReq, expiry);
    } else {
      DoesNotReadBack(token, domain, bndReq, expiry);
    }
  }

  lemma {:induction false} ValuesAreWords(words: seq<string>, key: string)
    requires forall w :: w in words ==> Solid(w)
    ensures key in FieldsOf(words) ==> FieldsOf(words)[key] == [] || Solid(FieldsOf(words)[key])
  {
    if words != [] {
      ValuesAreWords(words[..|words| - 1], key);
      assert words[|words| - 1] in words;
    }
  }

  // ---- which fields a text has ----

  /** A word that gives a key a value: the key, in any case, stands before the first equals sign. */
  ghost predicate Gives(word: string, key: string, value: string) {
    exists k :: '=' !in k && word == k + "=" + value && Lower(k) == key
  }

  lemma EqualsAt(word: string, j: nat)
    requires j < |word| && word[j] == '='
    ensures Text.At(word, "=", j)
  {
    assert word[j..j + 1] == "=";
  }

  lemma NoEqualsBefore(word: string)
    ensures '=' !in word[..Find(word, "=")]
  {
    var at := Find(word, "=");
    forall j: nat | j < at ensures word[j] != '=' {
      if word[j] == '=' {
        EqualsAt(word, j);
      }
    }
  }

  lemma CutWord(word: string)
    ensures var at := Find(word, "=");
      at < |word| ==> word == word[..at] + "=" + word[at + 1..] && '=' !in word[..at]
  {
    var at := Find(word, "=");
    NoEqualsBefore(word);
    if at < |word| {
      CutAround(word, at);
    }
  }

  lemma CutAround(word: string, at: nat)
    requires Text.At(word, "=", at)
    ensures word == word[..at] + "=" + word[at + 1..]
  {
    assert word[at] == word[at..at + 1][0];
  }

  lemma NoEquals(word: string)
    ensures Find(word, "=") == |word| ==> '=' !in word
  {
    NoEqualsBefore(word);
    assert word[..|word|] == word;
  }

  lemma FirstEquals(k: string, value: string)
    requires '=' !in k
    ensures var word := k + "=" + value;
      Find(word, "=") == |k| && word[..|k|] == k && word[|k| + 1..] == value
  {
    var word := k + "=" + value;
    assert word[|k|..|k| + 1] == "=";
    assert Text.At(word, "=", |k|);
    forall j: nat | j < |k| ensures !Text.At(word, "=", j) {
      assert word[j] == k[j];
      assert word[j..j + 1][0] == word[j];
    }
  }

  lemma AddFieldGives(fields: map<string, string>, word: string, key: string, value: string)
    ensures key in AddField(fields, word) && AddField(fields, word)[key] == value
       <==> if key in fields then fields[key] == value else Gives(word, key, value)
  {
    CutWord(word);
    NoEquals(word);
    var at := Find(word, "=");
    if Gives(word, key, value) {
      var k :| '=' !in k && word == k + "=" + value && Lower(k) == key;
      FirstEquals(k, value);
    }
    if at < |word| && Lower(word[..at]) == key && word[at + 1..] == value {
      assert Gives(word, key, value);
    }
  }

  lemma AddFieldKeys(fields: map<string, string>, word: string, key: string)
    ensures key in AddField(fields, word) <==> key in fields || exists v :: Gives(word, key, v)
  {
    if key !in fields && key in AddField(fields, word) {
      AddFieldGives(fields, word, key, AddField(fields, word)[key]);
    }
    if v :| Gives(word, key, v) {
      AddFieldGives(fields, word, key, v);
    }
  }

  /** A key has the value that the first word with that key gives it, and is missing if none does. */
  lemma {:induction false} FirstWins(words: seq<string>, key: string, value: string)
    ensures key in FieldsOf(words) && FieldsOf(words)[key] == value
       <==> exists i :: 0 <= i < |words| && Gives(words[i], key, value) && forall j, v :: 0 <= j < i ==> !Gives(words[j], key, v)
    ensures key in FieldsOf(words) <==> exists i, v :: 0 <= i < |words| && Gives(words[i], key, v)
  {
    if words != [] {
      var front, last := words[..|words| - 1], words[|words| - 1];
      var n := |front|;
      FirstWins(front, key, value);
      AddFieldGives(FieldsOf(front), last, key, value);
      AddFieldKeys(FieldsOf(front), last, key);
      assert words[n] == last && forall i :: 0 <= i < n ==> words[i] == front[i];
    }
  }

  /** One layer of quotation marks around a record's text makes no difference. */
  lemma QuotedReadsSame(t: string)
    requires t != [] && Trimmed(t) && t[0] != '"'
    ensures Parse("\"" + t + "\"") == Parse(t)
  {
    QuotedText(t);
    PlainText(t);
  }

  lemma QuotedIsTrimmed(t: string)
    ensures Strip("\"" + t + "\"") == "\"" + t + "\""
  {
    var q := "\"" + t + "\"";
    assert q[0] == '"' && q[|q| - 1] == '"' && !IsSpace('"');
    StripTrimmed(q);
  }

  lemma UnquoteQuoted(t: string)
    ensures Unquote("\"" + t + "\"") == t
  {
    var q := "\"" + t + "\"";
    assert q[1..|q| - 1] == t;
  }

  lemma QuotedText(t: string)
    ensures Unquote(Strip("\"" + t + "\"")) == t
  {
    QuotedIsTrimmed(t);
    UnquoteQuoted(t);
  }

  lemma PlainText(t: string)
    requires Trimmed(t) && (t == [] || t[0] != '"')
    ensures Unquote(Strip(t)) == t
  {
    StripTrimmed(t);
  }
}
