/** Recognising the three owner-name shapes that DNS-AID has published. */
module Fqdn {
  import opened Wrappers
  import opened Text

  datatype Identity = Identity(name: string, protocol: Option<string>, domain: string)

  const AGENTS: string := "._agents."

  /** Trimmed, without the root dot, lower case. */
  function Normalize(fqdn: string): string {
    Lower(RStripDot(Strip(fqdn)))
  }

  function ParseLegacy(f: string): Option<Identity> {
    var parts := Split(f, '.');
    if |parts| < 4 then None
    else if !StartsWith(parts[0], "_") || !StartsWith(parts[1], "_") || parts[2] != "_agents" then None
    else
      var domain := Join(parts[3..], ".");
      if domain == [] then None else Some(Identity(parts[0][1..], Some(parts[1][1..]), domain))
  }

  function ParseWalkable(f: string): Option<Identity> {
    var at := Find(f, AGENTS);
    if at == |f| then None
    else
      var prefix, suffix := f[..at], f[at + |AGENTS|..];
      if prefix != [] && suffix != [] && '.' !in prefix && prefix[0] != '_'
      then Some(Identity(prefix, None, suffix)) else None
  }

  function ParseFlat(f: string): Option<Identity> {
    var at := Find(f, ".");
    if at == |f| then None
    else
      var first, rest := f[..at], f[at + 1..];
      if first != [] && rest != [] && first[0] != '_' && rest[0] != '_'
      then Some(Identity(first, None, rest)) else None
  }

  function ParseDnsaidFqdn(fqdn: string): Option<Identity> {
    if fqdn == [] then None
    else
      var f := Normalize(fqdn);
      if f == [] then None
      else if StartsWith(f, "_") && Contains(f, AGENTS) then ParseLegacy(f)
      else if Contains(f, AGENTS) then ParseWalkable(f)
      else ParseFlat(f)
  }

  // ---- the shapes themselves ----

  datatype Shape = Legacy | Walkable | Flat

  function Dotted(first: string, rest: string): string {
    first + "." + rest
  }

  function Render(shape: Shape, id: Identity): string
    requires shape.Legacy? ==> id.protocol.Some?
  {
    match shape
    case Legacy => Dotted("_" + id.name, Dotted("_" + id.protocol.value, Dotted("_agents", id.domain)))
    case Walkable => id.name + AGENTS + id.domain
    case Flat => id.name + "." + id.domain
  }

  /** The identities that a shape can carry. */
  predicate Fits(shape: Shape, id: Identity) {
    && '.' !in id.name && id.domain != []
    && match shape
       case Legacy => id.protocol.Some? && '.' !in id.protocol.value
       case Walkable => id.protocol.None? && id.name != [] && id.name[0] != '_'
       case Flat => id.protocol.None? && id.name != [] && id.name[0] != '_' && id.domain[0] != '_'
                    && !Contains(id.name + "." + id.domain, AGENTS)
  }

  /** `f` is `id` rendered in a shape that can carry it. */
  ghost predicate Renders(f: string, shape: Shape, id: Identity) {
    Fits(shape, id) && f == Render(shape, id)
  }

  /** The first dot of a name whose first label has none. */
  lemma FirstOccurrence(a: string, p: string, b: string)
    requires p != [] && p[0] == '.' && '.' !in a
    ensures Find(a + p + b, p) == |a|
  {
    var s := a + p + b;
    assert s[|a|..|a| + |p|] == p;
    assert At(s, p, |a|);
    forall j: nat | j < |a| ensures !At(s, p, j) {
      assert s[j] == a[j];
      assert j + |p| <= |s| ==> s[j..j + |p|][0] == s[j];
    }
  }

  lemma SplitDotted(a: string, b: string)
    requires '.' !in a
    ensures Split(Dotted(a, b), '.') == [a] + Split(b, '.')
  {
    SplitNone(a, '.');
    SplitAppend(a, '.', b);
  }

  lemma LegacyParts(a: string, b: string, c: string, d: string)
    requires '.' !in a && '.' !in b && '.' !in c
    ensures Split(Dotted(a, Dotted(b, Dotted(c, d))), '.') == [a, b, c] + Split(d, '.')
  {
    SplitDotted(c, d);
    SplitDotted(b, Dotted(c, d));
    SplitDotted(a, Dotted(b, Dotted(c, d)));
  }

  lemma JoinDotted(parts: seq<string>)
    requires |parts| >= 2
    ensures Join(parts, ".") == Dotted(parts[0], Join(parts[1..], "."))
  {}

  lemma LegacyJoined(parts: seq<string>)
    requires |parts| >= 4
    ensures Join(parts, ".") == Dotted(parts[0], Dotted(parts[1], Dotted(parts[2], Join(parts[3..], "."))))
  {
    JoinDotted(parts);
    JoinDotted(parts[1..]);
    JoinDotted(parts[2..]);
    assert parts[1..][1..] == parts[2..] && parts[2..][1..] == parts[3..];
  }

  lemma LegacyContains(id: Identity)
    requires id.protocol.Some?
    ensures Contains(Render(Legacy, id), AGENTS) && StartsWith(Render(Legacy, id), "_")
  {
    var pre := "_" + id.name + "." + "_" + id.protocol.value;
    var s := pre + AGENTS + id.domain;
    assert Render(Legacy, id) == s;
    assert s[|pre|..|pre| + |AGENTS|] == AGENTS;
    ContainsAt(s, AGENTS, |pre|);
  }

  lemma LegacyRendersParsed(f: string, id: Identity)
    requires ParseLegacy(f) == Some(id)
    ensures Renders(f, Legacy, id)
  {
    var parts := Split(f, '.');
    JoinSplit(f, '.');
    LegacyJoined(parts);
    assert parts[0] == "_" + id.name && parts[1] == "_" + id.protocol.value;
  }

  lemma LegacyParsesRendered(f: string, id: Identity)
    requires Renders(f, Legacy, id)
    ensures ParseLegacy(f) == Some(id)
  {
    var n, p := "_" + id.name, "_" + id.protocol.value;
    var parts := Split(f, '.');
    LegacyParts(n, p, "_agents", id.domain);
    JoinSplit(id.domain, '.');
    assert parts == [n, p, "_agents"] + Split(id.domain, '.');
    assert parts[3..] == Split(id.domain, '.');
    assert n[1..] == id.name && p[1..] == id.protocol.value;
  }

  lemma LegacyParsed(f: string, id: Identity)
    ensures ParseLegacy(f) == Some(id) <==> Renders(f, Legacy, id)
  {
    if ParseLegacy(f) == Some(id) {
      LegacyRendersParsed(f, id);
    } else if Renders(f, Legacy, id) {
      LegacyParsesRendered(f, id);
    }
  }

  lemma WalkableParsed(f: string, id: Identity)
    ensures ParseWalkable(f) == Some(id) <==> Renders(f, Walkable, id)
    ensures Renders(f, Walkable, id) ==> Contains(f, AGENTS) && !StartsWith(f, "_")
  {
    var at := Find(f, AGENTS);
    if at < |f| {
      assert f == f[..at] + AGENTS + f[at + |AGENTS|..];
    }
    if Renders(f, Walkable, id) {
      FirstOccurrence(id.name, AGENTS, id.domain);
      assert f[0] == id.name[0];
    }
  }

  lemma FlatParsed(f: string, id: Identity)
    requires !Contains(f, AGENTS)
    ensures ParseFlat(f) == Some(id) <==> Renders(f, Flat, id)
  {
    var at := Find(f, ".");
    if at < |f| {
      var first, rest := f[..at], f[at + 1..];
      assert f[at..at + 1] == ".";
      assert f == first + "." + rest;
      if '.' in first {
        var j :| 0 <= j < |first| && first[j] == '.';
        assert f[j..j + 1] == ".";
        assert At(f, ".", j);
        assert false;
      }
    }
    if Renders(f, Flat, id) {
      FirstOccurrence(id.name, ".", id.domain);
    }
  }

  /** A name parses to an identity exactly when its normal form is that identity rendered in a shape
      that can carry it. */
  lemma ParsedExactly(fqdn: string, id: Identity)
    ensures ParseDnsaidFqdn(fqdn) == Some(id) <==> exists shape :: Renders(Normalize(fqdn), shape, id)
  {
    var f := Normalize(fqdn);
    LegacyParsed(f, id);
    WalkableParsed(f, id);
    if !Contains(f, AGENTS) {
      FlatParsed(f, id);
    }
    if Renders(f, Legacy, id) {
      LegacyContains(id);
    }
    if shape :| Renders(f, shape, id) {
      RenderNonEmpty(shape, id);
      assert fqdn != [];
    }
  }

  lemma RenderNonEmpty(shape: Shape, id: Identity)
    requires Fits(shape, id)
    ensures Render(shape, id) != []
  {}

  /** No name has two shapes. */
  lemma ShapesAreExclusive(f: string, s1: Shape, id1: Identity, s2: Shape, id2: Identity)
    requires Renders(f, s1, id1) && Renders(f, s2, id2)
    ensures s1 == s2 && id1 == id2
  {
    LegacyParsed(f, id1);
    LegacyParsed(f, id2);
    WalkableParsed(f, id1);
    WalkableParsed(f, id2);
    if s1.Legacy? {
      LegacyContains(id1);
    }
    if s2.Legacy? {
      LegacyContains(id2);
    }
    if !Contains(f, AGENTS) {
      FlatParsed(f, id1);
      FlatParsed(f, id2);
    }
  }

  /** What a publisher renders is recovered, spelling aside, unless a flat name hides a walkable one. */
  lemma RenderedIsRecovered(shape: Shape, id: Identity)
    requires Fits(shape, id)
    requires Normalize(Render(shape, id)) == Render(shape, id)
    ensures ParseDnsaidFqdn(Render(shape, id)) == Some(id)
  {
    ParsedExactly(Render(shape, id), id);
    assert Renders(Render(shape, id), shape, id);
  }

  // ---- spellings of a name ----

  predicate Dots(s: string) {
    forall i :: 0 <= i < |s| ==> s[i] == '.'
  }

  predicate Spaces(s: string) {
    forall i :: 0 <= i < |s| ==> IsSpace(s[i])
  }

  lemma {:induction false} StripSpaces(f: string, after: string)
    requires Spaces(after) && f != [] && !IsSpace(f[|f| - 1])
    ensures StripRight(f + after, IsSpace) == f
  {
    if after == [] {
      assert f + after == f;
    } else {
      assert (f + after)[..|f + after| - 1] == f + after[..|after| - 1];
      StripSpaces(f, after[..|after| - 1]);
    }
  }

  lemma {:induction false} StripBefore(before: string, f: string)
    requires Spaces(before) && f != [] && !IsSpace(f[0])
    ensures StripLeft(before + f, IsSpace) == f
  {
    if before == [] {
      assert before + f == f;
    } else {
      assert (before + f)[1..] == before[1..] + f;
      StripBefore(before[1..], f);
    }
  }

  lemma {:induction false} StripDots(f: string, dots: string)
    requires Dots(dots) && (f == [] || f[|f| - 1] != '.')
    ensures RStripDot(f + dots) == f
  {
    if dots == [] {
      assert f + dots == f;
    } else {
      assert (f + dots)[..|f + dots| - 1] == f + dots[..|dots| - 1];
      StripDots(f, dots[..|dots| - 1]);
    }
  }

  lemma SpelledStrips(before: string, g: string, after: string)
    requires Spaces(before) && Spaces(after) && g != [] && Trimmed(g)
    ensures Strip(before + g + after) == g
  {
    assert before + g + after == before + (g + after);
    assert (g + after)[0] == g[0];
    StripBefore(before, g + after);
    StripSpaces(g, after);
  }

  lemma NormalSpelled(f: string, before: string, dots: string, after: string)
    requires f != [] && Trimmed(f) && f[|f| - 1] != '.' && Dots(dots) && Spaces(before) && Spaces(after)
    ensures Normalize(before + (f + dots) + after) == Lower(f)
  {
    var g := f + dots;
    assert g[0] == f[0] && g[|g| - 1] == if dots == [] then f[|f| - 1] else '.';
    SpelledStrips(before, g, after);
    StripDots(f, dots);
  }

  lemma NormalBare(f: string)
    requires f != [] && Trimmed(f) && f[|f| - 1] != '.'
    ensures Normalize(f) == Lower(f)
  {
    NormalSpelled(f, [], [], []);
    assert [] + (f + []) + [] == f;
  }

  lemma LowerBare(f: string)
    requires f != [] && Trimmed(f) && f[|f| - 1] != '.'
    ensures Trimmed(Lower(f)) && Lower(f)[|f| - 1] != '.' && Lower(Lower(f)) == Lower(f)
  {
    LowerIsTrimmed(f);
    LowerIsLower(f);
    LowerFixed(Lower(f));
  }

  lemma SameNormal(a: string, b: string)
    requires a != [] && b != [] && Normalize(a) == Normalize(b)
    ensures ParseDnsaidFqdn(a) == ParseDnsaidFqdn(b)
  {}

  lemma SpelledAlike(f: string, before: string, dots: string, after: string)
    requires f != [] && Trimmed(f) && f[|f| - 1] != '.' && Dots(dots) && Spaces(before) && Spaces(after)
    ensures Normalize(before + (f + dots) + after) == Normalize(f) == Normalize(Lower(f))
  {
    NormalSpelled(f, before, dots, after);
    NormalLower(f);
  }

  lemma NormalLower(f: string)
    requires f != [] && Trimmed(f) && f[|f| - 1] != '.'
    ensures Normalize(f) == Normalize(Lower(f)) == Lower(f)
  {
    NormalBare(f);
    LowerBare(f);
    NormalBare(Lower(f));
  }

  /** Letter case, white space around a name and dots at its end make no difference to what it is. */
  lemma SpellingsAgree(f: string, before: string, dots: string, after: string)
    requires f != [] && Trimmed(f) && f[|f| - 1] != '.' && Dots(dots) && Spaces(before) && Spaces(after)
    ensures ParseDnsaidFqdn(before + (f + dots) + after) == ParseDnsaidFqdn(f) == ParseDnsaidFqdn(Lower(f))
  {
    SpelledAlike(f, before, dots, after);
    SameNormal(before + (f + dots) + after, f);
    SameNormal(Lower(f), f);
  }
}
