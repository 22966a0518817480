/** Recognisers for the TypeScript lines the converter reads and the field line its
    TypeScript emitter writes (src/extension.ts). As for Go, each pattern is written out
    as the greedy runs it consumes; none of them can succeed by backtracking. */
module TsSyntax {
  import opened Text

  /** One field of an interface: its name, whether it carries `?`, and its type text. */
  datatype TsField = TsField(name: string, optional: bool, tsType: string)

  /** `/^\s*interface\s+\w+\b/i`. A run of `\w` always ends on a word boundary, so the
      `\b` only asks for at least one word character. */
  predicate IsInterfaceHeader(s: string) {
    var r := s[Span(s, Space)..];
    StartsWithIgnoringCase(r, "interface") &&
    var r1 := r[9..];
    var gap := Span(r1, Space);
    gap > 0 && Span(r1[gap..], Word) > 0
  }

  /** After any indentation and a nine-letter word, the text is an interface header
      exactly when that word is `interface` in any case and whitespace follows and then a
      word character: `Interface Foo` and `INTERFACE Foo` are headers, `interfaces` and a
      bare `interface` are not. */
  lemma InterfaceHeaderIff(indent: string, kw: string, gap: string, tail: string)
    requires AllIn(indent, Space) && AllIn(gap, Space)
    requires |kw| == 9 && !IsSpace(kw[0])
    requires tail == [] || !IsSpace(tail[0])
    ensures IsInterfaceHeader(indent + (kw + (gap + tail)))
      <==> StartsWithIgnoringCase(kw, "interface") && gap != [] && tail != [] && IsWordChar(tail[0])
  {
    var s := kw + (gap + tail);
    SpanOfConcat(indent, s, Space);
    assert (indent + s)[|indent|..] == s;
    assert s[9..] == gap + tail;
    IgnoringCaseOfPrefix(kw, gap + tail, "interface");
    SpanOfConcat(gap, tail, Space);
    assert (gap + tail)[|gap|..] == tail;
  }

  /** `interface\s+(\w+)` (flag `i`) matched at the very start of `s`. */
  function InterfaceNameAt(s: string): (r: Option<string>)
    ensures r.Some? ==> r.value != [] && IsWord(r.value)
  {
    if !StartsWithIgnoringCase(s, "interface") then None
    else
      var r1 := s[9..];
      var gap := Span(r1, Space);
      var r2 := r1[gap..];
      var w := Span(r2, Word);
      if gap > 0 && w > 0 then SpanFacts(r2, Word); Some(r2[..w]) else None
  }

  /** `line.match(/interface\s+(\w+)/i)`: the leftmost match anywhere in the line. */
  function FindInterfaceName(s: string): (r: Option<string>)
    ensures r.Some? ==> r.value != [] && IsWord(r.value)
    decreases |s|
  {
    if s == [] then None
    else if InterfaceNameAt(s).Some? then InterfaceNameAt(s)
    else FindInterfaceName(s[1..])
  }

  /** The struct name tsInterfaceToGoStruct takes from the first line, or its default. */
  function InterfaceName(firstLine: string): string {
    match FindInterfaceName(firstLine)
    case Some(n) => n
    case None => "Converted"
  }

  /** `interface ` opens the text: no leading whitespace, the keyword, then the rest. */
  lemma InterfaceKeywordOf(x: string)
    ensures Span("interface " + x, Space) == 0
    ensures StartsWithIgnoringCase("interface " + x, "interface")
    ensures ("interface " + x)[9..] == " " + x
  {
    assert ("interface " + x)[..9] == "interface";
    ExactPrefixIgnoringCase("interface " + x, "interface");
  }

  /** After `interface`, one space and a word that the next character does not continue. */
  lemma SpacedNameOf(name: string, tail: string)
    requires name != [] && IsWord(name)
    requires tail == [] || !IsWordChar(tail[0])
    ensures Span(" " + (name + tail), Space) == 1
    ensures (" " + (name + tail))[1..] == name + tail
    ensures Span(name + tail, Word) == |name|
  {
    SpanOfConcat(" ", name + tail, Space);
    SpanOfConcat(name, tail, Word);
  }

  /** The opening the TypeScript emitter writes is a header and names the interface. */
  lemma InterfaceHeaderOf(name: string, tail: string)
    requires name != [] && IsWord(name)
    requires tail == [] || !IsWordChar(tail[0])
    ensures IsInterfaceHeader("interface " + (name + tail))
    ensures InterfaceName("interface " + (name + tail)) == name
  {
    var s := "interface " + (name + tail);
    InterfaceKeywordOf(name + tail);
    assert s[0..] == s;
    SpacedNameOf(name, tail);
    assert (name + tail)[..|name|] == name;
    assert InterfaceNameAt(s) == Some(name);
  }

  /** `(\?)?\s*:\s*([\w\[\]]+)` after the name: the mark and the type. */
  function MarkAndType(r2: string): (r: Option<(bool, string)>)
    ensures r.Some? ==> r.value.1 != [] && AllIn(r.value.1, TsType)
  {
    var optional := r2 != [] && r2[0] == '?';
    var r3 := if optional then r2[1..] else r2;
    var r4 := r3[Span(r3, Space)..];
    if r4 == [] || r4[0] != ':' then None
    else
      var r5 := r4[1..];
      var r6 := r5[Span(r5, Space)..];
      var t := Span(r6, TsType);
      if t == 0 then None else SpanFacts(r6, TsType); Some((optional, r6[..t]))
  }

  /** `^\s*(\w+)(\?)?\s*:\s*([\w\[\]]+);?`. The trailing `;?` never decides whether the line
      matches, and nothing after the type is read. */
  function ParseTsField(line: string): (r: Option<TsField>)
    ensures r.Some? ==> r.value.name != [] && IsWord(r.value.name)
    ensures r.Some? ==> r.value.tsType != [] && AllIn(r.value.tsType, TsType)
  {
    var r1 := line[Span(line, Space)..];
    var n := Span(r1, Word);
    if n == 0 then None
    else
      match MarkAndType(r1[n..])
      case None => None
      case Some((optional, t)) => SpanFacts(r1, Word); Some(TsField(r1[..n], optional, t))
  }

  /** The field line the TypeScript emitter writes: `  name?: type;`. */
  function TsFieldLine(f: TsField): string {
    "  " + (f.name + ((if f.optional then "?" else "") + (": " + (f.tsType + ";"))))
  }

  /** After the colon, the type up to the first character outside `[\w\[\]]`. */
  lemma TypeAfterColonOf(base: string, after: string)
    requires base != [] && AllIn(base, TsType)
    requires after == [] || !InClass(after[0], TsType)
    ensures var r4 := ": " + (base + after);
      Span(r4, Space) == 0 && r4[0] == ':' && r4[1..] == " " + (base + after)
    ensures var r5 := " " + (base + after);
      r5[Span(r5, Space)..] == base + after
    ensures Span(base + after, TsType) == |base| && (base + after)[..|base|] == base
  {
    SpanOfConcat(" ", base + after, Space);
    SpanOfConcat(base, after, TsType);
  }

  /** The mark and type reader recovers what the emitter wrote after the name. */
  lemma MarkAndTypeOf(optional: bool, base: string, after: string)
    requires base != [] && AllIn(base, TsType)
    requires after == [] || !InClass(after[0], TsType)
    ensures MarkAndType((if optional then "?" else "") + (": " + (base + after))) == Some((optional, base))
  {
    var r4 := ": " + (base + after);
    TypeAfterColonOf(base, after);
    assert r4[0..] == r4;
    if optional {
      assert ("?" + r4)[1..] == r4;
    } else {
      assert "" + r4 == r4;
    }
  }

  /** Whitespace, the colon, whitespace, then the type: the runs the reader takes. */
  lemma ColonThenType(s1: string, s2: string, base: string, after: string)
    requires AllIn(s1, Space) && AllIn(s2, Space)
    requires base != [] && AllIn(base, TsType)
    requires after == [] || !InClass(after[0], TsType)
    ensures var r3 := s1 + (":" + (s2 + (base + after)));
      var r4 := r3[Span(r3, Space)..];
      r4 != [] && r4[0] == ':' &&
      var r5 := r4[1..];
      var r6 := r5[Span(r5, Space)..];
      Span(r6, TsType) == |base| && r6[..|base|] == base
  {
    var r5 := s2 + (base + after);
    var r3 := s1 + (":" + r5);
    SpanOfConcat(s1, ":" + r5, Space);
    assert r3[|s1|..] == ":" + r5;
    assert (":" + r5)[1..] == r5;
    SpanOfConcat(s2, base + after, Space);
    assert r5[|s2|..] == base + after;
    SpanOfConcat(base, after, TsType);
    assert (base + after)[..|base|] == base;
  }

  /** The optional `?` is read back exactly when it was written. */
  lemma MarkThen(optional: bool, r3: string)
    requires r3 == [] || r3[0] != '?'
    ensures var r2 := (if optional then "?" else "") + r3;
      (r2 != [] && r2[0] == '?') == optional && (if optional then r2[1..] else r2) == r3
  {
    if optional {
      assert ("?" + r3)[1..] == r3;
    } else {
      assert "" + r3 == r3;
    }
  }

  /** The mark and type reader with any whitespace before and after the colon. */
  lemma MarkAndTypeSpaced(optional: bool, s1: string, s2: string, base: string, after: string)
    requires AllIn(s1, Space) && AllIn(s2, Space)
    requires base != [] && AllIn(base, TsType)
    requires after == [] || !InClass(after[0], TsType)
    ensures MarkAndType((if optional then "?" else "") + (s1 + (":" + (s2 + (base + after))))) == Some((optional, base))
  {
    var r3 := s1 + (":" + (s2 + (base + after)));
    if s1 == [] {
      assert r3[0] == ':';
    } else {
      assert r3[0] == s1[0] && InClass(s1[0], Space);
    }
    MarkThen(optional, r3);
    ColonThenType(s1, s2, base, after);
  }

  /** The field reader on any line of the pattern's shape: any indentation, the name, an
      optional `?`, whitespace runs around the colon, then the type. It returns the name,
      the mark and the type's leading `[\w\[\]]` run; what follows (`;`, ` | null`, a
      comment) is not read. */
  lemma ParseTsFieldOf(indent: string, name: string, optional: bool, s1: string, s2: string, base: string, after: string)
    requires AllIn(indent, Space)
    requires name != [] && IsWord(name)
    requires AllIn(s1, Space) && AllIn(s2, Space)
    requires base != [] && AllIn(base, TsType)
    requires after == [] || !InClass(after[0], TsType)
    ensures ParseTsField(indent + (name + ((if optional then "?" else "") + (s1 + (":" + (s2 + (base + after)))))))
      == Some(TsField(name, optional, base))
  {
    var r2 := (if optional then "?" else "") + (s1 + (":" + (s2 + (base + after))));
    var r1 := name + r2;
    SpanOfConcat(indent, r1, Space);
    assert (indent + r1)[|indent|..] == r1;
    assert r2[0] == '?' || r2[0] == ':' || InClass(r2[0], Space);
    SpanOfConcat(name, r2, Word);
    assert r1[|name|..] == r2 && r1[..|name|] == name;
    MarkAndTypeSpaced(optional, s1, s2, base, after);
  }

  /** The field reader recovers an emitted field: its name, its mark and the leading
      `[\w\[\]]` run of its type (all of it for a plain type, the part before ` | null`
      for a nullable one). */
  lemma ParseTsFieldLine(name: string, optional: bool, base: string, after: string)
    requires name != [] && IsWord(name)
    requires base != [] && AllIn(base, TsType)
    requires after == [] || after[0] == ' '
    ensures ParseTsField(TsFieldLine(TsField(name, optional, base + after))) == Some(TsField(name, optional, base))
  {
    var mark := if optional then "?" else "";
    assert AllIn("  ", Space) && AllIn(" ", Space);
    assert TsFieldLine(TsField(name, optional, base + after))
      == "  " + (name + (mark + ("" + (":" + (" " + (base + (after + ";")))))));
    ParseTsFieldOf("  ", name, optional, "", " ", base, after + ";");
  }

  /** The header line of an interface is not a field. */
  lemma HeaderIsNoField(name: string, tail: string)
    requires name != [] && IsWord(name)
    ensures ParseTsField("interface " + (name + tail)) == None
  {
    var s := "interface " + (name + tail);
    assert Span(s, Space) == 0;
    assert s[0..] == s;
    var k := "interface";
    SpanOfConcat(k, " " + (name + tail), Word);
    assert s == k + (" " + (name + tail));
    assert s[9..] == " " + (name + tail);
    SpanOfConcat(" ", name + tail, Space);
    assert (" " + (name + tail))[1..] == name + tail;
  }
}
