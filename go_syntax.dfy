/** Recognisers for the Go lines the converter reads (src/extension.ts). Each regular
    expression of the source is one function or predicate here, written out as the
    greedy runs it consumes; none of these patterns can succeed by backtracking into a
    shorter run, so the greedy reading is the regular expression's reading. */
module GoSyntax {
  import opened Text

  /** One field of a Go struct as the converter reads it: the tag is the text between
      `json:"` and the closing `"` (absent for an untagged line). */
  datatype GoField = GoField(name: string, goType: string, tag: Option<string>)

  predicate Keyword(s: string, kw: string, ignoreCase: bool) {
    if ignoreCase then StartsWithIgnoringCase(s, kw) else StartsWith(s, kw)
  }

  /** `\s+(\w+)\s+` at the start of `s`: the word and what follows the second gap. */
  function SpacedWord(s: string): (r: Option<(string, string)>)
    ensures r.Some? ==> r.value.0 != [] && IsWord(r.value.0)
  {
    var gap1 := Span(s, Space);
    var r2 := s[gap1..];
    var w := Span(r2, Word);
    var r3 := r2[w..];
    var gap2 := Span(r3, Space);
    if gap1 > 0 && w > 0 && gap2 > 0 then SpanFacts(r2, Word); Some((r2[..w], r3[gap2..])) else None
  }

  /** A word between two whitespace runs is read back whole, with what follows. */
  lemma SpacedWordGaps(g1: string, name: string, g2: string, tail: string)
    requires g1 != [] && AllIn(g1, Space)
    requires name != [] && IsWord(name)
    requires g2 != [] && AllIn(g2, Space)
    requires tail == [] || !IsSpace(tail[0])
    ensures SpacedWord(g1 + (name + (g2 + tail))) == Some((name, tail))
  {
    var r2 := name + (g2 + tail);
    SpanOfConcat(g1, r2, Space);
    assert (g1 + r2)[|g1|..] == r2;
    SpanOfConcat(name, g2 + tail, Word);
    assert r2[|name|..] == g2 + tail && r2[..|name|] == name;
    SpanOfConcat(g2, tail, Space);
    assert (g2 + tail)[|g2|..] == tail;
  }

  /** A word after one whitespace character `sep` and before a space is read back whole. */
  lemma SpacedWordOf(sep: char, name: string, tail: string)
    requires IsSpace(sep)
    requires name != [] && IsWord(name)
    requires tail != [] && !IsSpace(tail[0])
    ensures SpacedWord([sep] + (name + (" " + tail))) == Some((name, tail))
  {
    SpacedWordGaps([sep], name, " ", tail);
  }

  /** `/^\s*type\s+\w+\s+struct\b/`, with the `i` flag when `ignoreCase`. The text may
      span lines: `\s` matches a line break. */
  predicate IsStructHeader(s: string, ignoreCase: bool) {
    var r := s[Span(s, Space)..];
    Keyword(r, "type", ignoreCase) &&
    match SpacedWord(r[4..])
    case None => false
    case Some((_, r4)) => Keyword(r4, "struct", ignoreCase) && (|r4| == 6 || !IsWordChar(r4[6]))
  }

  /** After any indentation, a four-letter word, a gap, a name and a gap, the text is a
      struct header exactly when that word is `type` and the next word is `struct` and
      ends there (both keywords in the case the flag allows): `type Name int` and
      `type Name structure` are not headers, `TYPE Name STRUCT` is one only with the flag. */
  lemma StructHeaderIff(indent: string, kw: string, g1: string, name: string, g2: string, tail: string,
                        ignoreCase: bool)
    requires AllIn(indent, Space)
    requires |kw| == 4 && !IsSpace(kw[0])
    requires g1 != [] && AllIn(g1, Space)
    requires name != [] && IsWord(name)
    requires g2 != [] && AllIn(g2, Space)
    requires tail == [] || !IsSpace(tail[0])
    ensures IsStructHeader(indent + (kw + (g1 + (name + (g2 + tail)))), ignoreCase)
      <==> Keyword(kw, "type", ignoreCase) && Keyword(tail, "struct", ignoreCase)
           && (|tail| == 6 || !IsWordChar(tail[6]))
  {
    var x := g1 + (name + (g2 + tail));
    var s := kw + x;
    SpanOfConcat(indent, s, Space);
    assert (indent + s)[|indent|..] == s;
    KeywordOfPrefix(kw, x, "type", ignoreCase);
    assert s[4..] == x;
    SpacedWordGaps(g1, name, g2, tail);
  }

  /** Whether a text starts with a keyword depends only on its first |keyword| characters. */
  lemma KeywordOfPrefix(kw: string, x: string, lit: string, ignoreCase: bool)
    requires |kw| == |lit|
    ensures Keyword(kw + x, lit, ignoreCase) <==> Keyword(kw, lit, ignoreCase)
  {
    assert (kw + x)[..|lit|] == kw && kw[..|lit|] == kw;
    assert forall i :: 0 <= i < |lit| ==> (kw + x)[i] == kw[i];
  }

  /** A header line never starts with a capitalised word. */
  lemma CapitalisedIsNotHeader(indent: string, t: string)
    requires AllIn(indent, Space)
    requires t != [] && IsUpper(t[0])
    ensures !IsStructHeader(indent + t, false)
  {
    SpanOfConcat(indent, t, Space);
    assert (indent + t)[|indent|..] == t;
    FirstCharRules(t, "type");
  }

  /** Nor does one whose first word does not start with `t`. */
  lemma NotTypeIsNotHeader(indent: string, t: string)
    requires AllIn(indent, Space)
    requires t != [] && !IsSpace(t[0]) && t[0] != 't'
    ensures !IsStructHeader(indent + t, false)
  {
    SpanOfConcat(indent, t, Space);
    assert (indent + t)[|indent|..] == t;
    FirstCharRules(t, "type");
  }

  /** `\s` matches a line break, so `type`, a line break, then `Name struct` is a header
      too, although its first line names no struct. */
  lemma HeaderAcrossLines(name: string, tail: string)
    requires name != [] && IsWord(name)
    requires tail == [] || !IsWordChar(tail[0])
    ensures IsStructHeader("type\n" + (name + (" struct" + tail)), true)
  {
    var x := name + (" " + ("struct" + tail));
    var s := "type\n" + x;
    assert " struct" + tail == " " + ("struct" + tail);
    assert Span(s, Space) == 0 && s[0..] == s;
    assert s[..4] == "type" && s[4..] == "\n" + x;
    ExactPrefixIgnoringCase(s, "type");
    SpacedWordOf('\n', name, "struct" + tail);
    NameThenStructOf(name, tail);
  }

  /** A first line holding only `type` names no struct: the default name is used. */
  lemma DefaultStructName()
    ensures StructName("type") == "Converted"
  {
    var s := "type";
    assert s[4..] == [];
    assert SpacedWord(s[4..]) == None;
    assert StructNameAt(s) == None;
    NoNameInShortText(s[1..]);
  }

  /** A text shorter than `type` holds no struct name. */
  lemma {:induction false} NoNameInShortText(s: string)
    requires |s| < 4
    ensures FindStructName(s) == None
    decreases |s|
  {
    if s != [] {
      NoNameInShortText(s[1..]);
    }
  }

  /** `type\s+(\w+)\s+struct` (flag `i`) matched at the very start of `s`. */
  function StructNameAt(s: string): (r: Option<string>)
    ensures r.Some? ==> r.value != [] && IsWord(r.value)
  {
    if !StartsWithIgnoringCase(s, "type") then None
    else
      match SpacedWord(s[4..])
      case None => None
      case Some((n, r4)) => if StartsWithIgnoringCase(r4, "struct") then Some(n) else None
  }

  /** `line.match(/type\s+(\w+)\s+struct/i)`: the leftmost match anywhere in the line. */
  function FindStructName(s: string): (r: Option<string>)
    ensures r.Some? ==> r.value != [] && IsWord(r.value)
    decreases |s|
  {
    if s == [] then None
    else if StructNameAt(s).Some? then StructNameAt(s)
    else FindStructName(s[1..])
  }

  /** The struct name goStructToTSInterface takes from the first line, or its default. */
  function StructName(firstLine: string): string {
    match FindStructName(firstLine)
    case Some(n) => n
    case None => "Converted"
  }

  /** `type ` opens the text: no leading whitespace, the keyword, then the rest. */
  lemma TypeKeywordOf(x: string)
    ensures Span("type " + x, Space) == 0
    ensures ("type " + x)[..4] == "type" && ("type " + x)[4..] == " " + x
  {
  }

  /** After `type`, the name and `struct` followed by a non-word character. */
  lemma NameThenStructOf(name: string, tail: string)
    requires name != [] && IsWord(name)
    requires tail == [] || !IsWordChar(tail[0])
    ensures SpacedWord(" " + (name + (" " + ("struct" + tail)))) == Some((name, "struct" + tail))
    ensures Keyword("struct" + tail, "struct", true) && Keyword("struct" + tail, "struct", false)
    ensures |"struct" + tail| == 6 || !IsWordChar(("struct" + tail)[6])
  {
    SpacedWordOf(' ', name, "struct" + tail);
    assert ("struct" + tail)[..6] == "struct";
  }

  /** The opening the Go emitter writes, `type Name struct` and then anything that is not
      a word character, is a header under both flags. */
  lemma StructHeaderOf(name: string, tail: string)
    requires name != [] && IsWord(name)
    requires tail == [] || !IsWordChar(tail[0])
    ensures IsStructHeader("type " + (name + (" struct" + tail)), true)
    ensures IsStructHeader("type " + (name + (" struct" + tail)), false)
  {
    var s := "type " + (name + (" struct" + tail));
    TypeKeywordOf(name + (" struct" + tail));
    assert s[0..] == s;
    assert " " + (name + (" struct" + tail)) == " " + (name + (" " + ("struct" + tail)));
    NameThenStructOf(name, tail);
  }

  /** `type Name struct` at the start of a text is where the name search stops. */
  lemma StructNameAtOf(name: string, tail: string)
    requires name != [] && IsWord(name)
    ensures StructNameAt("type " + (name + (" struct" + tail))) == Some(name)
  {
    var s := "type " + (name + (" struct" + tail));
    TypeKeywordOf(name + (" struct" + tail));
    ExactPrefixIgnoringCase(s, "type");
    assert " " + (name + (" struct" + tail)) == " " + (name + (" " + ("struct" + tail)));
    SpacedWordOf(' ', name, "struct" + tail);
    assert ("struct" + tail)[..6] == "struct";
    ExactPrefixIgnoringCase("struct" + tail, "struct");
  }

  /** The first line the Go emitter writes names the struct. */
  lemma StructNameOf(name: string, tail: string)
    requires name != [] && IsWord(name)
    ensures StructName("type " + (name + (" struct" + tail))) == name
  {
    StructNameAtOf(name, tail);
  }

  /** A field line's leading part: indentation, name, the whitespace after the name, the
      type, and whatever follows the type. */
  datatype FieldHead = FieldHead(indent: string, name: string, gap: string, goType: string, rest: string)

  /** The character classes used for a Go type. */
  predicate IsGoTypeClass(k: CharClass) { k == GoType || k == GoTypeOrBrace }

  /** What it means for `h` to be the reading of `line` by `^\s*(\w+)\s+(T+)`. */
  predicate HeadOf(line: string, h: FieldHead, typeChars: CharClass) {
    line == h.indent + (h.name + (h.gap + (h.goType + h.rest)))
    && AllIn(h.indent, Space)
    && h.name != [] && IsWord(h.name)
    && h.gap != [] && AllIn(h.gap, Space)
    && h.goType != [] && AllIn(h.goType, typeChars)
    && (h.rest == [] || !InClass(h.rest[0], typeChars))
  }

  /** `^\s*(\w+)\s+(T+)` with `T` the class `typeChars`, at the start of the line. */
  function MatchFieldHead(line: string, typeChars: CharClass): (r: Option<FieldHead>)
    requires IsGoTypeClass(typeChars)
    ensures r.Some? ==> HeadOf(line, r.value, typeChars)
    ensures r.Some? ==> r.value.indent == line[..Span(line, Space)]
  {
    var i := Span(line, Space);
    var r1 := line[i..];
    var n := Span(r1, Word);
    var r2 := r1[n..];
    var g := Span(r2, Space);
    var r3 := r2[g..];
    var t := Span(r3, typeChars);
    if n > 0 && g > 0 && t > 0 then
      SpanFacts(line, Space); SpanFacts(r1, Word); SpanFacts(r2, Space); SpanFacts(r3, typeChars);
      Cut(line, i); Cut(r1, n); Cut(r2, g); Cut(r3, t);
      Some(FieldHead(line[..i], r1[..n], r2[..g], r3[..t], r3[t..]))
    else None
  }

  /** The reading is the only one: every decomposition of that shape is what the
      matcher returns. */
  lemma MatchFieldHeadComplete(line: string, h: FieldHead, typeChars: CharClass)
    requires IsGoTypeClass(typeChars)
    requires HeadOf(line, h, typeChars)
    ensures MatchFieldHead(line, typeChars) == Some(h)
  {
    var tail3 := h.goType + h.rest;
    var tail2 := h.gap + tail3;
    var tail1 := h.name + tail2;
    SpanOfConcat(h.indent, tail1, Space);
    SpanOfConcat(h.name, tail2, Word);
    SpanOfConcat(h.gap, tail3, Space);
    SpanOfConcat(h.goType, h.rest, typeChars);
    assert line[|h.indent|..] == tail1;
    assert tail1[|h.name|..] == tail2;
    assert tail2[|h.gap|..] == tail3;
  }

  /** The text that opens a JSON tag. */
  const TagOpen: string := "`json:\""

  /** What `\s+`json:"([^`]+)"`` reads after the type. The group `[^`]+` cannot pass a
      backtick, so it ends right before the first backtick after `json:"`, which must be
      preceded by `"` and leave at least one character for the group. */
  function TagAfterType(rest: string): (r: Option<string>)
    ensures r.Some? ==> r.value != [] && '`' !in r.value
  {
    var g := Span(rest, Space);
    var r := rest[g..];
    if g > 0 && StartsWith(r, TagOpen) then
      var body := r[|TagOpen|..];
      var k := IndexOf(body, '`');
      if 2 <= k < |body| && body[k - 1] == '"' then Some(body[..k - 1]) else None
    else None
  }

  /** `^\s*(\w+)\s+([\w\[\]\*\.\{\}]+)\s+`json:"([^`]+)"``. */
  function MatchTaggedField(line: string): (r: Option<GoField>)
    ensures r.Some? ==> r.value.tag.Some? && r.value.tag.value != [] && '`' !in r.value.tag.value
    ensures r.Some? ==> r.value.name != [] && IsWord(r.value.name)
  {
    match MatchFieldHead(line, GoTypeOrBrace)
    case None => None
    case Some(h) =>
      match TagAfterType(h.rest)
      case None => None
      case Some(tag) => Some(GoField(h.name, h.goType, Some(tag)))
  }

  /** `^\s*(\w+)\s+([\w\[\]\*\.]+)`: the prefix shape of an untagged field. */
  function MatchUntaggedField(line: string): (r: Option<GoField>)
    ensures r.Some? ==> r.value.tag.None? && r.value.name != [] && IsWord(r.value.name)
  {
    match MatchFieldHead(line, GoType)
    case None => None
    case Some(h) => Some(GoField(h.name, h.goType, None))
  }

  /** The two field shapes goStructToTSInterface tries, tagged first. */
  function ParseGoField(line: string): (r: Option<GoField>)
    ensures r.Some? ==> r.value.name != [] && IsWord(r.value.name)
  {
    match MatchTaggedField(line)
    case Some(f) => Some(f)
    case None => MatchUntaggedField(line)
  }

  predicate NoLineTerminator(s: string) {
    forall i :: 0 <= i < |s| ==> !IsLineTerminator(s[i])
  }

  /** `(\s*\/\/.*)?$` after the type: nothing, or a `//` comment to the end of the line. */
  predicate IsCommentTail(rest: string) {
    rest == [] ||
    var c := rest[Span(rest, Space)..];
    StartsWith(c, "//") && NoLineTerminator(c[2..])
  }

  /** `^\s*(\w+)\s+([\w\[\]\*\.]+)(\s*\/\/.*)?$`: a whole line that is an untagged field,
      optionally followed by a comment. The comment group, leading whitespace included,
      is the head's `rest`. */
  function MatchFieldLineWithComment(line: string): (r: Option<FieldHead>)
    ensures r.Some? <==> MatchFieldHead(line, GoType).Some? && IsCommentTail(MatchFieldHead(line, GoType).value.rest)
    ensures r.Some? ==> r == MatchFieldHead(line, GoType)
  {
    match MatchFieldHead(line, GoType)
    case None => None
    case Some(h) => if IsCommentTail(h.rest) then Some(h) else None
  }

  /** A line matches the whole-line field pattern with groups `h` exactly when it splits
      as `h` describes (indent, name, gap, a Go type run that stops there) and what
      follows the type is empty or a `//` comment. */
  lemma MatchFieldLineWithCommentIff(line: string, h: FieldHead)
    ensures MatchFieldLineWithComment(line) == Some(h) <==> HeadOf(line, h, GoType) && IsCommentTail(h.rest)
  {
    if HeadOf(line, h, GoType) {
      MatchFieldHeadComplete(line, h, GoType);
    }
  }

  /** An untagged field line ending in a `//` comment is a whole field line; the
      comment, with the whitespace before it, is what follows the type. */
  lemma CommentedFieldOf(indent: string, name: string, gap: string, goType: string, sp: string, text: string)
    requires AllIn(indent, Space)
    requires name != [] && IsWord(name)
    requires gap != [] && AllIn(gap, Space)
    requires goType != [] && AllIn(goType, GoType)
    requires AllIn(sp, Space) && NoLineTerminator(text)
    ensures MatchFieldLineWithComment(indent + (name + (gap + (goType + (sp + ("//" + text))))))
      == Some(FieldHead(indent, name, gap, goType, sp + ("//" + text)))
  {
    var rest := sp + ("//" + text);
    assert rest[0] == '/' || InClass(rest[0], Space);
    MatchFieldHeadComplete(indent + (name + (gap + (goType + rest))), FieldHead(indent, name, gap, goType, rest), GoType);
    SpanOfConcat(sp, "//" + text, Space);
    assert rest[|sp|..] == "//" + text;
    assert ("//" + text)[..2] == "//" && ("//" + text)[2..] == text;
  }

  /** An untagged field line that ends with its type is a whole field line. */
  lemma BareFieldOf(indent: string, name: string, gap: string, goType: string)
    requires AllIn(indent, Space)
    requires name != [] && IsWord(name)
    requires gap != [] && AllIn(gap, Space)
    requires goType != [] && AllIn(goType, GoType)
    ensures MatchFieldLineWithComment(indent + (name + (gap + goType)))
      == Some(FieldHead(indent, name, gap, goType, []))
  {
    assert goType + [] == goType;
    MatchFieldHeadComplete(indent + (name + (gap + (goType + []))), FieldHead(indent, name, gap, goType, []), GoType);
  }

  /** A tagged field line as the Go emitter writes it. */
  function TaggedFieldLine(name: string, goType: string, tag: string): string {
    "\t" + (name + (" " + (goType + (" " + (TagOpen + (tag + "\"`"))))))
  }

  /** `IndexOf` skips a prefix that does not hold the character. */
  lemma {:induction false} IndexOfAfter(a: string, c: char, b: string)
    requires c !in a
    ensures IndexOf(a + b, c) == |a| + IndexOf(b, c)
  {
    if a != [] {
      assert (a + b)[1..] == a[1..] + b;
      IndexOfAfter(a[1..], c, b);
    } else {
      assert a + b == b;
    }
  }

  /** The tag reader recovers a tag written as `json:"tag"` after any run of whitespace,
      whatever follows it. */
  lemma TagAfterTypeOf(gap: string, tag: string, after: string)
    requires gap != [] && AllIn(gap, Space)
    requires tag != [] && '`' !in tag
    ensures TagAfterType(gap + (TagOpen + (tag + ("\"`" + after)))) == Some(tag)
  {
    var rest := gap + (TagOpen + (tag + ("\"`" + after)));
    SpanOfConcat(gap, TagOpen + (tag + ("\"`" + after)), Space);
    assert rest[|gap|..] == TagOpen + (tag + ("\"`" + after));
    var body := tag + ("\"`" + after);
    assert rest[|gap|..][|TagOpen|..] == body;
    IndexOfAfter(tag + "\"", '`', "`" + after);
    assert body == (tag + "\"") + ("`" + after);
    assert body[..|tag|] == tag;
  }

  /** The tag group must be closed by `"` right before the first backtick, and there
      must be a backtick: otherwise nothing is read as a tag. */
  lemma UnclosedTagRefused(gap: string, tag: string, after: string)
    requires gap != [] && AllIn(gap, Space)
    requires tag != [] && '`' !in tag && tag[|tag| - 1] != '"'
    ensures TagAfterType(gap + (TagOpen + (tag + ("`" + after)))) == None
    ensures TagAfterType(gap + (TagOpen + tag)) == None
  {
    SpanOfConcat(gap, TagOpen + (tag + ("`" + after)), Space);
    assert (gap + (TagOpen + (tag + ("`" + after))))[|gap|..][|TagOpen|..] == tag + ("`" + after);
    IndexOfAfter(tag, '`', "`" + after);
    SpanOfConcat(gap, TagOpen + tag, Space);
    assert (gap + (TagOpen + tag))[|gap|..][|TagOpen|..] == tag;
    IndexOfAfter(tag, '`', "");
    assert tag + "" == tag;
  }

  /** The tagged reader recovers name, type and tag from a line laid out as
      `indent name gap1 type gap2 `json:"tag"`` and anything after it, for any
      indentation and any non-empty whitespace runs between the parts. */
  lemma ParseTaggedLine(indent: string, name: string, gap1: string, goType: string, gap2: string, tag: string, after: string)
    requires AllIn(indent, Space)
    requires name != [] && IsWord(name)
    requires gap1 != [] && AllIn(gap1, Space)
    requires goType != [] && AllIn(goType, GoTypeOrBrace)
    requires gap2 != [] && AllIn(gap2, Space)
    requires tag != [] && '`' !in tag
    ensures ParseGoField(indent + (name + (gap1 + (goType + (gap2 + (TagOpen + (tag + ("\"`" + after))))))))
      == Some(GoField(name, goType, Some(tag)))
  {
    var rest := gap2 + (TagOpen + (tag + ("\"`" + after)));
    assert !InClass(rest[0], GoTypeOrBrace);
    MatchFieldHeadComplete(indent + (name + (gap1 + (goType + rest))), FieldHead(indent, name, gap1, goType, rest), GoTypeOrBrace);
    TagAfterTypeOf(gap2, tag, after);
  }

  /** The tagged reader recovers name, type and tag from a line the Go emitter wrote. */
  lemma ParseTaggedFieldLine(name: string, goType: string, tag: string)
    requires name != [] && IsWord(name)
    requires goType != [] && AllIn(goType, GoTypeOrBrace)
    requires tag != [] && '`' !in tag
    ensures ParseGoField(TaggedFieldLine(name, goType, tag)) == Some(GoField(name, goType, Some(tag)))
  {
    assert "\"`" + "" == "\"`";
    assert AllIn("\t", Space) && AllIn(" ", Space);
    ParseTaggedLine("\t", name, " ", goType, " ", tag, "");
  }

  /** `struct` after the struct name is not a JSON tag. */
  lemma StructIsNoTag(tail: string)
    ensures TagAfterType(" struct" + tail) == None
  {
    SpanOfConcat(" ", "struct" + tail, Space);
    assert (" struct" + tail)[1..] == "struct" + tail;
    FirstCharRules("struct" + tail, TagOpen);
  }

  /** The struct's opening line reads as an untagged field named `type`. */
  lemma HeaderReadsAsField(name: string, tail: string)
    requires name != [] && IsWord(name)
    ensures ParseGoField("type " + (name + (" struct" + tail))) == Some(GoField("type", name, None))
  {
    var x := name + (" struct" + tail);
    TypeIsWord("type", x);
    KeywordLineReadsAsField("type", name, tail);
  }

  /** Whatever word opens `kw name struct…`, the field patterns read it as an untagged
      field named `kw` with type `name`. */
  lemma KeywordLineReadsAsField(kw: string, name: string, tail: string)
    requires kw != [] && IsWord(kw)
    requires name != [] && IsWord(name)
    ensures ParseGoField(kw + (" " + (name + (" struct" + tail)))) == Some(GoField(kw, name, None))
  {
    var line := kw + (" " + (name + (" struct" + tail)));
    var h := FieldHead("", kw, " ", name, " struct" + tail);
    assert line == h.indent + (h.name + (h.gap + (h.goType + h.rest)));
    MatchFieldHeadComplete(line, h, GoTypeOrBrace);
    StructIsNoTag(tail);
    assert MatchTaggedField(line) == None;
    MatchFieldHeadComplete(line, h, GoType);
  }

  lemma TypeIsWord(kw: string, x: string)
    requires kw == "type"
    ensures kw != [] && IsWord(kw) && kw + (" " + x) == "type " + x
  {
  }

  /** `type\s+(\w+)\s+struct` with the `i` flag finds the name after any spelling of
      `type`. */
  lemma StructNameAfterKeyword(kw: string, name: string, tail: string)
    requires |kw| == 4 && StartsWithIgnoringCase(kw, "type")
    requires name != [] && IsWord(name)
    ensures StructName(kw + (" " + (name + (" struct" + tail)))) == name
  {
    var x := " " + (name + (" struct" + tail));
    var s := kw + x;
    KeywordOfPrefix(kw, x, "type", true);
    assert s[4..] == x;
    assert x == " " + (name + (" " + ("struct" + tail)));
    SpacedWordOf(' ', name, "struct" + tail);
    assert ("struct" + tail)[..6] == "struct";
    ExactPrefixIgnoringCase("struct" + tail, "struct");
    assert StructNameAt(s) == Some(name);
  }
}
