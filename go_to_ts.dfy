/** The Go-to-TypeScript emitter (src/extension.ts, goStructToTSInterface): every line of
    the input is read on its own, tagged shape first, and each tagged field or exported
    untagged field gives one interface field, in input order. */
module GoToTs {
  import opened Text
  import opened TypeMapping
  import opened GoSyntax
  import opened TsSyntax

  /** `jsonTag.split(",")[0]`: the JSON name of a tagged field. */
  function TagName(tag: string): string {
    Split(tag, ',')[0]
  }

  /** `jsonParts.includes("omitempty") || jsonParts.includes("omitzero")`. */
  predicate TagOmits(tag: string) {
    "omitempty" in Split(tag, ',') || "omitzero" in Split(tag, ',')
  }

  /** `goType.startsWith("[]")`. */
  predicate IsArrayType(goType: string) {
    StartsWith(goType, "[]")
  }

  /** The `baseType`: the element type of a slice, or the type itself. */
  function ElementType(goType: string): string {
    if IsArrayType(goType) then goType[2..] else goType
  }

  /** `baseType.includes("*")`. */
  predicate HasPointer(goType: string) {
    '*' in ElementType(goType)
  }

  /** The TypeScript type written for a Go type: the mapped element type, `[]` for a
      slice, then ` | null` for a pointer or when `optional` asks for it. */
  function TsTypeOf(goType: string, optional: bool): string {
    var t := MapGoType(ElementType(goType));
    var t1 := if IsArrayType(goType) then t + "[]" else t;
    if optional || HasPointer(goType) then t1 + " | null" else t1
  }

  /** The interface field for a Go field: a tagged field always gives one, named by its
      tag and optional exactly when the tag says `omitempty` or `omitzero`; an untagged
      field gives one only when exported, named by lowering its first letter and optional
      exactly when it is a pointer. */
  function TsFieldOf(f: GoField): (r: Option<TsField>)
    ensures f.tag.Some? ==>
              r.Some? && r.value.name == TagName(f.tag.value) && (r.value.optional <==> TagOmits(f.tag.value))
    ensures f.tag.None? ==> (r.Some? <==> f.name != [] && IsUpper(f.name[0]))
    ensures f.tag.None? && r.Some? ==>
              r.value.name == LowerFirst(f.name) && (r.value.optional <==> HasPointer(f.goType))
    ensures r.Some? ==> r.value.tsType == TsTypeOf(f.goType, f.tag.Some? && r.value.optional)
  {
    match f.tag
    case Some(tag) => Some(TsField(TagName(tag), TagOmits(tag), TsTypeOf(f.goType, TagOmits(tag))))
    case None =>
      if f.name != [] && IsUpper(f.name[0]) then Some(TsField(LowerFirst(f.name), HasPointer(f.goType), TsTypeOf(f.goType, false)))
      else None
  }

  /** `| null` ends the TypeScript type exactly when the field is optional or a pointer
      (for a type read from a field line, which holds no space). */
  lemma NullableIff(goType: string, optional: bool)
    requires ' ' !in goType
    ensures EndsWith(TsTypeOf(goType, optional), " | null") <==> optional || HasPointer(goType)
  {
    var e := ElementType(goType);
    if IsArrayType(goType) {
      assert goType == goType[..2] + e;
    }
    MapKeepsSpaceFree(e);
    var t := MapGoType(e);
    var t1 := if IsArrayType(goType) then t + "[]" else t;
    assert ' ' !in t1;
    assert !EndsWith(t1, " | null") by {
      if |t1| >= 7 {
        assert t1[|t1| - 7] != ' ';
      }
    }
    if optional || HasPointer(goType) {
      assert (t1 + " | null")[|t1|..] == " | null";
    }
  }

  /** A slice of pointers: the element is mapped, `[]` comes before ` | null`. */
  lemma SliceOfPointersExample()
    ensures TsTypeOf("[]*Item", false) == "Item[] | null"
  {
    assert StartsWith("[]*Item", "[]");
    assert ElementType("[]*Item") == "*Item";
    assert '*' in "*Item";
    assert RemoveStars("*Item") == "Item";
  }

  /** A field whose tag has no option is named by the whole tag, and is optional only
      when that name is `omitempty` or `omitzero` themselves. */
  lemma PlainTag(name: string)
    requires ',' !in name
    ensures TagName(name) == name
    ensures TagOmits(name) <==> name == "omitempty" || name == "omitzero"
  {
    SplitNoSep(name, ',');
  }

  /** A field tagged `name,omitempty` is named `name` and optional. */
  lemma OmitEmptyTag(name: string)
    requires ',' !in name
    ensures TagName(name + ",omitempty") == name && TagOmits(name + ",omitempty")
  {
    var option := ",omitempty"[1..];
    OmitEmptyIsOnePart(option);
    SplitAfterPart(name, ',', option);
    assert name + [','] + option == name + ",omitempty";
  }

  /** `omitempty` holds no comma, so it splits into itself. */
  lemma OmitEmptyIsOnePart(option: string)
    requires option == "omitempty"
    ensures Split(option, ',') == ["omitempty"]
  {
    SplitNoSep(option, ',');
  }

  /** What one input line contributes: nothing for `}` or a blank line, otherwise the
      field line for the field the line holds, if any. */
  function TsLineFor(line: string): Option<string> {
    if Trim(line) == "}" || Trim(line) == "" then None
    else
      match ParseGoField(line)
      case None => None
      case Some(f) =>
        match TsFieldOf(f)
        case None => None
        case Some(t) => Some(TsFieldLine(t))
  }

  /** A tagged field line gives the interface field for its tag: named by the tag's
      first part, optional exactly when the tag says `omitempty` or `omitzero`, with the
      mapped type. Any indentation, any whitespace runs between name, type and tag, and
      anything after the tag are allowed. */
  lemma TaggedLineRule(indent: string, name: string, gap1: string, goType: string, gap2: string, tag: string, after: string)
    requires AllIn(indent, Space)
    requires name != [] && IsWord(name)
    requires gap1 != [] && AllIn(gap1, Space)
    requires goType != [] && AllIn(goType, GoTypeOrBrace)
    requires gap2 != [] && AllIn(gap2, Space)
    requires tag != [] && '`' !in tag
    ensures TsLineFor(indent + (name + (gap1 + (goType + (gap2 + (TagOpen + (tag + ("\"`" + after))))))))
      == Some(TsFieldLine(TsField(TagName(tag), TagOmits(tag), TsTypeOf(goType, TagOmits(tag)))))
  {
    var line := indent + (name + (gap1 + (goType + (gap2 + (TagOpen + (tag + ("\"`" + after)))))));
    assert line[|indent|] == name[0];
    TrimNotBrace(line, |indent|);
    ParseTaggedLine(indent, name, gap1, goType, gap2, tag, after);
  }

  /** The same for a line in the Go emitter's own layout. */
  lemma EmittedLineRule(name: string, goType: string, tag: string)
    requires name != [] && IsWord(name)
    requires goType != [] && AllIn(goType, GoTypeOrBrace)
    requires tag != [] && '`' !in tag
    ensures TsLineFor(TaggedFieldLine(name, goType, tag))
      == Some(TsFieldLine(TsField(TagName(tag), TagOmits(tag), TsTypeOf(goType, TagOmits(tag)))))
  {
    var line := TaggedFieldLine(name, goType, tag);
    assert line[1] == name[0];
    TrimNotBrace(line, 1);
    ParseTaggedFieldLine(name, goType, tag);
  }

  /** An untagged field line of an exported field gives an interface field named by
      lowering the first letter, optional and nullable exactly when the type has a
      pointer. The type is the longest run of Go type characters after the gap; whatever
      follows it (a comment, `{}`) is ignored, as long as the tagged pattern does not
      match the line. */
  lemma UntaggedLineRule(indent: string, name: string, gap: string, goType: string, rest: string)
    requires AllIn(indent, Space)
    requires name != [] && IsWord(name) && IsUpper(name[0])
    requires gap != [] && AllIn(gap, Space)
    requires goType != [] && AllIn(goType, GoType)
    requires rest == [] || !InClass(rest[0], GoType)
    requires MatchTaggedField(indent + (name + (gap + (goType + rest)))).None?
    ensures TsLineFor(indent + (name + (gap + (goType + rest))))
      == Some(TsFieldLine(TsField(LowerFirst(name), HasPointer(goType), TsTypeOf(goType, false))))
  {
    UntaggedLineReads(indent, name, gap, goType, rest);
  }

  /** An untagged field whose name is not exported gives nothing. */
  lemma UnexportedLineDropped(indent: string, name: string, gap: string, goType: string, rest: string)
    requires AllIn(indent, Space)
    requires name != [] && IsWord(name) && !IsUpper(name[0])
    requires gap != [] && AllIn(gap, Space)
    requires goType != [] && AllIn(goType, GoType)
    requires rest == [] || !InClass(rest[0], GoType)
    requires MatchTaggedField(indent + (name + (gap + (goType + rest)))).None?
    ensures TsLineFor(indent + (name + (gap + (goType + rest)))) == None
  {
    UntaggedLineReads(indent, name, gap, goType, rest);
  }

  /** Such a line passes the blank and `}` test and reads as an untagged field. */
  lemma UntaggedLineReads(indent: string, name: string, gap: string, goType: string, rest: string)
    requires AllIn(indent, Space)
    requires name != [] && IsWord(name)
    requires gap != [] && AllIn(gap, Space)
    requires goType != [] && AllIn(goType, GoType)
    requires rest == [] || !InClass(rest[0], GoType)
    requires MatchTaggedField(indent + (name + (gap + (goType + rest)))).None?
    ensures var line := indent + (name + (gap + (goType + rest)));
      Trim(line) != "}" && Trim(line) != "" && ParseGoField(line) == Some(GoField(name, goType, None))
  {
    var line := indent + (name + (gap + (goType + rest)));
    assert line[|indent|] == name[0];
    TrimNotBrace(line, |indent|);
    MatchFieldHeadComplete(line, FieldHead(indent, name, gap, goType, rest), GoType);
  }

  /** Without a tag, only `interface` of `interface{}` is read as the type: the braces
      are not Go type characters, and the unknown name passes through unmapped. An
      unexported name gives nothing. */
  lemma UntaggedInterfaceField(indent: string, name: string)
    requires AllIn(indent, Space)
    requires name != [] && IsWord(name)
    ensures IsUpper(name[0]) ==>
      TsLineFor(indent + (name + " interface{}"))
        == Some(TsFieldLine(TsField(LowerFirst(name), false, "interface")))
    ensures !IsUpper(name[0]) ==> TsLineFor(indent + (name + " interface{}")) == None
  {
    var gap, goType, rest := " ", "interface", "{}";
    assert indent + (name + " interface{}") == indent + (name + (gap + (goType + rest)));
    InterfaceIsPlainName(goType, rest);
    var line := indent + (name + (gap + (goType + rest)));
    MatchFieldHeadComplete(line, FieldHead(indent, name, gap, goType + rest, []), GoTypeOrBrace);
    assert TagAfterType([]) == None;
    assert goType + rest + [] == goType + rest;
    if IsUpper(name[0]) {
      UntaggedLineRule(indent, name, gap, goType, rest);
    } else {
      UnexportedLineDropped(indent, name, gap, goType, rest);
    }
  }

  lemma InterfaceIsPlainName(goType: string, rest: string)
    requires goType == "interface" && rest == "{}"
    ensures AllIn(goType, GoType) && AllIn(goType + rest, GoTypeOrBrace) && !InClass(rest[0], GoType)
    ensures !HasPointer(goType) && TsTypeOf(goType, false) == goType
  {
    assert '*' !in goType;
    assert goType[..2][0] != "[]"[0];
    assert GoToTs(goType).None?;
  }

  /** The struct's opening line gives no field: it reads as a field named `type`, which
      is not exported. The emitter does not track the struct body. */
  lemma HeaderLineDropped(name: string, tail: string)
    requires name != [] && IsWord(name)
    ensures TsLineFor("type " + (name + (" struct" + tail))) == None
  {
    HeaderReadsAsField(name, tail);
  }

  /** An opening line spelled with another word in place of `type` reads as a field named
      after that word, with the struct's name as its type: a capitalised word (`Type`,
      `TYPE`) gives an interface field, a lower-case one nothing. */
  lemma KeywordLineField(kw: string, name: string, tail: string)
    requires kw != [] && IsWord(kw)
    requires name != [] && IsWord(name)
    ensures IsUpper(kw[0]) ==>
              TsLineFor(kw + (" " + (name + (" struct" + tail))))
                == Some(TsFieldLine(TsField(LowerFirst(kw), false, TsTypeOf(name, false))))
    ensures !IsUpper(kw[0]) ==> TsLineFor(kw + (" " + (name + (" struct" + tail)))) == None
  {
    var line := kw + (" " + (name + (" struct" + tail)));
    assert line[0] == kw[0] && !IsSpace(kw[0]) && kw[0] != '}';
    TrimNotBrace(line, 0);
    KeywordLineReadsAsField(kw, name, tail);
    WordHasNoPointer(name);
  }

  /** A word is no slice type and holds no `*`. */
  lemma WordHasNoPointer(w: string)
    requires w != [] && IsWord(w)
    ensures !IsArrayType(w) && !HasPointer(w)
  {
    assert !IsWordChar('*') && !IsWordChar('[');
    if |w| >= 2 {
      assert w[..2][0] == w[0];
    }
  }

  /** The closing line and a blank line give no field. */
  lemma ClosingLineDropped()
    ensures TsLineFor("}") == None && TsLineFor("") == None
  {
    assert TrimStart("}") == "}";
  }

  /** The field lines pushed for a run of input lines, in order. */
  function TsFieldLines(lines: seq<string>): seq<string> {
    if lines == [] then []
    else
      match TsLineFor(lines[0])
      case Some(l) => [l] + TsFieldLines(lines[1..])
      case None => TsFieldLines(lines[1..])
  }

  /** Pushing over two runs of lines is pushing over each, in order. */
  lemma {:induction false} TsFieldLinesAppend(a: seq<string>, b: seq<string>)
    ensures TsFieldLines(a + b) == TsFieldLines(a) + TsFieldLines(b)
  {
    if a == [] {
      assert a + b == b;
    } else {
      assert (a + b)[1..] == a[1..] + b;
      TsFieldLinesAppend(a[1..], b);
    }
  }

  /** `interface ${name} {\n${fields.join("\n")}\n}`. */
  function InterfaceText(name: string, body: seq<string>): string {
    Framed("interface " + (name + " {"), body)
  }

  /** The opening line and the whole text of an interface, regrouped around the name. */
  lemma InterfaceRegrouped(name: string, body: seq<string>)
    ensures "interface " + (name + " {") == "interface " + (name + (" {" + ""))
    ensures InterfaceText(name, body) == "interface " + (name + (" {" + ("\n" + (Unlines(body) + "\n}"))))
  {
  }

  /** What goStructToTSInterface returns. */
  function GoStructToTs(input: string): string {
    var lines := Lines(input);
    InterfaceText(StructName(lines[0]), TsFieldLines(lines))
  }

  /** The body of goStructToTSInterface's loop for one line: `continue` without a push
      becomes `None`, a push becomes the pushed line. */
  method FieldLineFor(line: string) returns (pushed: Option<string>)
    ensures pushed == TsLineFor(line)
  {
    if Trim(line) == "}" || Trim(line) == "" {
      return None;
    }
    var tagged := MatchTaggedField(line);
    if tagged.Some? {
      return Some(TsFieldLine(TsFieldOf(tagged.value).value));
    }
    var untagged := MatchUntaggedField(line);
    if untagged.Some? {
      var f := untagged.value;
      if !IsUpper(f.name[0]) {
        return None;
      }
      return Some(TsFieldLine(TsFieldOf(f).value));
    }
    return None;
  }

  /** goStructToTSInterface: one pass over the lines, pushing field lines. */
  method GoStructToTsInterface(input: string) returns (out: string)
    ensures out == GoStructToTs(input)
  {
    var lines := Lines(input);
    var interfaceName := StructName(lines[0]);
    var tsFields: seq<string> := [];
    var i := 0;
    while i < |lines|
      invariant 0 <= i <= |lines|
      invariant TsFieldLines(lines) == tsFields + TsFieldLines(lines[i..])
    {
      assert lines[i..][1..] == lines[i + 1..];
      var pushed := FieldLineFor(lines[i]);
      if pushed.Some? {
        tsFields := tsFields + [pushed.value];
      }
      i := i + 1;
    }
    assert lines[i..] == [];
    assert tsFields == TsFieldLines(lines);
    out := InterfaceText(interfaceName, tsFields);
  }
}
