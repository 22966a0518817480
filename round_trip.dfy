/** The round trips the converter's tests check (src/extension.ts, convert applied twice):
    an interface the TypeScript emitter could have written comes back from Go unchanged,
    and so does a fully tagged struct the Go emitter could have written. Each trip is
    proved line by line, then for a run of lines, then for the whole text. */
module RoundTrip {
  import opened Text
  import opened TypeMapping
  import opened CaseConversion
  import opened GoSyntax
  import opened TsSyntax
  import opened JsonTags
  import opened GoToTs
  import opened TsToGo
  import opened Converter

  /** A TypeScript type that survives the trip: one of the four names, or an array of
      one. */
  predicate RoundTripTsType(t: string) {
    RoundTripTsName(t) || (EndsWith(t, "[]") && RoundTripTsName(t[..|t| - 2]))
  }

  /** A Go type that survives the trip: one of the four names, or a slice of one. */
  predicate RoundTripGoType(g: string) {
    RoundTripGoName(g) || (StartsWith(g, "[]") && RoundTripGoName(g[2..]))
  }

  /** A JSON name that survives the trip: a word, and not one of the two option words
      that the tag reader would take for an option. */
  predicate JsonName(n: string) {
    n != [] && IsWord(n) && n != "omitempty" && n != "omitzero"
  }

  /** The four TypeScript names are made of letters. */
  lemma TsNameChars(t: string)
    requires RoundTripTsName(t)
    ensures t != [] && IsWord(t) && '[' !in t && '*' !in t
  {
  }

  /** The four Go names are made of letters. */
  lemma GoNameChars(g: string)
    requires RoundTripGoName(g)
    ensures g != [] && IsWord(g) && '[' !in g && '*' !in g
  {
  }

  /** A TypeScript type goes to a Go type the Go reader accepts and comes back as it
      was. */
  lemma TsTypeSurvives(t: string)
    requires RoundTripTsType(t)
    ensures GoTypeOf(t) != [] && AllIn(GoTypeOf(t), GoTypeOrBrace)
    ensures TsTypeOf(GoTypeOf(t), false) == t
  {
    if RoundTripTsName(t) {
      TsNameChars(t);
      assert AllIn(t, TsType);
      GoTypeIsTypeText(t);
      assert !EndsWith(t, "[]") by {
        assert t[|t| - 1] != ']';
      }
      TsNameRoundTrip(t);
      var g := ReverseMapTsType(t);
      GoNameChars(g);
      assert !StartsWith(g, "[]");
    } else {
      var e := t[..|t| - 2];
      TsNameChars(e);
      assert t == e + "[]";
      assert AllIn(t, TsType);
      GoTypeIsTypeText(t);
      ArrayBecomesSlice(e);
      TsNameRoundTrip(e);
      var ge := ReverseMapTsType(e);
      GoNameChars(ge);
      var g := "[]" + ge;
      assert g[2..] == ge && StartsWith(g, "[]");
    }
  }

  /** A Go type goes to a TypeScript type the interface reader accepts whole, comes back
      as it was, and gains ` | null` exactly when the field is optional. */
  lemma GoTypeSurvives(g: string)
    requires RoundTripGoType(g)
    ensures g != [] && AllIn(g, GoTypeOrBrace)
    ensures TsTypeOf(g, false) != [] && AllIn(TsTypeOf(g, false), TsType)
    ensures GoTypeOf(TsTypeOf(g, false)) == g
    ensures TsTypeOf(g, true) == TsTypeOf(g, false) + " | null"
  {
    if RoundTripGoName(g) {
      GoNameSurvives(g);
    } else {
      var e := g[2..];
      assert g == "[]" + e;
      GoSliceSurvives(e);
    }
  }

  lemma GoNameSurvives(g: string)
    requires RoundTripGoName(g)
    ensures g != [] && AllIn(g, GoTypeOrBrace)
    ensures TsTypeOf(g, false) != [] && AllIn(TsTypeOf(g, false), TsType)
    ensures GoTypeOf(TsTypeOf(g, false)) == g
    ensures TsTypeOf(g, true) == TsTypeOf(g, false) + " | null"
  {
    GoNameChars(g);
    assert !StartsWith(g, "[]") by {
      if |g| >= 2 {
        assert g[..2][0] == g[0] && g[0] != '[';
      }
    }
    assert ElementType(g) == g;
    GoNameRoundTrip(g);
    var t := MapGoType(g);
    TsNameChars(t);
    assert !EndsWith(t, "[]") by {
      assert t[|t| - 1] != ']';
    }
  }

  lemma GoSliceSurvives(e: string)
    requires RoundTripGoName(e)
    ensures "[]" + e != [] && AllIn("[]" + e, GoTypeOrBrace)
    ensures TsTypeOf("[]" + e, false) != [] && AllIn(TsTypeOf("[]" + e, false), TsType)
    ensures GoTypeOf(TsTypeOf("[]" + e, false)) == "[]" + e
    ensures TsTypeOf("[]" + e, true) == TsTypeOf("[]" + e, false) + " | null"
  {
    GoNameChars(e);
    SliceTsType(e);
    GoNameRoundTrip(e);
    var te := MapGoType(e);
    TsNameChars(te);
    ArrayBecomesSlice(te);
  }

  /** A slice of a pointer-free element is written as the element's type and `[]`. */
  lemma SliceTsType(e: string)
    requires '*' !in e
    ensures TsTypeOf("[]" + e, false) == MapGoType(e) + "[]"
    ensures TsTypeOf("[]" + e, true) == MapGoType(e) + ("[]" + " | null")
  {
    var g := "[]" + e;
    assert StartsWith(g, "[]") && ElementType(g) == e;
  }

  /** A struct field as the Go emitter writes it: named by its JSON name in camel case,
      tagged with the JSON name and, when asked, `omitempty`. */
  datatype JsonField = JsonField(jsonName: string, omitEmpty: bool, goType: string)

  function GoLineOf(f: JsonField): string {
    TaggedFieldLine(ToCamelCase(f.jsonName), f.goType, JsonTagOf(f.jsonName, f.omitEmpty))
  }

  /** The struct field the Go emitter makes of an interface field. */
  function JsonFieldOfTs(f: TsField): JsonField {
    JsonField(f.name, f.optional, GoTypeOf(f.tsType))
  }

  /** The interface field the TypeScript emitter makes of a tagged struct field. */
  function TsFieldOfJson(f: JsonField): TsField {
    TsField(f.jsonName, f.omitEmpty, TsTypeOf(f.goType, f.omitEmpty))
  }

  /** An interface field that survives the trip: not optional (an optional field comes
      back with ` | null` added), with a JSON name and a type that survive. */
  predicate RoundTripTsField(f: TsField) {
    JsonName(f.name) && !f.optional && RoundTripTsType(f.tsType)
  }

  /** A struct field that survives the trip: a JSON name and a type that survive. */
  predicate RoundTripGoField(f: JsonField) {
    JsonName(f.jsonName) && RoundTripGoType(f.goType)
  }

  /** The Go emitter turns every interface field line the TypeScript emitter writes into
      the struct field line for that field. */
  lemma TsLineToGo(f: TsField)
    requires f.name != [] && IsWord(f.name)
    requires f.tsType != [] && AllIn(f.tsType, TsType)
    ensures GoLineFor(TsFieldLine(f)) == Some(GoLineOf(JsonFieldOfTs(f)))
  {
    assert f.tsType + "" == f.tsType;
    ParseTsFieldLine(f.name, f.optional, f.tsType, "");
  }

  /** The TypeScript emitter turns every struct field line the Go emitter writes into the
      interface field line for that field: named by the tag, optional exactly when the tag
      says `omitempty`. */
  lemma GoLineToTs(f: JsonField)
    requires JsonName(f.jsonName)
    requires f.goType != [] && AllIn(f.goType, GoTypeOrBrace)
    ensures TsLineFor(GoLineOf(f)) == Some(TsFieldLine(TsFieldOfJson(f)))
  {
    var tag := JsonTagOf(f.jsonName, f.omitEmpty);
    JsonTagShape(f.jsonName, f.omitEmpty);
    CamelFacts(f.jsonName);
    EmittedLineRule(ToCamelCase(f.jsonName), f.goType, tag);
    JsonTagReadsBack(f.jsonName, f.omitEmpty);
  }

  /** A surviving interface field: its struct field gives it back. */
  lemma TsFieldSurvives(f: TsField)
    requires RoundTripTsField(f)
    ensures JsonName(JsonFieldOfTs(f).jsonName)
    ensures GoTypeOf(f.tsType) != [] && AllIn(GoTypeOf(f.tsType), GoTypeOrBrace)
    ensures TsFieldOfJson(JsonFieldOfTs(f)) == f
  {
    TsTypeSurvives(f.tsType);
  }

  /** An optional interface field does not survive: it comes back optional with
      ` | null` added to its type. */
  lemma OptionalFieldGainsNull(f: TsField)
    requires JsonName(f.name) && f.optional && RoundTripTsType(f.tsType)
    ensures TsFieldOfJson(JsonFieldOfTs(f)) == TsField(f.name, true, f.tsType + " | null")
  {
    TsTypeSurvives(f.tsType);
  }

  /** A surviving struct field: its interface field line gives it back, with the type's
      ` | null` for `omitempty` dropped by the interface reader. */
  lemma GoFieldSurvives(f: JsonField)
    requires RoundTripGoField(f)
    ensures GoLineFor(TsFieldLine(TsFieldOfJson(f))) == Some(GoLineOf(f))
  {
    GoTypeSurvives(f.goType);
    var b := TsTypeOf(f.goType, false);
    var after := if f.omitEmpty then " | null" else "";
    assert TsTypeOf(f.goType, f.omitEmpty) == b + after;
    ParseTsFieldLine(f.jsonName, f.omitEmpty, b, after);
  }

  /** A struct field line holds `json:` and, for a word-like name and type, no line
      break. */
  lemma GoLineFacts(f: JsonField)
    requires IsWord(f.jsonName) && AllIn(f.goType, GoTypeOrBrace)
    ensures Contains(GoLineOf(f), "json:")
    ensures '\n' !in GoLineOf(f)
  {
    var name := ToCamelCase(f.jsonName);
    CamelFacts(f.jsonName);
    var tag := JsonTagOf(f.jsonName, f.omitEmpty);
    TaggedLineHasJson(name, f.goType, tag);
    assert !IsWordChar('\n') && !InClass('\n', GoTypeOrBrace);
    assert '\n' !in name && '\n' !in f.goType && '\n' !in tag;
    TaggedLineNoNewline(name, f.goType, tag);
  }

  lemma TaggedLineHasJson(name: string, goType: string, tag: string)
    ensures Contains(TaggedFieldLine(name, goType, tag), "json:")
  {
    var a := "\t" + (name + (" " + (goType + " `")));
    var b := "\"" + (tag + "\"`");
    ContainsAppend(a, "json:", b);
    assert a + "json:" + b == TaggedFieldLine(name, goType, tag);
  }

  lemma TaggedLineNoNewline(name: string, goType: string, tag: string)
    requires '\n' !in name && '\n' !in goType && '\n' !in tag
    ensures '\n' !in TaggedFieldLine(name, goType, tag)
  {
    assert '\n' !in TagOpen;
  }

  /** An interface field line holds no line break when its name and type hold none. */
  lemma TsLineFacts(f: TsField)
    requires '\n' !in f.name && '\n' !in f.tsType
    ensures '\n' !in TsFieldLine(f)
  {
  }

  /** The field lines the TypeScript emitter writes for a list of fields, in order. */
  function TsLinesOf(fs: seq<TsField>): seq<string> {
    seq(|fs|, i requires 0 <= i < |fs| => TsFieldLine(fs[i]))
  }

  /** The field lines the Go emitter writes for a list of fields, in order. */
  function GoLinesOf(fs: seq<JsonField>): seq<string> {
    seq(|fs|, i requires 0 <= i < |fs| => GoLineOf(fs[i]))
  }

  function JsonFieldsOfTs(fs: seq<TsField>): seq<JsonField> {
    seq(|fs|, i requires 0 <= i < |fs| => JsonFieldOfTs(fs[i]))
  }

  function TsFieldsOfJson(fs: seq<JsonField>): seq<TsField> {
    seq(|fs|, i requires 0 <= i < |fs| => TsFieldOfJson(fs[i]))
  }

  /** Interface fields the interface reader reads back whole. */
  predicate ReadableTsFields(fs: seq<TsField>) {
    forall i :: 0 <= i < |fs| ==>
      fs[i].name != [] && IsWord(fs[i].name) && fs[i].tsType != [] && AllIn(fs[i].tsType, TsType)
  }

  /** Struct fields the struct reader reads back whole. */
  predicate ReadableGoFields(fs: seq<JsonField>) {
    forall i :: 0 <= i < |fs| ==>
      JsonName(fs[i].jsonName) && fs[i].goType != [] && AllIn(fs[i].goType, GoTypeOrBrace)
  }

  predicate AllHaveJson(lines: seq<string>) {
    forall i :: 0 <= i < |lines| ==> Contains(lines[i], "json:")
  }

  /** The Go emitter, run over the lines the TypeScript emitter wrote, writes the struct
      field for each interface field, in order. */
  lemma {:induction false} TsLinesToGo(fs: seq<TsField>)
    requires ReadableTsFields(fs)
    ensures GoFieldLines(TsLinesOf(fs)) == GoLinesOf(JsonFieldsOfTs(fs))
  {
    if fs != [] {
      ListsCons(fs);
      TsLineToGo(fs[0]);
      GoFieldLinesCons(TsFieldLine(fs[0]), TsLinesOf(fs[1..]), GoLineOf(JsonFieldOfTs(fs[0])));
      TsLinesToGo(fs[1..]);
    }
  }

  /** The TypeScript emitter, run over the lines the Go emitter wrote, writes the interface
      field for each struct field, in order. */
  lemma {:induction false} GoLinesToTs(fs: seq<JsonField>)
    requires ReadableGoFields(fs)
    ensures TsFieldLines(GoLinesOf(fs)) == TsLinesOf(TsFieldsOfJson(fs))
  {
    if fs != [] {
      JsonListsCons(fs);
      GoLineToTs(fs[0]);
      TsFieldLinesCons(GoLineOf(fs[0]), GoLinesOf(fs[1..]), TsFieldLine(TsFieldOfJson(fs[0])));
      GoLinesToTs(fs[1..]);
    }
  }

  /** Struct fields that survive the trip: the Go emitter, run over their interface lines,
      writes their own lines again. */
  lemma {:induction false} GoLinesSurvive(fs: seq<JsonField>)
    requires forall i :: 0 <= i < |fs| ==> RoundTripGoField(fs[i])
    ensures GoFieldLines(TsLinesOf(TsFieldsOfJson(fs))) == GoLinesOf(fs)
  {
    if fs != [] {
      var tsRest := TsLinesOf(TsFieldsOfJson(fs[1..]));
      calc {
        GoFieldLines(TsLinesOf(TsFieldsOfJson(fs)));
        { JsonListsCons(fs); }
        GoFieldLines([TsFieldLine(TsFieldOfJson(fs[0]))] + tsRest);
        { GoFieldSurvives(fs[0]);
          GoFieldLinesCons(TsFieldLine(TsFieldOfJson(fs[0])), tsRest, GoLineOf(fs[0])); }
        [GoLineOf(fs[0])] + GoFieldLines(tsRest);
        { GoLinesSurvive(fs[1..]); }
        [GoLineOf(fs[0])] + GoLinesOf(fs[1..]);
        { JsonListsCons(fs); }
        GoLinesOf(fs);
      }
    }
  }

  /** Each list built from interface fields starts with what the first field gives. */
  lemma ListsCons(fs: seq<TsField>)
    requires fs != []
    ensures TsLinesOf(fs) == [TsFieldLine(fs[0])] + TsLinesOf(fs[1..])
    ensures GoLinesOf(JsonFieldsOfTs(fs)) == [GoLineOf(JsonFieldOfTs(fs[0]))] + GoLinesOf(JsonFieldsOfTs(fs[1..]))
  {
    var js := JsonFieldsOfTs(fs);
    assert js == [JsonFieldOfTs(fs[0])] + JsonFieldsOfTs(fs[1..]);
    GoLinesCons(js);
    assert js[1..] == JsonFieldsOfTs(fs[1..]);
  }

  /** Each list built from struct fields starts with what the first field gives. */
  lemma JsonListsCons(fs: seq<JsonField>)
    requires fs != []
    ensures GoLinesOf(fs) == [GoLineOf(fs[0])] + GoLinesOf(fs[1..])
    ensures TsLinesOf(TsFieldsOfJson(fs)) == [TsFieldLine(TsFieldOfJson(fs[0]))] + TsLinesOf(TsFieldsOfJson(fs[1..]))
  {
    GoLinesCons(fs);
    var ts := TsFieldsOfJson(fs);
    assert ts == [TsFieldOfJson(fs[0])] + TsFieldsOfJson(fs[1..]);
    TsLinesCons(ts);
    assert ts[1..] == TsFieldsOfJson(fs[1..]);
  }

  lemma GoLinesCons(fs: seq<JsonField>)
    requires fs != []
    ensures GoLinesOf(fs) == [GoLineOf(fs[0])] + GoLinesOf(fs[1..])
  {
  }

  lemma TsLinesCons(fs: seq<TsField>)
    requires fs != []
    ensures TsLinesOf(fs) == [TsFieldLine(fs[0])] + TsLinesOf(fs[1..])
  {
  }

  /** A line that gives a struct field line contributes that line ahead of the rest. */
  lemma GoFieldLinesCons(line: string, rest: seq<string>, out: string)
    requires GoLineFor(line) == Some(out)
    ensures GoFieldLines([line] + rest) == [out] + GoFieldLines(rest)
  {
    assert ([line] + rest)[1..] == rest;
  }

  /** A line that gives an interface field line contributes that line ahead of the rest. */
  lemma TsFieldLinesCons(line: string, rest: seq<string>, out: string)
    requires TsLineFor(line) == Some(out)
    ensures TsFieldLines([line] + rest) == [out] + TsFieldLines(rest)
  {
    assert ([line] + rest)[1..] == rest;
  }

  /** Interface fields that survive the trip: their struct fields give them back, and are
      struct fields the TypeScript emitter reads back whole. */
  lemma TsFieldsSurvive(fs: seq<TsField>)
    requires forall i :: 0 <= i < |fs| ==> RoundTripTsField(fs[i])
    ensures ReadableTsFields(fs)
    ensures ReadableGoFields(JsonFieldsOfTs(fs))
    ensures TsFieldsOfJson(JsonFieldsOfTs(fs)) == fs
  {
    forall i | 0 <= i < |fs|
      ensures fs[i].name != [] && IsWord(fs[i].name) && fs[i].tsType != [] && AllIn(fs[i].tsType, TsType)
      ensures TsFieldOfJson(JsonFieldOfTs(fs[i])) == fs[i]
      ensures GoTypeOf(fs[i].tsType) != [] && AllIn(GoTypeOf(fs[i].tsType), GoTypeOrBrace)
    {
      TsFieldSurvives(fs[i]);
      TsTypeChars(fs[i].tsType);
    }
  }

  /** A surviving TypeScript type is non-empty and in `[\w\[\]]`. */
  lemma TsTypeChars(t: string)
    requires RoundTripTsType(t)
    ensures t != [] && AllIn(t, TsType)
  {
    if RoundTripTsName(t) {
      TsNameChars(t);
    } else {
      TsNameChars(t[..|t| - 2]);
      assert t == t[..|t| - 2] + "[]";
    }
  }

  /** The Go emitter's lines each hold `json:` and no line break. */
  lemma GoLinesFacts(fs: seq<JsonField>)
    requires ReadableGoFields(fs)
    ensures NoNewline(GoLinesOf(fs)) && AllHaveJson(GoLinesOf(fs))
  {
    forall i | 0 <= i < |fs|
      ensures '\n' !in GoLineOf(fs[i]) && Contains(GoLineOf(fs[i]), "json:")
    {
      GoLineFacts(fs[i]);
    }
  }

  /** The TypeScript emitter's lines hold no line break. */
  lemma TsLinesFacts(fs: seq<TsField>)
    requires forall i :: 0 <= i < |fs| ==> '\n' !in fs[i].name && '\n' !in fs[i].tsType
    ensures NoNewline(TsLinesOf(fs))
  {
    forall i | 0 <= i < |fs|
      ensures '\n' !in TsFieldLine(fs[i])
    {
      TsLineFacts(fs[i]);
    }
  }

  /** A text that opens with `interface` does not open as a Go struct. */
  lemma InterfaceIsNotStruct(x: string)
    ensures !IsStructHeader("interface " + x, true)
  {
    InterfaceKeywordOf(x);
    var s := "interface " + x;
    assert s[0..] == s;
    assert ToLower(s[0]) != ToLower("type"[0]);
  }

  /** The interface text the TypeScript emitter writes is trimmed, is an interface and
      not a struct, and the Go emitter converts it to the struct with the same name and the
      struct field lines for its field lines. */
  lemma InterfaceTextReads(name: string, body: seq<string>)
    requires name != [] && IsWord(name) && NoNewline(body)
    ensures Trim(InterfaceText(name, body)) == InterfaceText(name, body)
    ensures !IsStructHeader(InterfaceText(name, body), true)
    ensures IsInterfaceHeader(InterfaceText(name, body))
    ensures TsInterfaceToGo(InterfaceText(name, body)) == StructText(name, GoFieldLines(body))
  {
    var first := "interface " + (name + " {");
    var rest := "\n" + (Unlines(body) + "\n}");
    InterfaceRegrouped(name, body);
    NoNewlineInWord(name);
    LinesOfFramed(first, body);
    FramedIsTrimmed(first, body);
    InterfaceIsNotStruct(name + (" {" + rest));
    InterfaceHeaderOf(name, " {" + rest);
    InterfaceHeaderOf(name, " {" + "");
    FramingLinesDropped(name, " {");
    GoFramingDropped(first, body);
  }

  /** Around a body, an opening line that gives no struct field and the closing line add
      nothing. */
  lemma GoFramingDropped(first: string, body: seq<string>)
    requires GoLineFor(first) == None && GoLineFor("}") == None && GoLineFor("") == None
    ensures GoFieldLines([first] + BodyLines(body) + ["}"]) == GoFieldLines(body)
  {
    GoFieldLinesAppend([first] + BodyLines(body), ["}"]);
    GoFieldLinesAppend([first], BodyLines(body));
    assert [first][1..] == [] && ["}"][1..] == [] && [""][1..] == [];
  }

  /** Around a body, an opening line that gives no interface field and the closing line
      add nothing. */
  lemma TsFramingDropped(first: string, body: seq<string>)
    requires TsLineFor(first) == None && TsLineFor("}") == None && TsLineFor("") == None
    ensures TsFieldLines([first] + BodyLines(body) + ["}"]) == TsFieldLines(body)
  {
    TsFieldLinesAppend([first] + BodyLines(body), ["}"]);
    TsFieldLinesAppend([first], BodyLines(body));
    assert [first][1..] == [] && ["}"][1..] == [] && [""][1..] == [];
  }

  /** The struct text the Go emitter writes, with a tag on every field line, is trimmed,
      is a struct, passes the tag check, and the TypeScript emitter converts it to the
      interface with the same name and the interface field lines for its field lines. */
  lemma StructTextReads(name: string, body: seq<string>)
    requires name != [] && IsWord(name) && NoNewline(body) && AllHaveJson(body)
    ensures Trim(StructText(name, body)) == StructText(name, body)
    ensures IsStructHeader(StructText(name, body), true)
    ensures AllTagged(StructText(name, body))
    ensures GoStructToTs(StructText(name, body)) == InterfaceText(name, TsFieldLines(body))
  {
    var first := StructOpening(name);
    var rest := "\n" + (Unlines(body) + "\n}");
    StructRegrouped(name, body);
    NoNewlineInWord(name);
    LinesOfFramed(first, body);
    FramedIsTrimmed(first, body);
    StructHeaderOf(name, " {" + rest);
    StructNameOf(name, " {");
    HeaderLineDropped(name, " {");
    ClosingLineDropped();
    TsFramingDropped(first, body);
    FramedLinesTagged(first, body);
  }

  /** Every line of a framed body whose lines all hold `json:` passes the tag check. */
  lemma FramedLinesTagged(first: string, body: seq<string>)
    requires AllHaveJson(body)
    ensures AllTaggedFrom(false, [first] + BodyLines(body) + ["}"])
  {
    var rest := BodyLines(body) + ["}"];
    BodyLinesAccepted(body);
    AcceptedFromAnyState(NextState(false, first), rest);
    assert ([first] + BodyLines(body) + ["}"])[1..] == rest;
  }

  /** The body lines and the closing line are rejected in neither state. */
  lemma BodyLinesAccepted(body: seq<string>)
    requires AllHaveJson(body)
    ensures var rest := BodyLines(body) + ["}"];
      forall i :: 0 <= i < |rest| ==> !Untagged(false, rest[i]) && !Untagged(true, rest[i])
  {
    var rest := BodyLines(body) + ["}"];
    forall i | 0 <= i < |rest|
      ensures !Untagged(false, rest[i]) && !Untagged(true, rest[i])
    {
      if i == |rest| - 1 {
        ClosingLineAccepted();
      } else if body == [] {
        BlankLineAccepted();
      } else {
        assert rest[i] == body[i];
      }
    }
  }

  lemma BlankLineAccepted()
    ensures !Untagged(false, "") && !Untagged(true, "")
  {
    var e: string := [];
    assert Span(e, Space) == 0 && e[0..] == e && Span(e, Word) == 0;
    assert MatchFieldHead(e, GoType) == None;
  }

  lemma ClosingLineAccepted()
    ensures !Untagged(false, "}") && !Untagged(true, "}")
  {
    assert TrimStart("}") == "}";
  }

  /** Lines rejected in neither state pass the check from either state. */
  lemma {:induction false} AcceptedFromAnyState(inStruct: bool, lines: seq<string>)
    requires forall i :: 0 <= i < |lines| ==> !Untagged(false, lines[i]) && !Untagged(true, lines[i])
    ensures AllTaggedFrom(inStruct, lines)
    decreases |lines|
  {
    if lines != [] {
      AcceptedFromAnyState(NextState(inStruct, lines[0]), lines[1..]);
    }
  }

  /** TypeScript to Go and back: an interface of non-optional fields with surviving names
      and types converts to the struct of their tagged fields, and that struct, whatever
      the tag-check setting, converts back to the very same interface text. */
  lemma TsGoTsRoundTrip(name: string, fs: seq<TsField>, enableJsonTagCheck: bool)
    requires name != [] && IsWord(name)
    requires forall i :: 0 <= i < |fs| ==> RoundTripTsField(fs[i])
    ensures var ts := InterfaceText(name, TsLinesOf(fs));
      var go := StructText(name, GoLinesOf(JsonFieldsOfTs(fs)));
      Convert(ts, enableJsonTagCheck) == Outcome(go, None) &&
      Convert(go, enableJsonTagCheck) == Outcome(ts, None)
  {
    var js := JsonFieldsOfTs(fs);
    TsFieldsSurvive(fs);
    TsLinesNoNewline(fs);
    GoLinesFacts(js);
    InterfaceTextReads(name, TsLinesOf(fs));
    TsLinesToGo(fs);
    StructTextReads(name, GoLinesOf(js));
    GoLinesToTs(js);
  }

  /** Go to TypeScript and back: a struct of tagged fields with surviving JSON names and
      types, each named by its JSON name in camel case, converts to the interface of their
      fields, and that interface converts back to the very same struct text. */
  lemma GoTsGoRoundTrip(name: string, fs: seq<JsonField>, enableJsonTagCheck: bool)
    requires name != [] && IsWord(name)
    requires forall i :: 0 <= i < |fs| ==> RoundTripGoField(fs[i])
    ensures var go := StructText(name, GoLinesOf(fs));
      var ts := InterfaceText(name, TsLinesOf(TsFieldsOfJson(fs)));
      Convert(go, enableJsonTagCheck) == Outcome(ts, None) &&
      Convert(ts, enableJsonTagCheck) == Outcome(go, None)
  {
    GoFieldsReadable(fs);
    GoLinesFacts(fs);
    StructTextReads(name, GoLinesOf(fs));
    GoLinesToTs(fs);
    InterfaceTextReads(name, TsLinesOf(TsFieldsOfJson(fs)));
    GoLinesSurvive(fs);
  }

  /** Surviving interface fields are written on lines without a line break. */
  lemma TsLinesNoNewline(fs: seq<TsField>)
    requires ReadableTsFields(fs)
    ensures NoNewline(TsLinesOf(fs))
  {
    assert !IsWordChar('\n') && !InClass('\n', TsType);
    TsLinesFacts(fs);
  }

  /** Surviving struct fields are read back whole, and their interface fields are written
      on lines without a line break. */
  lemma GoFieldsReadable(fs: seq<JsonField>)
    requires forall i :: 0 <= i < |fs| ==> RoundTripGoField(fs[i])
    ensures ReadableGoFields(fs)
    ensures NoNewline(TsLinesOf(TsFieldsOfJson(fs)))
  {
    assert !IsWordChar('\n') && !InClass('\n', TsType);
    forall i | 0 <= i < |fs|
      ensures fs[i].goType != [] && AllIn(fs[i].goType, GoTypeOrBrace)
      ensures '\n' !in TsFieldOfJson(fs[i]).name && '\n' !in TsFieldOfJson(fs[i]).tsType
    {
      GoTypeSurvives(fs[i].goType);
      var b := TsTypeOf(fs[i].goType, false);
      assert '\n' !in b;
    }
    TsLinesFacts(TsFieldsOfJson(fs));
  }
}
