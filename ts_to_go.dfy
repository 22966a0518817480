/** The TypeScript-to-Go emitter (src/extension.ts, tsInterfaceToGoStruct): every line
    that reads as an interface field gives one tagged struct field, in input order. */
module TsToGo {
  import opened Text
  import opened TypeMapping
  import opened CaseConversion
  import opened GoSyntax
  import opened TsSyntax
  import opened GoToTs

  /** The Go type for a TypeScript type: a trailing `[]` becomes a leading `[]` around the
      mapped element type; any other type is mapped whole. */
  function GoTypeOf(tsType: string): string {
    if EndsWith(tsType, "[]") then "[]" + ReverseMapTsType(tsType[..|tsType| - 2])
    else ReverseMapTsType(tsType)
  }

  /** The tag text inside `json:"…"`: the TypeScript name, with `,omitempty` for `?`. */
  function JsonTagOf(tsName: string, optional: bool): string {
    if optional then tsName + ",omitempty" else tsName
  }

  /** What one input line contributes: the struct field line for the interface field the
      line holds, if any. */
  function GoLineFor(line: string): Option<string> {
    match ParseTsField(line)
    case None => None
    case Some(f) => Some(TaggedFieldLine(ToCamelCase(f.name), GoTypeOf(f.tsType), JsonTagOf(f.name, f.optional)))
  }

  /** The field lines pushed for a run of input lines, in order. */
  function GoFieldLines(lines: seq<string>): seq<string> {
    if lines == [] then []
    else
      match GoLineFor(lines[0])
      case Some(l) => [l] + GoFieldLines(lines[1..])
      case None => GoFieldLines(lines[1..])
  }

  /** Pushing over two runs of lines is pushing over each, in order. */
  lemma {:induction false} GoFieldLinesAppend(a: seq<string>, b: seq<string>)
    ensures GoFieldLines(a + b) == GoFieldLines(a) + GoFieldLines(b)
  {
    if a == [] {
      assert a + b == b;
    } else {
      assert (a + b)[1..] == a[1..] + b;
      GoFieldLinesAppend(a[1..], b);
    }
  }

  /** The first line of the struct text. */
  function StructOpening(name: string): string {
    "type " + (name + " struct {")
  }

  /** `type ${name} struct {\n${fields.join("\n")}\n}`. */
  function StructText(name: string, body: seq<string>): string {
    Framed(StructOpening(name), body)
  }

  /** The opening line and the whole text of a struct, regrouped around the name. */
  lemma StructRegrouped(name: string, body: seq<string>)
    ensures StructOpening(name) == "type " + (name + (" struct" + " {"))
    ensures StructText(name, body) == "type " + (name + (" struct" + (" {" + ("\n" + (Unlines(body) + "\n}")))))
  {
  }

  /** What tsInterfaceToGoStruct returns. */
  function TsInterfaceToGo(input: string): string {
    var lines := Lines(input);
    StructText(InterfaceName(lines[0]), GoFieldLines(lines))
  }

  /** The body of tsInterfaceToGoStruct's loop for one line. */
  method StructLineFor(line: string) returns (pushed: Option<string>)
    ensures pushed == GoLineFor(line)
  {
    var field := ParseTsField(line);
    if field.None? {
      return None;
    }
    var f := field.value;
    var goType;
    if EndsWith(f.tsType, "[]") {
      var elemType := ReverseMapTsType(f.tsType[..|f.tsType| - 2]);
      goType := "[]" + elemType;
    } else {
      goType := ReverseMapTsType(f.tsType);
    }
    var jsonTag := if f.optional then f.name + ",omitempty" else f.name;
    var goFieldName := ToCamelCase(f.name);
    return Some(TaggedFieldLine(goFieldName, goType, jsonTag));
  }

  /** tsInterfaceToGoStruct: one pass over the lines, pushing field lines. */
  method TsInterfaceToGoStruct(input: string) returns (out: string)
    ensures out == TsInterfaceToGo(input)
  {
    var lines := Lines(input);
    var structName := InterfaceName(lines[0]);
    var goFields: seq<string> := [];
    var i := 0;
    while i < |lines|
      invariant 0 <= i <= |lines|
      invariant GoFieldLines(lines) == goFields + GoFieldLines(lines[i..])
    {
      assert lines[i..][1..] == lines[i + 1..];
      var pushed := StructLineFor(lines[i]);
      if pushed.Some? {
        goFields := goFields + [pushed.value];
      }
      i := i + 1;
    }
    assert lines[i..] == [];
    assert goFields == GoFieldLines(lines);
    out := StructText(structName, goFields);
  }

  /** The Go type written for a field is a type the Go reader accepts. */
  lemma GoTypeIsTypeText(tsType: string)
    requires tsType != [] && AllIn(tsType, TsType)
    ensures GoTypeOf(tsType) != [] && AllIn(GoTypeOf(tsType), GoTypeOrBrace)
  {
    if EndsWith(tsType, "[]") {
      var e := tsType[..|tsType| - 2];
      ReverseMapKeepsTypeChars(e);
      var g := "[]" + ReverseMapTsType(e);
      assert forall i :: 2 <= i < |g| ==> g[i] == ReverseMapTsType(e)[i - 2];
    } else {
      ReverseMapKeepsTypeChars(tsType);
    }
  }

  /** A trailing `[]` becomes a leading `[]`: `number[]` is `[]int`. */
  lemma ArrayBecomesSlice(elem: string)
    ensures GoTypeOf(elem + "[]") == "[]" + ReverseMapTsType(elem)
  {
    var t := elem + "[]";
    assert t[|t| - 2..] == "[]" && t[..|t| - 2] == elem;
  }

  /** The tag the Go emitter writes reads back as the TypeScript name, and marks the field
      optional exactly when it had `?` (unless the name is one of the two option words). */
  lemma JsonTagReadsBack(tsName: string, optional: bool)
    requires IsWord(tsName) && tsName != "omitempty" && tsName != "omitzero"
    ensures TagName(JsonTagOf(tsName, optional)) == tsName
    ensures TagOmits(JsonTagOf(tsName, optional)) <==> optional
  {
    assert !IsWordChar(',');
    if optional {
      OmitEmptyTag(tsName);
    } else {
      PlainTag(tsName);
    }
  }

  /** Every interface field line becomes a struct field line, which the Go reader reads
      back as a field named in camel case, with the mapped type and the tag. */
  lemma GoLineRule(line: string)
    requires ParseTsField(line).Some?
    ensures var f := ParseTsField(line).value;
      GoLineFor(line).Some? &&
      ParseGoField(GoLineFor(line).value)
        == Some(GoField(ToCamelCase(f.name), GoTypeOf(f.tsType), Some(JsonTagOf(f.name, f.optional))))
  {
    var f := ParseTsField(line).value;
    GoTypeIsTypeText(f.tsType);
    CamelFacts(f.name);
    var tag := JsonTagOf(f.name, f.optional);
    JsonTagShape(f.name, f.optional);
    ParseTaggedFieldLine(ToCamelCase(f.name), GoTypeOf(f.tsType), tag);
  }

  /** The tag for a word is non-empty and holds no backtick. */
  lemma JsonTagShape(tsName: string, optional: bool)
    requires tsName != [] && IsWord(tsName)
    ensures JsonTagOf(tsName, optional) != [] && '`' !in JsonTagOf(tsName, optional)
  {
    assert !IsWordChar('`');
  }

  /** The interface's opening and closing lines give no struct field. */
  lemma FramingLinesDropped(name: string, tail: string)
    requires name != [] && IsWord(name)
    ensures GoLineFor("interface " + (name + tail)) == None
    ensures GoLineFor("}") == None && GoLineFor("") == None
  {
    HeaderIsNoField(name, tail);
  }
}
