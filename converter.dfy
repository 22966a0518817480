/** The entry point of the converter (src/extension.ts, convert): trim the selection,
    recognise a Go struct or a TypeScript interface by its opening, and convert it; for Go,
    first run the JSON-tag check and, when it fails, return the struct with tags added
    instead of an interface. */
module Converter {
  import opened Text
  import opened GoSyntax
  import opened TsSyntax
  import opened JsonTags
  import opened GoToTs
  import opened TsToGo

  /** What convert returns: the converted text and, when nothing was converted, why. */
  datatype Outcome = Outcome(result: string, error: Option<string>)

  const EmptySelection: string := "Select a Go struct or TS interface."
  const NotRecognised: string := "Not a Go struct or TS interface."

  /** What convert returns for a text and the tag-check setting. Go is recognised first,
      both openings case-insensitively. */
  function Convert(text: string, enableJsonTagCheck: bool): Outcome {
    var trimmed := Trim(text);
    if trimmed == [] then Outcome("", Some(EmptySelection))
    else if IsStructHeader(trimmed, true) then
      if enableJsonTagCheck && !AllTagged(trimmed) then Outcome(AddedTags(trimmed), None)
      else Outcome(GoStructToTs(trimmed), None)
    else if IsInterfaceHeader(trimmed) then Outcome(TsInterfaceToGo(trimmed), None)
    else Outcome("", Some(NotRecognised))
  }

  /** convert, calling the passes as the source does. */
  method ConvertText(text: string, enableJsonTagCheck: bool) returns (o: Outcome)
    ensures o == Convert(text, enableJsonTagCheck)
  {
    var trimmed := Trim(text);
    if trimmed == [] {
      return Outcome("", Some(EmptySelection));
    }
    var isGo := IsStructHeader(trimmed, true);
    var isTs := IsInterfaceHeader(trimmed);
    if isGo {
      if enableJsonTagCheck {
        var hasAllJsonTags := CheckAllFieldsHaveJsonTags(trimmed);
        if !hasAllJsonTags {
          var tagged := AddMissingJsonTags(trimmed);
          return Outcome(tagged, None);
        }
      }
      var ts := GoStructToTsInterface(trimmed);
      return Outcome(ts, None);
    } else if isTs {
      var go := TsInterfaceToGoStruct(trimmed);
      return Outcome(go, None);
    }
    return Outcome("", Some(NotRecognised));
  }

  /** The selection message, with an empty result, comes exactly for a text that is all
      whitespace. */
  lemma BlankSelection(text: string, enableJsonTagCheck: bool)
    ensures Convert(text, enableJsonTagCheck).error == Some(EmptySelection) <==>
              forall i :: 0 <= i < |text| ==> IsSpace(text[i])
    ensures Convert(text, enableJsonTagCheck).error == Some(EmptySelection) ==>
              Convert(text, enableJsonTagCheck).result == ""
  {
    TrimEmptyIff(text);
    assert EmptySelection[0] != NotRecognised[0];
  }

  /** The other message, with an empty result, comes exactly for a text that opens as
      neither a Go struct nor a TypeScript interface; any other text gives no error. */
  lemma Unrecognised(text: string, enableJsonTagCheck: bool)
    ensures Convert(text, enableJsonTagCheck).error == Some(NotRecognised) <==>
              Trim(text) != [] && !IsStructHeader(Trim(text), true) && !IsInterfaceHeader(Trim(text))
    ensures Convert(text, enableJsonTagCheck).error.Some? ==> Convert(text, enableJsonTagCheck).result == ""
    ensures Convert(text, enableJsonTagCheck).error.None? <==>
              Trim(text) != [] && (IsStructHeader(Trim(text), true) || IsInterfaceHeader(Trim(text)))
  {
    assert EmptySelection[0] != NotRecognised[0];
  }

  /** With the check on, a Go struct with an untagged exported field comes back as Go with
      tags added: the same number of lines, the same first line, and so not an interface. */
  lemma TagGate(text: string)
    requires IsStructHeader(Trim(text), true) && !AllTagged(Trim(text))
    ensures Convert(text, true) == Outcome(AddedTags(Trim(text)), None)
    ensures |Lines(Convert(text, true).result)| == |Lines(Trim(text))|
    ensures Lines(Convert(text, true).result)[0] == Lines(Trim(text))[0]
    ensures !IsInterfaceHeader(Convert(text, true).result)
  {
    var trimmed := Trim(text);
    var lines := Lines(trimmed);
    var out := AddedTags(trimmed);
    AddedTagsLines(trimmed);
    RepairAt(false, lines, 0);
    RepairedLineFacts(false, lines[0]);
    assert Lines(out)[0] == lines[0];
    GatedTextIsNotInterface(text, out);
  }

  /** A text whose first line is that of a trimmed Go struct opening is no interface: it
      begins with `t`, not `i`. */
  lemma GatedTextIsNotInterface(text: string, out: string)
    requires IsStructHeader(Trim(text), true)
    requires Lines(out)[0] == Lines(Trim(text))[0]
    ensures !IsInterfaceHeader(out)
  {
    var trimmed := Trim(text);
    var a, b := TrimIsSlice(text);
    assert trimmed != [] && trimmed[0] == text[a];
    assert Span(trimmed, Space) == 0;
    assert trimmed[0..] == trimmed;
    assert ToLower(trimmed[0]) == 't';
    SplitFirstChar(trimmed, '\n');
    SplitFirstChar(out, '\n');
    assert out[0] == trimmed[0];
    assert Span(out, Space) == 0;
    assert out[0..] == out;
  }

  /** With the check off, or when every field is tagged, a Go struct becomes an
      interface. */
  lemma NoGate(text: string)
    requires IsStructHeader(Trim(text), true)
    ensures Convert(text, false) == Outcome(GoStructToTs(Trim(text)), None)
    ensures AllTagged(Trim(text)) ==> Convert(text, true) == Convert(text, false)
  {
  }

  /** The Go struct the check and the rewrite disagree on: one exported field of type
      `interface{}` and no tag. */
  function InterfaceFieldStruct(name: string, field: string): string {
    StructText(name, ["\t" + (field + " interface{}")])
  }

  /** The check rejects the `interface{}` field, the rewrite, whose type pattern stops at
      `{`, leaves every line as it was, so with the check on convert hands the struct back
      unchanged, with no error, and converting the result again does the same. */
  lemma InterfaceFieldIsStuck(name: string, field: string)
    requires name != [] && IsWord(name)
    requires field != [] && IsWord(field) && IsUpper(field[0])
    ensures Convert(InterfaceFieldStruct(name, field), true) == Outcome(InterfaceFieldStruct(name, field), None)
  {
    var text := InterfaceFieldStruct(name, field);
    StuckStructShape(name, field);
    StuckStructOpens(name, field);
    StuckStructFlagged(name, field);
    StuckStructKept(name, field);
    JoinSplit(text, '\n');
  }

  /** The struct is trimmed and has three lines. */
  lemma StuckStructShape(name: string, field: string)
    requires name != [] && IsWord(name)
    requires IsWord(field)
    ensures var text := InterfaceFieldStruct(name, field);
      Trim(text) == text && Lines(text) == [StructOpening(name), "\t" + (field + " interface{}"), "}"]
  {
    var header := StructOpening(name);
    var line := "\t" + (field + " interface{}");
    NoNewlineInWord(name);
    NoNewlineInWord(field);
    assert '\n' !in line;
    LinesOfFramed(header, [line]);
    FramedIsTrimmed(header, [line]);
  }

  /** The opening of the struct, with or without the rest of the text, is a Go struct
      opening. */
  lemma StuckStructOpens(name: string, field: string)
    requires name != [] && IsWord(name)
    ensures IsStructHeader(StructOpening(name), false)
    ensures IsStructHeader(InterfaceFieldStruct(name, field), true)
  {
    var line := "\t" + (field + " interface{}");
    var rest := "\n" + (Unlines([line]) + "\n}");
    StructHeaderOf(name, " {");
    StructHeaderOf(name, " {" + rest);
    StructRegrouped(name, [line]);
  }

  /** The check stops at the field line. */
  lemma StuckStructFlagged(name: string, field: string)
    requires name != [] && IsWord(name)
    requires field != [] && IsWord(field) && IsUpper(field[0])
    ensures !AllTaggedFrom(false, [StructOpening(name), "\t" + (field + " interface{}"), "}"])
  {
    var lines := [StructOpening(name), "\t" + (field + " interface{}"), "}"];
    StuckStructOpens(name, field);
    assert StateBefore(false, lines, 1) == NextState(false, lines[0]) by {
      assert lines[1..][0] == lines[1];
    }
    InterfaceFieldFlagged("\t", field);
    AllTaggedIff(false, lines);
  }

  /** The rewrite keeps all three lines. */
  lemma StuckStructKept(name: string, field: string)
    requires name != [] && IsWord(name)
    requires field != [] && IsWord(field)
    ensures var lines := [StructOpening(name), "\t" + (field + " interface{}"), "}"];
      RepairFrom(false, lines) == lines
  {
    var header := StructOpening(name);
    var line := "\t" + (field + " interface{}");
    StuckStructOpens(name, field);
    assert NextState(false, header);
    OutsideStructKept(header);
    InterfaceFieldNotRewritten("\t", field);
    ClosingLineKept(NextState(true, line));
    ThreeKept(header, line, "}");
  }

  /** A struct whose opening spans two lines is still a Go struct, but its first line
      names none, so the interface is named `Converted`. */
  lemma DefaultNameReachable(name: string)
    requires name != [] && IsWord(name)
    ensures Convert(TwoLineStruct(name), false)
      == Outcome(InterfaceText("Converted", TsFieldLines(Lines(TwoLineStruct(name)))), None)
  {
    TwoLineStructReads(name);
    DefaultStructName();
  }

  /** An empty struct whose keyword stands on a line of its own. */
  function TwoLineStruct(name: string): string {
    "type\n" + (name + (" struct" + " {\n}"))
  }

  lemma TwoLineStructReads(name: string)
    requires name != [] && IsWord(name)
    ensures Trim(TwoLineStruct(name)) == TwoLineStruct(name)
    ensures IsStructHeader(TwoLineStruct(name), true)
    ensures Lines(TwoLineStruct(name))[0] == "type"
  {
    TwoLineStructTrimmed(name);
    HeaderAcrossLines(name, " {\n}");
    TwoLineStructFirstLine(name);
  }

  lemma TwoLineStructTrimmed(name: string)
    ensures Trim(TwoLineStruct(name)) == TwoLineStruct(name)
  {
    var text := TwoLineStruct(name);
    assert text[0] == 't' && text[|text| - 1] == '}';
    TrimOfUnpadded(text);
  }

  lemma TwoLineStructFirstLine(name: string)
    ensures Lines(TwoLineStruct(name))[0] == "type"
  {
    var rest := name + (" struct" + " {\n}");
    assert TwoLineStruct(name) == "type" + ['\n'] + rest;
    SplitAfterPart("type", '\n', rest);
  }

  /** A struct opening that spells `type` with a capital, such as `Type Name struct {`. */
  function KeywordOpening(kw: string, name: string): string {
    kw + (" " + (name + " struct {"))
  }

  /** convert recognises a Go struct case-insensitively, but the tag check and the repair
      only enter a struct at a lower-case `type`. A struct opened with `Type` (or `TYPE`)
      therefore passes the check whatever its fields, and the emitter, which reads every
      line, also reads the opening line as a field: named after the keyword with its first
      letter lowered, typed by the struct's name. */
  lemma CapitalisedHeaderSkipsGate(kw: string, name: string, body: seq<string>)
    requires |kw| == 4 && IsWord(kw) && IsUpper(kw[0]) && StartsWithIgnoringCase(kw, "type")
    requires name != [] && IsWord(name)
    requires NoNewline(body) && forall i :: 0 <= i < |body| ==> !IsStructHeader(body[i], false)
    ensures var text := Framed(KeywordOpening(kw, name), body);
      AllTagged(text) && Convert(text, true) == Outcome(GoStructToTs(text), None) &&
      GoStructToTs(text)
        == InterfaceText(name, [TsFieldLine(TsField(LowerFirst(kw), false, TsTypeOf(name, false)))]
                               + TsFieldLines(BodyLines(body)))
  {
    var header := KeywordOpening(kw, name);
    var text := Framed(header, body);
    KeywordOpeningShape(kw, name, body);
    LinesOfFramed(header, body);
    FramedIsTrimmed(header, body);
    KeywordOpeningLinesFlat(kw, name, body);
    NoHeaderNoStruct(Lines(text));
    KeywordOpeningFields(kw, name, body);
  }

  /** The opening is one line, the text is a Go struct to convert, and its first line
      names the struct. */
  lemma KeywordOpeningShape(kw: string, name: string, body: seq<string>)
    requires |kw| == 4 && IsWord(kw) && StartsWithIgnoringCase(kw, "type")
    requires name != [] && IsWord(name)
    ensures '\n' !in KeywordOpening(kw, name)
    ensures IsStructHeader(Framed(KeywordOpening(kw, name), body), true)
    ensures StructName(KeywordOpening(kw, name)) == name
  {
    var rest := "\n" + (Unlines(body) + "\n}");
    var tail := "struct {" + rest;
    OpeningPieces(" ", " struct {", "struct {", " {");
    NoNewlineInWord(kw);
    NoNewlineInWord(name);
    assert Framed(KeywordOpening(kw, name), body) == "" + (kw + (" " + (name + (" " + tail))));
    assert tail[..6] == "struct" && tail[6] == ' ';
    ExactPrefixIgnoringCase(tail, "struct");
    StructHeaderIff("", kw, " ", name, " ", tail, true);
    StructNameAfterKeyword(kw, name, " {");
  }

  lemma OpeningPieces(sp: string, opening: string, word: string, brace: string)
    requires sp == " " && opening == " struct {" && word == "struct {" && brace == " {"
    ensures '\n' !in sp && '\n' !in opening && AllIn(sp, Space)
    ensures opening == sp + word && opening == " struct" + brace
  {
  }

  /** No line of the text opens a struct as the check and the repair see it. */
  lemma KeywordOpeningLinesFlat(kw: string, name: string, body: seq<string>)
    requires |kw| == 4 && IsUpper(kw[0])
    requires forall i :: 0 <= i < |body| ==> !IsStructHeader(body[i], false)
    ensures var lines := [KeywordOpening(kw, name)] + BodyLines(body) + ["}"];
      forall i :: 0 <= i < |lines| ==> !IsStructHeader(lines[i], false)
  {
    var lines := [KeywordOpening(kw, name)] + BodyLines(body) + ["}"];
    CapitalisedIsNotHeader("", KeywordOpening(kw, name));
    assert "" + KeywordOpening(kw, name) == KeywordOpening(kw, name);
    FramingLinesNoHeaders("}", "");
    forall i | 0 <= i < |lines| ensures !IsStructHeader(lines[i], false) {
      if 0 < i < |lines| - 1 {
        assert lines[i] == BodyLines(body)[i - 1];
      }
    }
  }

  lemma FramingLinesNoHeaders(close: string, blank: string)
    requires close == "}" && blank == ""
    ensures !IsStructHeader(close, false) && !IsStructHeader(blank, false)
  {
    assert Span(close, Space) == 0 && close[0..] == close;
    FirstCharRules(close, "type");
  }

  /** The emitter's field lines: one for the opening line, then the body's. */
  lemma KeywordOpeningFields(kw: string, name: string, body: seq<string>)
    requires |kw| == 4 && IsWord(kw) && IsUpper(kw[0])
    requires name != [] && IsWord(name)
    ensures TsFieldLines([KeywordOpening(kw, name)] + BodyLines(body) + ["}"])
      == [TsFieldLine(TsField(LowerFirst(kw), false, TsTypeOf(name, false)))] + TsFieldLines(BodyLines(body))
  {
    var header := KeywordOpening(kw, name);
    OpeningPieces(" ", " struct {", "struct {", " {");
    assert header == kw + (" " + (name + (" struct" + " {")));
    KeywordLineField(kw, name, " {");
    ClosingLineDropped();
    TsFieldLinesAppend([header] + BodyLines(body), ["}"]);
    TsFieldLinesAppend([header], BodyLines(body));
    assert [header][1..] == [] && ["}"][1..] == [];
  }

  /** `Type` is such a spelling, and its field is named `type`. */
  lemma CapitalisedTypeSpelling(kw: string)
    requires kw == "Type"
    ensures |kw| == 4 && IsWord(kw) && IsUpper(kw[0]) && StartsWithIgnoringCase(kw, "type")
    ensures LowerFirst(kw) == "type"
  {
  }
}
