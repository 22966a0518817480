/** The JSON-tag passes over a Go struct (src/extension.ts, checkAllFieldsHaveJsonTags and
    addMissingJsonTags). Both walk the lines with an `inStruct` flag that a struct header
    sets and a `}` line inside a struct clears; both test the header case-sensitively. */
module JsonTags {
  import opened Text
  import opened CaseConversion
  import opened GoSyntax

  /** The `inStruct` flag after a line. */
  function NextState(inStruct: bool, line: string): bool {
    if IsStructHeader(line, false) then true
    else if inStruct && Trim(line) == "}" then false
    else inStruct
  }

  /** A line checkAllFieldsHaveJsonTags rejects: inside a struct, not a header or closing
      line, starting like a field (`^\s*(\w+)\s+([\w\[\]\*\.]+)`), with no `json:` anywhere
      and a capitalised name. */
  predicate Untagged(inStruct: bool, line: string) {
    inStruct && !IsStructHeader(line, false) && Trim(line) != "}" &&
    match MatchFieldHead(line, GoType)
    case None => false
    case Some(h) => !Contains(line, "json:") && IsUpper(h.name[0])
  }

  /** No line from here on, starting in state `inStruct`, is rejected. */
  predicate AllTaggedFrom(inStruct: bool, lines: seq<string>)
    decreases |lines|
  {
    lines == [] || (!Untagged(inStruct, lines[0]) && AllTaggedFrom(NextState(inStruct, lines[0]), lines[1..]))
  }

  /** What checkAllFieldsHaveJsonTags returns. */
  predicate AllTagged(input: string) {
    AllTaggedFrom(false, Lines(input))
  }

  /** The comment group of a rewritten line, after one more space, or nothing. */
  function CommentSuffix(rest: string): string {
    if rest == [] then "" else " " + rest
  }

  /** The line addMissingJsonTags writes for a field: indentation, name, one space, type,
      one space, the tag with the snake-case name, then the comment, if any. */
  function WithTag(h: FieldHead): string {
    h.indent + (h.name + (" " + (h.goType + (" " + (TagOpen + (ToSnakeCase(h.name) + ("\"`" + CommentSuffix(h.rest))))))))
  }

  /** What addMissingJsonTags pushes for one line. Only an exported field line of a struct
      body without `json:` that is a whole field line (`...(\s*\/\/.*)?$`) is rewritten;
      every other line is kept as it is. */
  function RepairedLine(inStruct: bool, line: string): string {
    if IsStructHeader(line, false) then line
    else if inStruct && Trim(line) == "}" then line
    else if inStruct && !Contains(line, "json:") then
      match MatchFieldLineWithComment(line)
      case None => line
      case Some(h) => if IsUpper(h.name[0]) then WithTag(h) else line
    else line
  }

  /** The repair is local: a line outside a struct body, a line holding `json:` and a line
      that does not start like an exported field come out as they went in; a line that
      changes is an exported whole field line, rewritten with its tag. */
  lemma RepairedLineFacts(inStruct: bool, line: string)
    ensures !inStruct ==> RepairedLine(inStruct, line) == line
    ensures Contains(line, "json:") ==> RepairedLine(inStruct, line) == line
    ensures (match MatchFieldHead(line, GoType) case None => true case Some(h) => !IsUpper(h.name[0])) ==>
              RepairedLine(inStruct, line) == line
    ensures RepairedLine(inStruct, line) != line ==>
              inStruct && MatchFieldLineWithComment(line).Some? && IsUpper(MatchFieldLineWithComment(line).value.name[0])
              && RepairedLine(inStruct, line) == WithTag(MatchFieldLineWithComment(line).value)
  {
  }

  /** The lines addMissingJsonTags pushes from here on, starting in state `inStruct`. */
  function RepairFrom(inStruct: bool, lines: seq<string>): (r: seq<string>)
    ensures |r| == |lines|
    decreases |lines|
  {
    if lines == [] then []
    else [RepairedLine(inStruct, lines[0])] + RepairFrom(NextState(inStruct, lines[0]), lines[1..])
  }

  /** What addMissingJsonTags returns. */
  function AddedTags(input: string): string {
    Unlines(RepairFrom(false, Lines(input)))
  }

  /** checkAllFieldsHaveJsonTags: stop at the first rejected line. */
  method CheckAllFieldsHaveJsonTags(input: string) returns (ok: bool)
    ensures ok == AllTagged(input)
  {
    var lines := Lines(input);
    var inStruct := false;
    var i := 0;
    while i < |lines|
      invariant 0 <= i <= |lines|
      invariant AllTagged(input) == AllTaggedFrom(inStruct, lines[i..])
    {
      var line := lines[i];
      assert lines[i..][1..] == lines[i + 1..];
      if IsStructHeader(line, false) {
        inStruct := true;
      } else if inStruct && Trim(line) == "}" {
        inStruct := false;
      } else {
        var field := MatchFieldHead(line, GoType);
        if inStruct && field.Some? && !Contains(line, "json:") && IsUpper(field.value.name[0]) {
          return false;
        }
      }
      i := i + 1;
    }
    assert lines[i..] == [];
    return true;
  }

  /** The body of addMissingJsonTags's loop for one line: the line it pushes and the
      `inStruct` flag after it. */
  method RepairLine(inStruct: bool, line: string) returns (pushed: string, next: bool)
    ensures pushed == RepairedLine(inStruct, line)
    ensures next == NextState(inStruct, line)
  {
    if IsStructHeader(line, false) {
      return line, true;
    }
    if inStruct && Trim(line) == "}" {
      return line, false;
    }
    var m := MatchFieldLineWithComment(line);
    if inStruct && m.Some? && !Contains(line, "json:") {
      var h := m.value;
      if IsUpper(h.name[0]) {
        var jsonName := ToSnakeCase(h.name);
        var fieldIndent := line[..Span(line, Space)];
        var comment := if h.rest == [] then "" else " " + h.rest;
        return fieldIndent + (h.name + (" " + (h.goType + (" " + (TagOpen + (jsonName + ("\"`" + comment))))))), inStruct;
      }
    }
    return line, inStruct;
  }

  /** The state in which the line at index `k` is read. */
  function StateBefore(inStruct: bool, lines: seq<string>, k: nat): bool
    requires k <= |lines|
    decreases k
  {
    if k == 0 then inStruct else StateBefore(NextState(inStruct, lines[0]), lines[1..], k - 1)
  }

  /** The line at index `k` of the output is the line at index `k` of the input, repaired
      in the state the pass has reached there. With RepairedLineFacts: a line outside a
      struct body, a line holding `json:` and an unexported field line come out as they
      went in. */
  lemma {:induction false} RepairAt(inStruct: bool, lines: seq<string>, k: nat)
    requires k < |lines|
    ensures RepairFrom(inStruct, lines)[k] == RepairedLine(StateBefore(inStruct, lines, k), lines[k])
    decreases k
  {
    if k > 0 {
      var next := NextState(inStruct, lines[0]);
      RepairAt(next, lines[1..], k - 1);
      calc {
        RepairFrom(inStruct, lines)[k];
        RepairFrom(next, lines[1..])[k - 1];
        RepairedLine(StateBefore(next, lines[1..], k - 1), lines[1..][k - 1]);
        { assert lines[1..][k - 1] == lines[k]; }
        RepairedLine(StateBefore(inStruct, lines, k), lines[k]);
      }
    }
  }

  /** The state after line `k` is the state before it, moved by that line. */
  lemma {:induction false} StateBeforeNext(inStruct: bool, lines: seq<string>, k: nat)
    requires k < |lines|
    ensures StateBefore(inStruct, lines, k + 1) == NextState(StateBefore(inStruct, lines, k), lines[k])
    decreases k
  {
    if k > 0 {
      var next := NextState(inStruct, lines[0]);
      StateBeforeNext(next, lines[1..], k - 1);
      assert lines[1..][k - 1] == lines[k];
    }
  }

  /** One iteration of addMissingJsonTags keeps its loop invariant. */
  lemma RepairStep(lines: seq<string>, i: nat, result: seq<string>, inStruct: bool, pushed: string, next: bool)
    requires i < |lines|
    requires result == RepairFrom(false, lines)[..i] && inStruct == StateBefore(false, lines, i)
    requires pushed == RepairedLine(inStruct, lines[i]) && next == NextState(inStruct, lines[i])
    ensures result + [pushed] == RepairFrom(false, lines)[..i + 1]
    ensures next == StateBefore(false, lines, i + 1)
  {
    RepairAt(false, lines, i);
    StateBeforeNext(false, lines, i);
  }

  /** addMissingJsonTags: one pass over the lines, pushing each line or its rewrite. */
  method AddMissingJsonTags(input: string) returns (out: string)
    ensures out == AddedTags(input)
  {
    var lines := Lines(input);
    var result: seq<string> := [];
    var inStruct := false;
    var i := 0;
    while i < |lines|
      invariant 0 <= i <= |lines|
      invariant result == RepairFrom(false, lines)[..i]
      invariant inStruct == StateBefore(false, lines, i)
    {
      var pushed, next := RepairLine(inStruct, lines[i]);
      RepairStep(lines, i, result, inStruct, pushed, next);
      result := result + [pushed];
      inStruct := next;
      i := i + 1;
    }
    ghost var repaired := RepairFrom(false, lines);
    assert |repaired| == |lines| && repaired[..|lines|] == repaired;
    out := Unlines(result);
  }

  /** A rewritten line holds no line break when the field line and the JSON name hold
      none. */
  lemma WithTagHasNoNewline(h: FieldHead)
    requires '\n' !in h.indent + (h.name + (h.gap + (h.goType + h.rest)))
    requires IsWord(ToSnakeCase(h.name))
    ensures '\n' !in WithTag(h)
  {
    assert !IsWordChar('\n');
    var snake := ToSnakeCase(h.name);
    assert '\n' !in snake;
    assert '\n' !in h.indent && '\n' !in h.name && '\n' !in h.goType && '\n' !in h.rest;
    assert '\n' !in CommentSuffix(h.rest);
    assert '\n' !in TagOpen;
  }

  /** A repaired line holds no line break when its source line holds none. */
  lemma RepairedHasNoNewline(inStruct: bool, line: string)
    requires '\n' !in line
    ensures '\n' !in RepairedLine(inStruct, line)
  {
    RepairedLineFacts(inStruct, line);
    if RepairedLine(inStruct, line) != line {
      var h := MatchFieldLineWithComment(line).value;
      assert HeadOf(line, h, GoType);
      SnakeOfExported(h.name);
      WithTagHasNoNewline(h);
    }
  }

  lemma {:induction false} RepairFromHasNoNewline(inStruct: bool, lines: seq<string>)
    requires NoNewline(lines)
    ensures NoNewline(RepairFrom(inStruct, lines))
    decreases |lines|
  {
    if lines != [] {
      RepairedHasNoNewline(inStruct, lines[0]);
      RepairFromHasNoNewline(NextState(inStruct, lines[0]), lines[1..]);
    }
  }

  /** The lines of addMissingJsonTags's output are the repaired input lines: the pass
      keeps the number of lines. */
  lemma AddedTagsLines(input: string)
    ensures Lines(AddedTags(input)) == RepairFrom(false, Lines(input))
    ensures |Lines(AddedTags(input))| == |Lines(input)|
  {
    var lines := Lines(input);
    RepairFromHasNoNewline(false, lines);
    SplitJoin(RepairFrom(false, lines), '\n');
  }

  /** A rewritten line holds `json:`. */
  lemma WithTagHasJson(h: FieldHead)
    ensures Contains(WithTag(h), "json:")
  {
    var a := h.indent + (h.name + (" " + (h.goType + " `")));
    var b := "\"" + (ToSnakeCase(h.name) + ("\"`" + CommentSuffix(h.rest)));
    ContainsAppend(a, "json:", b);
    assert a + "json:" + b == WithTag(h);
  }

  /** A rewritten line is no header, no closing line, and holds `json:`. */
  lemma WithTagIsPlainField(h: FieldHead)
    requires AllIn(h.indent, Space)
    requires h.name != [] && IsUpper(h.name[0])
    ensures !IsStructHeader(WithTag(h), false)
    ensures Trim(WithTag(h)) != "}" && Trim(WithTag(h)) != ""
    ensures Contains(WithTag(h), "json:")
  {
    var t := h.name + (" " + (h.goType + (" " + (TagOpen + (ToSnakeCase(h.name) + ("\"`" + CommentSuffix(h.rest)))))));
    assert WithTag(h) == h.indent + t;
    CapitalisedIsNotHeader(h.indent, t);
    assert WithTag(h)[|h.indent|] == h.name[0];
    TrimNotBrace(WithTag(h), |h.indent|);
    WithTagHasJson(h);
  }

  /** Repairing a line twice is repairing it once, and the repaired line moves the
      `inStruct` flag as the original did. */
  lemma RepairSettles(inStruct: bool, line: string)
    ensures RepairedLine(inStruct, RepairedLine(inStruct, line)) == RepairedLine(inStruct, line)
    ensures NextState(inStruct, RepairedLine(inStruct, line)) == NextState(inStruct, line)
  {
    var r := RepairedLine(inStruct, line);
    RepairedLineFacts(inStruct, line);
    if r != line {
      var h := MatchFieldLineWithComment(line).value;
      assert HeadOf(line, h, GoType);
      WithTagIsPlainField(h);
      RepairedLineFacts(inStruct, r);
    }
  }

  lemma {:induction false} RepairFromSettles(inStruct: bool, lines: seq<string>)
    ensures RepairFrom(inStruct, RepairFrom(inStruct, lines)) == RepairFrom(inStruct, lines)
    decreases |lines|
  {
    if lines != [] {
      var once := RepairFrom(inStruct, lines);
      RepairSettles(inStruct, lines[0]);
      RepairFromSettles(NextState(inStruct, lines[0]), lines[1..]);
      assert once[1..] == RepairFrom(NextState(inStruct, lines[0]), lines[1..]);
    }
  }

  /** addMissingJsonTags is idempotent. */
  lemma AddedTagsIdempotent(input: string)
    ensures AddedTags(AddedTags(input)) == AddedTags(input)
  {
    AddedTagsLines(input);
    RepairFromSettles(false, Lines(input));
  }

  /** A line checkAllFieldsHaveJsonTags accepts is not rewritten. */
  lemma AcceptedLineKept(inStruct: bool, line: string)
    requires !Untagged(inStruct, line)
    ensures RepairedLine(inStruct, line) == line
  {
  }

  lemma {:induction false} AcceptedLinesKept(inStruct: bool, lines: seq<string>)
    requires AllTaggedFrom(inStruct, lines)
    ensures RepairFrom(inStruct, lines) == lines
    decreases |lines|
  {
    if lines != [] {
      AcceptedLineKept(inStruct, lines[0]);
      AcceptedLinesKept(NextState(inStruct, lines[0]), lines[1..]);
      assert lines == [lines[0]] + lines[1..];
    }
  }

  /** When checkAllFieldsHaveJsonTags accepts a text, addMissingJsonTags returns it
      unchanged. */
  lemma TaggedInputUnchanged(input: string)
    requires AllTagged(input)
    ensures AddedTags(input) == input
  {
    AcceptedLinesKept(false, Lines(input));
    JoinSplit(input, '\n');
  }

  /** The rewritten line reads, in goStructToTSInterface, as a field tagged with the
      snake-case name. */
  lemma WithTagReadsBack(h: FieldHead)
    requires AllIn(h.indent, Space)
    requires h.name != [] && IsWord(h.name) && IsUpper(h.name[0])
    requires h.goType != [] && AllIn(h.goType, GoType)
    ensures ParseGoField(WithTag(h)) == Some(GoField(h.name, h.goType, Some(ToSnakeCase(h.name))))
  {
    SnakeOfExported(h.name);
    assert AllIn(h.goType, GoTypeOrBrace) by {
      forall i | 0 <= i < |h.goType| ensures InClass(h.goType[i], GoTypeOrBrace) {
        assert InClass(h.goType[i], GoType);
      }
    }
    assert '`' !in ToSnakeCase(h.name) by {
      assert !IsWordChar('`');
    }
    assert AllIn(" ", Space);
    ParseTaggedLine(h.indent, h.name, " ", h.goType, " ", ToSnakeCase(h.name), CommentSuffix(h.rest));
  }

  /** How `Name interface{}` reads: a field head with type `interface` and rest `{}`. */
  lemma InterfaceFieldHead(indent: string, name: string)
    requires AllIn(indent, Space)
    requires name != [] && IsWord(name)
    ensures MatchFieldHead(indent + (name + " interface{}"), GoType)
      == Some(FieldHead(indent, name, " ", "interface", "{}"))
  {
    var h := FieldHead(indent, name, " ", "interface", "{}");
    assert indent + (name + " interface{}") == h.indent + (h.name + (h.gap + (h.goType + h.rest)));
    MatchFieldHeadComplete(indent + (name + " interface{}"), h, GoType);
  }

  lemma NoColonAfterName()
    ensures ':' !in " interface{}"
  {
    assert forall i :: 0 <= i < |" interface{}"| ==> " interface{}"[i] != ':';
  }

  /** `Name interface{}` holds no `:`, so no `json:`. */
  lemma NoJsonInInterfaceField(indent: string, name: string)
    requires AllIn(indent, Space) && IsWord(name)
    ensures !Contains(indent + (name + " interface{}"), "json:")
  {
    var line := indent + (name + " interface{}");
    assert !IsSpace(':') && !IsWordChar(':');
    NoColonAfterName();
    assert ':' !in indent && ':' !in name;
    assert ':' !in line;
    if Contains(line, "json:") {
      ContainsHas(line, "json:", ':');
    }
  }

  /** The two passes disagree on `Name interface{}`: its start reads as a field with type
      `interface`, so the check rejects it, ... */
  lemma InterfaceFieldFlagged(indent: string, name: string)
    requires AllIn(indent, Space)
    requires name != [] && IsWord(name) && IsUpper(name[0])
    ensures Untagged(true, indent + (name + " interface{}"))
  {
    var line := indent + (name + " interface{}");
    InterfaceFieldHead(indent, name);
    CapitalisedIsNotHeader(indent, name + " interface{}");
    assert line[|indent|] == name[0];
    TrimNotBrace(line, |indent|);
    NoJsonInInterfaceField(indent, name);
  }

  /** ... but `{}` is not a comment, so the rewrite keeps the line. */
  lemma InterfaceFieldNotRewritten(indent: string, name: string)
    requires AllIn(indent, Space)
    requires name != [] && IsWord(name)
    ensures RepairedLine(true, indent + (name + " interface{}")) == indent + (name + " interface{}")
  {
    var line := indent + (name + " interface{}");
    InterfaceFieldHead(indent, name);
    assert Span("{}", Space) == 0 && "{}"[0..] == "{}";
    FirstCharRules("{}", "//");
    assert MatchFieldLineWithComment(line) == None;
  }

  /** checkAllFieldsHaveJsonTags returns true exactly when no line is rejected in the
      state the pass has reached there: no line inside a struct body is an exported field
      head without `json:`. Its early `return false` is the first rejected line. */
  lemma {:induction false} AllTaggedIff(inStruct: bool, lines: seq<string>)
    ensures AllTaggedFrom(inStruct, lines) <==>
              forall k :: 0 <= k < |lines| ==> !Untagged(StateBefore(inStruct, lines, k), lines[k])
    decreases |lines|
  {
    if lines != [] {
      var next := NextState(inStruct, lines[0]);
      var rest := lines[1..];
      AllTaggedIff(next, rest);
      forall k | 1 <= k < |lines|
        ensures StateBefore(inStruct, lines, k) == StateBefore(next, rest, k - 1) && lines[k] == rest[k - 1]
      {
      }
      if forall k :: 0 <= k < |lines| ==> !Untagged(StateBefore(inStruct, lines, k), lines[k]) {
        forall j | 0 <= j < |rest| ensures !Untagged(StateBefore(next, rest, j), rest[j]) {
          assert !Untagged(StateBefore(inStruct, lines, j + 1), lines[j + 1]);
        }
        assert !Untagged(StateBefore(inStruct, lines, 0), lines[0]);
      }
    }
  }

  /** Without a line that opens a struct as the check and the repair see it (lower-case
      `type`), neither pass ever enters a struct: the check accepts and the repair keeps
      every line. */
  lemma {:induction false} NoHeaderNoStruct(lines: seq<string>)
    requires forall i :: 0 <= i < |lines| ==> !IsStructHeader(lines[i], false)
    ensures AllTaggedFrom(false, lines) && RepairFrom(false, lines) == lines
    decreases |lines|
  {
    if lines != [] {
      assert !NextState(false, lines[0]);
      OutsideStructKept(lines[0]);
      assert forall i :: 0 <= i < |lines[1..]| ==> lines[1..][i] == lines[i + 1];
      NoHeaderNoStruct(lines[1..]);
      assert lines == [lines[0]] + lines[1..];
    }
  }

  /** A line outside a struct body is never rewritten. */
  lemma OutsideStructKept(line: string)
    ensures RepairedLine(false, line) == line
  {
    RepairedLineFacts(false, line);
  }

  /** The closing line is never rewritten. */
  lemma ClosingLineKept(inStruct: bool)
    ensures RepairedLine(inStruct, "}") == "}"
  {
    RepairedLineFacts(inStruct, "}");
  }

  /** Three lines each kept in the state the rewrite reaches there are kept together. */
  lemma ThreeKept(l0: string, l1: string, l2: string)
    requires RepairedLine(false, l0) == l0
    requires RepairedLine(NextState(false, l0), l1) == l1
    requires RepairedLine(NextState(NextState(false, l0), l1), l2) == l2
    ensures RepairFrom(false, [l0, l1, l2]) == [l0, l1, l2]
  {
    var s1 := NextState(false, l0);
    var s2 := NextState(s1, l1);
    assert [l2][1..] == [];
    assert RepairFrom(s2, [l2]) == [l2];
    assert [l1, l2][1..] == [l2];
    assert RepairFrom(s1, [l1, l2]) == [l1, l2];
    assert [l0, l1, l2][1..] == [l1, l2];
  }

  /** The converse of the keeping rules: inside a struct body, an exported whole field
      line without `json:` is rewritten with its tag. */
  lemma ExportedFieldRewritten(line: string)
    requires MatchFieldLineWithComment(line).Some?
    requires IsUpper(MatchFieldLineWithComment(line).value.name[0])
    requires !Contains(line, "json:")
    ensures RepairedLine(true, line) == WithTag(MatchFieldLineWithComment(line).value)
  {
    var h := MatchFieldLineWithComment(line).value;
    assert HeadOf(line, h, GoType);
    CapitalisedIsNotHeader(h.indent, h.name + (h.gap + (h.goType + h.rest)));
    assert line[|h.indent|] == h.name[0];
    TrimNotBrace(line, |h.indent|);
  }

  /** The lines of a flat struct body, each repaired inside the struct. */
  function RepairBody(body: seq<string>): (r: seq<string>)
    ensures |r| == |body|
  {
    if body == [] then [] else [RepairedLine(true, body[0])] + RepairBody(body[1..])
  }

  /** A body line that neither opens a struct nor closes one. */
  predicate FlatBody(body: seq<string>) {
    forall i :: 0 <= i < |body| ==> !IsStructHeader(body[i], false) && Trim(body[i]) != "}"
  }

  /** Inside a flat body the flag stays set, so every line is repaired on its own. */
  lemma {:induction false} RepairBodyFrom(body: seq<string>, tail: seq<string>)
    requires FlatBody(body)
    ensures RepairFrom(true, body + tail) == RepairBody(body) + RepairFrom(true, tail)
    decreases |body|
  {
    if body == [] {
      assert body + tail == tail;
    } else {
      assert NextState(true, body[0]);
      assert (body + tail)[1..] == body[1..] + tail;
      assert FlatBody(body[1..]) by {
        forall i | 0 <= i < |body[1..]| ensures !IsStructHeader(body[1..][i], false) && Trim(body[1..][i]) != "}" {
          assert body[1..][i] == body[i + 1];
        }
      }
      RepairBodyFrom(body[1..], tail);
    }
  }

  lemma {:induction false} RepairBodyHasNoNewline(body: seq<string>)
    requires NoNewline(body)
    ensures NoNewline(RepairBody(body))
    decreases |body|
  {
    if body != [] {
      RepairedHasNoNewline(true, body[0]);
      RepairBodyHasNoNewline(body[1..]);
    }
  }

  /** addMissingJsonTags on one struct: the opening line and `}` stay, and each body line
      is repaired inside the struct. */
  lemma AddedTagsOfStruct(header: string, body: seq<string>)
    requires IsStructHeader(header, false) && '\n' !in header
    requires NoNewline(body) && FlatBody(body)
    ensures AddedTags(Framed(header, body)) == Framed(header, RepairBody(body))
  {
    var repaired := RepairBody(body);
    LinesOfFramed(header, body);
    RepairBodyHasNoNewline(body);
    LinesOfFramed(header, repaired);
    RepairOfBodyLines(body);
    RepairFramedLines(header, BodyLines(body));
    JoinSplit(Framed(header, repaired), '\n');
  }

  /** The lines between a header and `}` are repaired inside the struct; the two ends stay. */
  lemma RepairFramedLines(header: string, b: seq<string>)
    requires IsStructHeader(header, false) && FlatBody(b)
    ensures RepairFrom(false, [header] + b + ["}"]) == [header] + RepairBody(b) + ["}"]
  {
    var lines := [header] + b + ["}"];
    assert lines[0] == header && lines[1..] == b + ["}"];
    OutsideStructKept(header);
    assert RepairFrom(false, lines) == [header] + RepairFrom(true, b + ["}"]);
    RepairBodyFrom(b, ["}"]);
    ClosedRepair("}");
  }

  lemma ClosedRepair(close: string)
    requires close == "}"
    ensures RepairFrom(true, [close]) == [close]
  {
    ClosingLineKept(true);
    assert [close][1..] == [];
  }

  /** The empty line an empty body frames is kept, so repairing commutes with framing. */
  lemma RepairOfBodyLines(body: seq<string>)
    requires FlatBody(body)
    ensures FlatBody(BodyLines(body))
    ensures RepairBody(BodyLines(body)) == BodyLines(RepairBody(body))
  {
    if body == [] {
      TrimEmptyIff("");
      assert Trim("") != "}";
      assert MatchFieldLineWithComment("") == None;
      assert RepairedLine(true, "") == "";
    }
  }

  /** A two-line body is flat, line-free and repaired line by line. */
  lemma RepairBodyPair(a: string, b: string)
    requires !IsStructHeader(a, false) && Trim(a) != "}" && '\n' !in a
    requires !IsStructHeader(b, false) && Trim(b) != "}" && '\n' !in b
    ensures FlatBody([a, b]) && NoNewline([a, b])
    ensures RepairBody([a, b]) == [RepairedLine(true, a), RepairedLine(true, b)]
  {
    assert [a, b][1..] == [b];
  }

  /** The converter's own test "does not tag unexported fields": `PublicKey string` gets
      the tag `public_key`, `privateKey string` is left alone. */
  lemma UnexportedFieldsUntagged(header: string, exported: string, unexported: string)
    requires header == "type Config struct {"
    requires exported == "\tPublicKey string" && unexported == "\tprivateKey string"
    ensures AddedTags(Framed(header, [exported, unexported]))
      == Framed(header, [exported + " `json:\"public_key\"`", unexported])
  {
    ConfigHeader(header);
    PublicKeyTagged(exported);
    PrivateKeyKept(unexported);
    RepairBodyPair(exported, unexported);
    AddedTagsOfStruct(header, [exported, unexported]);
  }

  lemma ConfigHeader(header: string)
    requires header == "type Config struct {"
    ensures IsStructHeader(header, false) && '\n' !in header
  {
    var name := header[5..11];
    ConfigHeaderParts(header);
    StructHeaderOf(name, " {");
    NoNewlineInWord(name);
    HeaderPiecesOneLine("type ", " struct" + " {");
    NoNewlineAround("type ", name, " struct" + " {");
  }

  lemma ConfigHeaderParts(header: string)
    requires header == "type Config struct {"
    ensures var name := header[5..11];
      header == "type " + (name + (" struct" + " {")) && name != [] && IsWord(name)
  {
    var name := header[5..11];
    assert header == "type " + (name + (" struct" + " {"));
  }

  lemma HeaderPiecesOneLine(a: string, b: string)
    requires a == "type " && b == " struct {"
    ensures '\n' !in a && '\n' !in b
  {
  }

  lemma NoNewlineAround(a: string, w: string, b: string)
    requires '\n' !in a && '\n' !in w && '\n' !in b
    ensures '\n' !in a + (w + b)
  {
  }

  /** Inside a struct, an exported bare field line gets its tag; it neither opens nor
      closes a struct. */
  lemma ExportedBareFieldTagged(indent: string, name: string, gap: string, goType: string)
    requires AllIn(indent, Space) && '\n' !in indent
    requires name != [] && IsWord(name) && IsUpper(name[0])
    requires gap != [] && AllIn(gap, Space) && '\n' !in gap
    requires goType != [] && AllIn(goType, GoType)
    ensures var line := indent + (name + (gap + goType));
      !IsStructHeader(line, false) && Trim(line) != "}" && '\n' !in line &&
      RepairedLine(true, line) == WithTag(FieldHead(indent, name, gap, goType, []))
  {
    var line := indent + (name + (gap + goType));
    BareFieldLineFacts(indent, name, gap, goType);
    BareFieldOf(indent, name, gap, goType);
    ExportedFieldRewritten(line);
  }

  /** Inside a struct, an unexported bare field line is kept. */
  lemma UnexportedBareFieldKept(indent: string, name: string, gap: string, goType: string)
    requires AllIn(indent, Space) && '\n' !in indent
    requires name != [] && IsWord(name) && !IsUpper(name[0]) && name[0] != 't'
    requires gap != [] && AllIn(gap, Space) && '\n' !in gap
    requires goType != [] && AllIn(goType, GoType)
    ensures var line := indent + (name + (gap + goType));
      !IsStructHeader(line, false) && Trim(line) != "}" && '\n' !in line &&
      RepairedLine(true, line) == line
  {
    var line := indent + (name + (gap + goType));
    BareFieldLineFacts(indent, name, gap, goType);
    assert goType + [] == goType;
    MatchFieldHeadComplete(line, FieldHead(indent, name, gap, goType, []), GoType);
    RepairedLineFacts(true, line);
    NotTypeIsNotHeader(indent, name + (gap + goType));
  }

  lemma BareFieldLineFacts(indent: string, name: string, gap: string, goType: string)
    requires AllIn(indent, Space) && '\n' !in indent
    requires name != [] && IsWord(name)
    requires gap != [] && AllIn(gap, Space) && '\n' !in gap
    requires goType != [] && AllIn(goType, GoType)
    ensures var line := indent + (name + (gap + goType));
      Trim(line) != "}" && '\n' !in line && ':' !in line && !Contains(line, "json:")
      && (IsUpper(name[0]) ==> !IsStructHeader(line, false))
  {
    var line := indent + (name + (gap + goType));
    assert !InClass('\n', GoType) && !InClass(':', GoType) && !IsSpace(':') && !IsWordChar(':');
    NoNewlineInWord(name);
    assert '\n' !in goType && ':' !in goType;
    assert ':' !in indent && ':' !in name && ':' !in gap;
    assert line[|indent|] == name[0];
    assert !IsSpace(name[0]) && name[0] != '}';
    TrimNotBrace(line, |indent|);
    if Contains(line, "json:") {
      ContainsHas(line, "json:", ':');
    }
    if IsUpper(name[0]) {
      CapitalisedIsNotHeader(indent, name + (gap + goType));
    }
  }

  lemma PublicKeyTagged(line: string)
    requires line == "\tPublicKey string"
    ensures !IsStructHeader(line, false) && Trim(line) != "}" && '\n' !in line
    ensures RepairedLine(true, line) == line + " `json:\"public_key\"`"
  {
    var indent, name, gap, goType := line[..1], line[1..10], line[10..11], line[11..];
    PublicKeyPieces(line);
    ExportedBareFieldTagged(indent, name, gap, goType);
    SnakeOfPublicKey(name);
    TagAppended(indent, name, gap, goType, "public_key");
    PublicKeyTagText(" `json:\"public_key\"`", "public_key");
  }

  lemma PublicKeyPieces(line: string)
    requires line == "\tPublicKey string"
    ensures var indent, name, gap, goType := line[..1], line[1..10], line[10..11], line[11..];
      line == indent + (name + (gap + goType)) && name == "PublicKey" && gap == " " &&
      AllIn(indent, Space) && '\n' !in indent && name != [] && IsWord(name) && IsUpper(name[0]) &&
      AllIn(gap, Space) && '\n' !in gap && goType != [] && AllIn(goType, GoType)
  {
    var indent, name, gap, goType := line[..1], line[1..10], line[10..11], line[11..];
    assert line == indent + (name + (gap + goType));
    OneCharGaps(indent, gap);
  }

  lemma PrivateKeyKept(line: string)
    requires line == "\tprivateKey string"
    ensures !IsStructHeader(line, false) && Trim(line) != "}" && '\n' !in line
    ensures RepairedLine(true, line) == line
  {
    PrivateKeyPieces(line);
    UnexportedBareFieldKept(line[..1], line[1..11], line[11..12], line[12..]);
  }

  lemma PrivateKeyPieces(line: string)
    requires line == "\tprivateKey string"
    ensures var indent, name, gap, goType := line[..1], line[1..11], line[11..12], line[12..];
      line == indent + (name + (gap + goType)) &&
      AllIn(indent, Space) && '\n' !in indent &&
      name != [] && IsWord(name) && !IsUpper(name[0]) && name[0] != 't' &&
      gap != [] && AllIn(gap, Space) && '\n' !in gap && goType != [] && AllIn(goType, GoType)
  {
    var indent, name, gap, goType := line[..1], line[1..11], line[11..12], line[12..];
    assert line == indent + (name + (gap + goType));
    OneCharGaps(indent, gap);
  }

  lemma OneCharGaps(tab: string, space: string)
    requires tab == "\t" && space == " "
    ensures AllIn(tab, Space) && '\n' !in tab && AllIn(space, Space) && '\n' !in space
  {
  }

  lemma PublicKeyTagText(text: string, snake: string)
    requires text == " `json:\"public_key\"`" && snake == "public_key"
    ensures text == " " + (TagOpen + (snake + "\"`"))
  {
  }

  /** The rewritten form of a bare field line is the line with the tag appended. */
  lemma TagAppended(indent: string, name: string, gap: string, goType: string, snake: string)
    requires ToSnakeCase(name) == snake
    ensures WithTag(FieldHead(indent, name, gap, goType, []))
      == indent + (name + (" " + goType)) + (" " + (TagOpen + (snake + "\"`")))
  {
    assert CommentSuffix([]) == "";
  }
}
