# Go struct ⇄ TypeScript interface converter, modelled in Dafny

The editor extension converts a selected piece of text in one of two directions:

- A Go `struct` declaration becomes a TypeScript `interface`.
- A TypeScript `interface` becomes a Go `struct` with `json:"…"` tags.

Before converting a Go struct it checks whether every exported field carries a JSON tag. If one does not, it returns the struct with the missing tags filled in (snake-case names) instead of converting it. The Go struct itself is recognised with `type` in any case, but the check and the repair only enter a struct opened by a lower-case `type`. A struct opened by `Type` or `TYPE` is therefore converted without either, and its opening line becomes a field of the interface (`Converter.CapitalisedHeaderSkipsGate`).

This project models the conversion core in `src/extension.ts`:

- `convert`;
- the two emitters;
- the tag check and the tag repair;
- the two case converters;
- the two type tables.

It also proves what the code promises, and a few things it does not.

Layout:

- `text.dfy` (`Text`): the character classes of JavaScript regular expressions (`\s`, `\w`, the bracket classes the patterns use), `trim()`, `split("\n")` and `join("\n")`.
- `case_conv.dfy` (`CaseConversion`): `toSnakeCase` and `toCamelCase`.
- `type_map.dfy` (`TypeMapping`): `mapGoType` and `reverseMapTsType`.
- `go_syntax.dfy` (`GoSyntax`), `ts_syntax.dfy` (`TsSyntax`): one recogniser per regular expression the code applies to a line.
  - Each recogniser is written as the greedy runs the pattern consumes. None of these patterns can succeed by backtracking, except that the tag group `([^`]+)"`` ends before the first backtick after `json:"`, which is modelled that way.
- `json_tags.dfy` (`JsonTags`): `checkAllFieldsHaveJsonTags` and `addMissingJsonTags`.
  - Both are loops over lines with an "inside a struct" flag, modelled as methods.
  - Each method is proved against a function over the lines: `AllTagged` for the check, `AddedTags`/`RepairFrom` for the repair.
- `go_to_ts.dfy` (`GoToTs`), `ts_to_go.dfy` (`TsToGo`): the emitters.
  - Each is a loop method proved equal to a line-by-line function.
  - Beside each are lemmas stating the per-field rules.
- `converter.dfy` (`Converter`): `convert`, its error cases and the tag gate.
- `round_trip.dfy` (`RoundTrip`): for which inputs the two directions undo each other.

## Model

| member | source | states |
|---|---|---|
| Converter.ConvertText | src/extension.ts:4-29 | the conversion equals `Convert`: an empty selection error, then the Go branch (tag gate, then Go→TS), then the TS branch, otherwise the unrecognised error |
| Converter.BlankSelection | src/extension.ts:8-11 | "Select a Go struct or TS interface." is reported exactly when the selection is all whitespace, and then the result is empty |
| Converter.Unrecognised | src/extension.ts:13-28 | "Not a Go struct or TS interface." is reported exactly when the trimmed text is non-empty and neither header matches; every error comes with an empty result; no error exactly when one header matches |
| Converter.TagGate | src/extension.ts:16-21 | with the check on and an untagged exported field, the result is the repaired struct with no error; it keeps the line count and the first line and is not an interface |
| Converter.NoGate | src/extension.ts:16-23 | with the check off a Go struct always goes to the interface emitter; with all fields tagged, the check changes nothing |
| Converter.InterfaceFieldIsStuck | src/extension.ts:16-21 | with the check on, a struct whose only field has type `interface{}` and no tag is returned unchanged, with no error: the check (lines 259-266) flags the field, but the repair's field pattern (line 128) refuses `{}` |
| Converter.CapitalisedHeaderSkipsGate | src/extension.ts:13-23 | for a struct opened by a capitalised spelling of `type` (`Type Name struct {`) and a body with no lower-case opening, the check accepts whatever the fields, convert emits the interface with the check on, and its first field is the opening line read as a field: the keyword with its first letter lowered, typed by the struct's name |
| Converter.CapitalisedTypeSpelling | src/extension.ts:13 | `Type` is such a spelling, and its field is named `type` |
| Converter.DefaultNameReachable | src/extension.ts:13 | a Go header split after `type` is accepted, and the interface is named `Converted` |
| GoSyntax.StructHeaderIff | src/extension.ts:13 | after any indentation, a four-letter word, whitespace, a name and whitespace, the text is a Go struct opening exactly when that word is `type` and the next word is `struct` and ends there, both in the case the `i` flag allows: `type Name int` and `type Name structure` are refused, `TYPE Name STRUCT` is accepted only with the flag; with the flag off this is also the case-sensitive test the tag repair (line 114) and the tag check (line 249) apply to each line |
| GoSyntax.StructHeaderOf | src/extension.ts:13 | the opening the Go emitter writes, `type Name struct {`, is a struct opening with and without the `i` flag |
| GoSyntax.CapitalisedIsNotHeader | src/extension.ts:249 | a line whose first word is capitalised is never a struct opening, so an exported field line is never mistaken for one |
| GoSyntax.HeaderAcrossLines | src/extension.ts:13 | `\s+` after `type` also matches a line break, so the header check accepts the split header |
| GoSyntax.DefaultStructName | src/extension.ts:34-39 | a first line holding only `type` gives the name `Converted` |
| GoSyntax.StructNameOf | src/extension.ts:36-39 | the opening line `type Name struct…` names the interface `Name` |
| GoSyntax.MatchFieldHeadComplete | src/extension.ts:76 | the field-head reader returns the one decomposition of a line into indentation, name, gap and type |
| GoSyntax.ParseTaggedLine | src/extension.ts:48-52 | the tagged-field reader recovers name, type and tag from a tagged line with any indentation, any whitespace runs between name, type and tag, and anything after the tag |
| GoSyntax.TagAfterTypeOf | src/extension.ts:49 | after whitespace, `json:"tag"` followed by a backtick gives back the tag, whatever follows |
| GoSyntax.UnclosedTagRefused | src/extension.ts:49 | a tag not closed by `"` right before the backtick, or with no closing backtick, is not read |
| GoSyntax.MatchTaggedField | src/extension.ts:48-50 | a match has a non-empty word as its name and a non-empty tag without a backtick |
| GoSyntax.MatchFieldLineWithCommentIff | src/extension.ts:128 | the whole-line pattern reads groups `h` from a line exactly when the line is `h`'s indentation, word name, whitespace gap and greedy run of Go type characters, followed by nothing or by whitespace and a `//` comment running to the end of the line |
| GoSyntax.CommentedFieldOf | src/extension.ts:128 | an untagged field line ending in a `//` comment is a whole field line, and the comment with the whitespace before it is what follows the type |
| GoSyntax.BareFieldOf | src/extension.ts:128 | an untagged field line that ends with its type is a whole field line |
| GoSyntax.HeaderReadsAsField | src/extension.ts:76 | the struct's own opening line reads as an untagged field named `type` (which is lower case and therefore skipped) |
| GoSyntax.KeywordLineReadsAsField | src/extension.ts:76 | the same holds for any word in place of `type`: the line reads as an untagged field named by that word with the struct's name as its type |
| GoSyntax.StructNameAfterKeyword | src/extension.ts:36-39 | the name search finds the struct's name after any spelling of `type` |
| TsSyntax.InterfaceHeaderIff | src/extension.ts:14 | after any indentation and a nine-letter word, the text is an interface opening exactly when that word is `interface` in any case and whitespace and then a word character follow: `Interface Foo` and `INTERFACE Foo` are accepted, `interfaces` and a bare `interface` are refused |
| TsSyntax.InterfaceHeaderOf | src/extension.ts:197-200 | the opening line the TS emitter writes is an interface header and names the struct |
| TsSyntax.ParseTsFieldOf | src/extension.ts:205 | on any line of the pattern's shape (any indentation, the name, an optional `?`, any whitespace around the colon, the type) the TS field reader returns the name, the mark and the type's leading `[\w\[\]]` run; what follows the run is not read |
| TsSyntax.ParseTsField | src/extension.ts:205 | a match has a non-empty word as its name and a non-empty type made of `[\w\[\]]` characters |
| TsSyntax.ParseTsFieldLine | src/extension.ts:205-210 | the line the TS emitter writes, `  name?: type;`, reads back as its name, its mark and the leading run of its type |
| TsSyntax.HeaderIsNoField | src/extension.ts:205 | the line `interface Name …` is not a field |
| JsonTags.CheckAllFieldsHaveJsonTags | src/extension.ts:244-272 | the loop answers `AllTagged`: no line inside a struct is an exported field head without `json:` |
| JsonTags.AllTaggedIff | src/extension.ts:244-272 | the check accepts exactly when no line is rejected in the state the pass has reached at that line: inside a struct body, no line is an exported field head without `json:`; the first rejected line is where the loop returns false |
| JsonTags.RepairAt | src/extension.ts:113-147 | the repair's output line at each index is the input line at that index, repaired in the state the pass has reached there |
| JsonTags.NoHeaderNoStruct | src/extension.ts:108-151 | when no line opens a struct with a lower-case `type`, the check accepts and the repair keeps every line |
| JsonTags.OutsideStructKept | src/extension.ts:125-150 | outside a struct body no line is rewritten |
| JsonTags.ClosingLineKept | src/extension.ts:120-124 | the closing line `}` is never rewritten |
| JsonTags.AddMissingJsonTags | src/extension.ts:108-151 | the loop builds `AddedTags`: each line is repaired in the state the preceding lines leave |
| JsonTags.RepairedLineFacts | src/extension.ts:113-147 | what `RepairedLine` pushes: a line outside a struct, a line holding `json:`, or a line without an exported field head is kept; a changed line is an exported field matching the comment-aware pattern |
| JsonTags.ExportedFieldRewritten | src/extension.ts:126-142 | conversely, inside a struct a line without `json:` that matches the comment-aware pattern with an exported name is replaced by its indentation, the name, one space, the type, one space, the tag holding the snake-case name, and then, after one more space, the comment group with its leading whitespace (so the tag and `//` of `Name string // c` end up two spaces apart) |
| JsonTags.AddedTagsOfStruct | src/extension.ts:108-151 | for a header, body lines that neither open nor close a struct, and `}`, the repair keeps the header and `}` and repairs every body line inside the struct |
| JsonTags.UnexportedFieldsUntagged | src/extension.ts:108-151 | `type Config struct {` with fields `PublicKey string` and `privateKey string` comes back with `` `json:"public_key"` `` added to the first field only |
| JsonTags.AddedTagsLines | src/extension.ts:108-151 | the repair changes lines one for one: the output has as many lines as the input |
| JsonTags.AddedTagsIdempotent | src/extension.ts:108-151 | repairing twice equals repairing once |
| JsonTags.TaggedInputUnchanged | src/extension.ts:108-151 | when the check passes, the repair changes nothing |
| JsonTags.WithTagReadsBack | src/extension.ts:135-141 | a repaired line reads back as a tagged field with the same name and type and the snake-case name as tag |
| JsonTags.InterfaceFieldFlagged | src/extension.ts:259-266 | an exported `interface{}` field without a tag fails the check |
| JsonTags.InterfaceFieldNotRewritten | src/extension.ts:126-131 | the repair keeps that same line unchanged |
| CaseConversion.SnakeHasNoCapital | src/extension.ts:153-158 | the snake-case name holds no capital letter |
| CaseConversion.SnakeOfJoined | src/extension.ts:153-158 | for a name `a` followed by a part `b` that starts with a capital, the result is the snake case of `a`, `_`, then the snake case of `b`: every inner capital opens a new part |
| CaseConversion.SnakeOfCapitalWord | src/extension.ts:153-158 | a capital followed by lower-case letters becomes its lower-case letter followed by the same letters: the marking underscore at the front is removed |
| CaseConversion.SnakeOfTwoWords | src/extension.ts:153-158 | two capitalised words become the two lower-case words joined by `_` |
| CaseConversion.SnakeOfLeadingCapital | src/extension.ts:153-158 | two capitals in a row are split: each capital of an acronym becomes its own part |
| CaseConversion.SnakeOfPublicKey | src/extension.ts:153-158 | `PublicKey` becomes `public_key` |
| CaseConversion.SnakeOfNameOfTheHero | src/extension.ts:153-158 | `NameOfTheHero` becomes `name_of_the_hero` |
| CaseConversion.SnakeOfHttpServer | src/extension.ts:153-158 | `HTTPServer` becomes `h_t_t_p_server` |
| CaseConversion.CamelFacts | src/extension.ts:160-164 | the camel-case name is no longer than the input, non-empty for non-empty input, starts with no lower-case letter, has no lower-case letter after an underscore, and keeps a word a word |
| CaseConversion.RaiseFacts | src/extension.ts:161-162 | raising never lengthens the text, keeps a word a word and leaves no lower-case letter right after an underscore |
| CaseConversion.RaiseOverPlain | src/extension.ts:161-162 | text without an underscore passes the raising step unchanged |
| CaseConversion.RaiseStep | src/extension.ts:161-162 | `_` followed by a lower-case letter becomes the capital of that letter, and the scan goes on after it |
| CaseConversion.CamelOfJoined | src/extension.ts:160-164 | `w_c…`, for a first word `w` and a lower-case `c`, becomes the camel case of `w` followed by the capital of `c` and the raised rest |
| CaseConversion.CamelOfLeadingUnderscore | src/extension.ts:160-164 | a leading `_c` loses its underscore and gives the capital of `c` |
| CaseConversion.CamelOfUnderscoreX | src/extension.ts:160-164 | `_x` becomes `X` |
| CaseConversion.CamelOfUserName | src/extension.ts:160-164 | `user_name` becomes `UserName` |
| CaseConversion.CamelOfFirstNameOfUser | src/extension.ts:160-164 | `first_name_of_user` becomes `FirstNameOfUser` |
| CaseConversion.SnakeOfExported | src/extension.ts:153-158 | the JSON name made for an exported field name is a non-empty word |
| CaseConversion.SnakeThenCamel | src/extension.ts:153-164 | `toCamelCase(toSnakeCase(s)) == s` for a capitalised alphanumeric name |
| CaseConversion.SnakeOfOneCapital | src/extension.ts:153-158 | `X` becomes `x`: the leading underscore is removed |
| CaseConversion.CamelOfId | src/extension.ts:160-164 | `id` becomes `Id` |
| TypeMapping.MapGoType | src/extension.ts:166-190 | the result holds no `*`; a name outside the table comes back without its stars |
| TypeMapping.ReverseMapTsType | src/extension.ts:232-241 | a name outside the table passes through |
| TypeMapping.MapIgnoresPointers | src/extension.ts:167 | any number of leading `*` does not change the mapped type |
| TypeMapping.NumericWidthsCollapse | src/extension.ts:166-190 | every integer and float width maps to `number`, which maps back to `int` |
| TypeMapping.GoNameRoundTrip | src/extension.ts:166-241 | `string`, `int`, `bool` and `any` survive Go→TS→Go |
| TypeMapping.TsNameRoundTrip | src/extension.ts:166-241 | `string`, `number`, `boolean` and `any` survive TS→Go→TS |
| TypeMapping.TimeBecomesString | src/extension.ts:167-189 | `time.Time` maps to `string`, and `string` maps back to `string` |
| TypeMapping.PointerToTimeBecomesString | src/extension.ts:167-189 | `*time.Time` maps to `string` |
| TypeMapping.InterfaceBecomesAny | src/extension.ts:166-190 | `interface{}` maps to `any` |
| TypeMapping.UnknownBecomesAny | src/extension.ts:232-240 | `unknown` maps to `any`, which maps back to `any` |
| GoToTs.NullableIff | src/extension.ts:58-97 | the TS type ends in ` \| null` exactly when the field is optional or its type has a pointer |
| GoToTs.SliceOfPointersExample | src/extension.ts:58-70 | `[]*Item` becomes `Item[] \| null` |
| GoToTs.PlainTag | src/extension.ts:53-56 | a tag without commas is the name, and it omits exactly when it is `omitempty` or `omitzero` |
| GoToTs.OmitEmptyTag | src/extension.ts:53-56 | `name,omitempty` gives the name and marks the field optional |
| GoToTs.TaggedLineRule | src/extension.ts:48-72 | a tagged field line, with any indentation, any whitespace runs and anything after the tag, becomes the TS field named by the tag's first part, optional exactly when the tag lists `omitempty` or `omitzero`, with the mapped type |
| GoToTs.EmittedLineRule | src/extension.ts:48-72 | the same for a line in the Go emitter's own layout |
| GoToTs.UntaggedLineRule | src/extension.ts:76-99 | a line the tagged pattern refuses, holding an exported name and a greedy run of Go type characters followed by anything (a comment, `{}`), becomes the TS field named with a lower-case first letter, optional and nullable exactly when its type has a pointer |
| GoToTs.UnexportedLineDropped | src/extension.ts:76-82 | such a line whose name does not start with a capital yields no TS field |
| GoToTs.UntaggedInterfaceField | src/extension.ts:76-99 | an untagged `Name interface{}` line reads only `interface` as its type, which is not in the table and passes through: an exported name gives `name: interface;`, an unexported one nothing |
| GoToTs.HeaderLineDropped | src/extension.ts:76-82 | an opening line with a lower-case `type` yields no TS field |
| GoToTs.KeywordLineField | src/extension.ts:76-99 | an opening line with any other word in place of `type` reads as an untagged field named by that word and typed by the struct's name: a capitalised word gives the TS field named with its first letter lowered, not optional, a lower-case word gives nothing |
| GoToTs.ClosingLineDropped | src/extension.ts:44-46 | `}` and blank lines yield no TS field |
| GoToTs.GoStructToTsInterface | src/extension.ts:32-105 | the loop builds `GoStructToTs`: the interface named from the first line, around the TS lines of the field lines in order |
| TsToGo.TsInterfaceToGoStruct | src/extension.ts:193-230 | the loop builds `TsInterfaceToGo`: the struct named from the first line, around the Go lines of the field lines in order |
| TsToGo.GoTypeIsTypeText | src/extension.ts:212-218 | the Go type is non-empty and made of the characters a Go field type may hold |
| TsToGo.ArrayBecomesSlice | src/extension.ts:213-215 | `T[]` becomes `[]` followed by the mapped `T` |
| TsToGo.JsonTagReadsBack | src/extension.ts:220-222 | the tag written for a field gives back its name, and it omits exactly when the field was optional |
| TsToGo.GoLineRule | src/extension.ts:205-226 | every TS field line becomes a Go line that the Go reader reads as the camel-case name, the mapped type and the tag |
| TsToGo.FramingLinesDropped | src/extension.ts:205-208 | the interface's opening line, `}` and blank lines yield no Go field |
| RoundTrip.TsLineToGo | src/extension.ts:205-226 | a TS field line becomes the Go line of its JSON field |
| RoundTrip.GoLineToTs | src/extension.ts:48-72 | a tagged Go line becomes the TS line of its JSON field |
| RoundTrip.OptionalFieldGainsNull | src/extension.ts:68-72 | an optional field comes back from Go with ` \| null` added to its type |
| RoundTrip.TsGoTsRoundTrip | src/extension.ts:4-29 | an interface of required fields with round-trippable names and types converts to the struct, and that struct converts back to the same interface, with the check on or off |
| RoundTrip.GoTsGoRoundTrip | src/extension.ts:4-29 | a struct of tagged fields with round-trippable tags and types converts to the interface, and that interface converts back to the same struct, with the check on or off |

## Left out

- `activate` and `deactivate` are not modelled. They only talk to the editor: reading the selection, the configuration flag, replacing text and showing messages. `Convert` takes the selection and the flag as parameters and returns the result text and the optional message.
- JavaScript regular expressions in general are not modelled. Each pattern the core uses is a hand-written recogniser over the character classes it names.
- `toLowerCase`/`toUpperCase` are modelled on ASCII letters only. Every call site applies them to `\w` text or to `[a-z]`/`[A-Z]`, where the Unicode mapping agrees.
- Lookups through a plain object are modelled without the prototype. In the source a field whose type is named after an `Object.prototype` member (for example `constructor`) hits inherited keys. The model treats such a name as absent from the table.
- TypeMapping.MapGoType: the unused `isOptional` parameter is dropped.
- RoundTrip.TsGoTsRoundTrip: only required fields are covered. An optional field comes back with ` | null` added (stated in `RoundTrip.OptionalFieldGainsNull`), and a field named `omitempty` or `omitzero` comes back optional. Both are excluded by the lemma's requires.
- Converter.Convert: the flag `enableJsonTagCheck` is an explicit parameter; in the source it defaults to `true` (src/extension.ts:4).
