/** The two type-lookup tables of the converter (src/extension.ts, mapGoType and
    reverseMapTsType). A name the table does not hold passes through unchanged. */
module TypeMapping {
  import opened Text

  /** The Go-to-TypeScript table: every integer and float width becomes `number`. */
  function GoToTs(name: string): Option<string> {
    match name
    case "string" => Some("string")
    case "int" => Some("number")
    case "int8" => Some("number")
    case "int16" => Some("number")
    case "int32" => Some("number")
    case "int64" => Some("number")
    case "uint" => Some("number")
    case "uint8" => Some("number")
    case "uint16" => Some("number")
    case "uint32" => Some("number")
    case "uint64" => Some("number")
    case "float32" => Some("number")
    case "float64" => Some("number")
    case "bool" => Some("boolean")
    case "time.Time" => Some("string")
    case "interface{}" => Some("any")
    case "any" => Some("any")
    case _ => None
  }

  /** The TypeScript-to-Go table: `number` always becomes `int`. */
  function TsToGo(name: string): Option<string> {
    match name
    case "string" => Some("string")
    case "number" => Some("int")
    case "boolean" => Some("bool")
    case "any" => Some("any")
    case "unknown" => Some("any")
    case _ => None
  }

  /** `goType.replace(/\*\/g, "")`. */
  function RemoveStars(s: string): (r: string)
    ensures '*' !in r
    ensures '*' !in s ==> r == s
  {
    if s == [] then [] else if s[0] == '*' then RemoveStars(s[1..]) else [s[0]] + RemoveStars(s[1..])
  }

  /** mapGoType: drop every `*`, then look the name up; an unknown name (a custom type,
      a `map[K]V` literal) is returned without its stars. */
  function MapGoType(goType: string): (r: string)
    ensures '*' !in r
    ensures GoToTs(RemoveStars(goType)).None? ==> r == RemoveStars(goType)
  {
    var clean := RemoveStars(goType);
    match GoToTs(clean)
    case Some(ts) => ts
    case None => clean
  }

  /** reverseMapTsType: look the name up, or pass it through. */
  function ReverseMapTsType(tsType: string): (r: string)
    ensures TsToGo(tsType).None? ==> r == tsType
  {
    match TsToGo(tsType)
    case Some(go) => go
    case None => tsType
  }

  /** The reverse map keeps a non-empty `[\w\[\]]` type non-empty and inside the
      characters a Go field type may use. */
  lemma ReverseMapKeepsTypeChars(tsType: string)
    requires AllIn(tsType, TsType)
    ensures AllIn(ReverseMapTsType(tsType), GoTypeOrBrace)
    ensures tsType != [] ==> ReverseMapTsType(tsType) != []
  {
    var r := ReverseMapTsType(tsType);
    if TsToGo(tsType).Some? {
      assert r == "string" || r == "int" || r == "bool" || r == "any";
    }
  }

  /** Removing stars adds no character. */
  lemma {:induction false} RemoveStarsAddsNothing(s: string, c: char)
    requires c !in s
    ensures c !in RemoveStars(s)
  {
    if s != [] {
      assert s == [s[0]] + s[1..];
      RemoveStarsAddsNothing(s[1..], c);
    }
  }

  /** A type name without a space maps to a type name without a space. */
  lemma MapKeepsSpaceFree(goType: string)
    requires ' ' !in goType
    ensures ' ' !in MapGoType(goType)
  {
    RemoveStarsAddsNothing(goType, ' ');
  }

  /** Pointers are invisible to the Go-to-TypeScript table. */
  lemma {:induction false} MapIgnoresPointers(prefix: string, t: string)
    requires forall i :: 0 <= i < |prefix| ==> prefix[i] == '*'
    ensures MapGoType(prefix + t) == MapGoType(t)
  {
    if prefix != [] {
      assert (prefix + t)[1..] == prefix[1..] + t;
      MapIgnoresPointers(prefix[1..], t);
      assert RemoveStars(prefix + t) == RemoveStars(prefix[1..] + t);
    } else {
      assert prefix + t == t;
    }
  }

  /** Every Go integer and float width becomes `number`, so width is lost. */
  predicate IsNumericGoName(t: string) {
    t == "int" || t == "int8" || t == "int16" || t == "int32" || t == "int64"
    || t == "uint" || t == "uint8" || t == "uint16" || t == "uint32" || t == "uint64"
    || t == "float32" || t == "float64"
  }

  lemma NumericWidthsCollapse(t: string)
    requires IsNumericGoName(t)
    ensures MapGoType(t) == "number"
    ensures ReverseMapTsType(MapGoType(t)) == "int"
  {
    assert '*' !in t;
  }

  /** The Go names that survive the trip to TypeScript and back. */
  predicate RoundTripGoName(t: string) {
    t == "string" || t == "int" || t == "bool" || t == "any"
  }

  /** The TypeScript names that survive the trip to Go and back. */
  predicate RoundTripTsName(t: string) {
    t == "string" || t == "number" || t == "boolean" || t == "any"
  }

  lemma GoNameRoundTrip(t: string)
    requires RoundTripGoName(t)
    ensures RoundTripTsName(MapGoType(t))
    ensures ReverseMapTsType(MapGoType(t)) == t
  {
    assert RemoveStars(t) == t;
  }

  lemma TsNameRoundTrip(t: string)
    requires RoundTripTsName(t)
    ensures RoundTripGoName(ReverseMapTsType(t))
    ensures MapGoType(ReverseMapTsType(t)) == t
  {
    assert RemoveStars(ReverseMapTsType(t)) == ReverseMapTsType(t);
  }

  /** `time.Time` is read as `string`, which maps back to `string`: the time type is lost. */
  lemma TimeBecomesString()
    ensures MapGoType("time.Time") == "string"
    ensures ReverseMapTsType("string") == "string"
  {
    assert '*' !in "time.Time";
  }

  /** A pointer to `time.Time` is read as `string` too. */
  lemma PointerToTimeBecomesString()
    ensures MapGoType("*time.Time") == "string"
  {
    TimeBecomesString();
    assert "*time.Time"[1..] == "time.Time";
    assert RemoveStars("*time.Time") == RemoveStars("time.Time");
  }

  /** `unknown` is read as `any`, which comes back as `any`. */
  lemma UnknownBecomesAny()
    ensures ReverseMapTsType("unknown") == "any" && MapGoType("any") == "any"
  {
    assert '*' !in "any";
  }

  /** The empty interface maps to `any`. */
  lemma InterfaceBecomesAny(goType: string)
    requires goType == "interface{}"
    ensures MapGoType(goType) == "any"
  {
    assert '*' !in goType;
  }
}
