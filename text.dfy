/** Character classes and string operations that the converter takes from JavaScript:
    the `\s` and `\w` regular-expression classes, `trim`, `split`, `join`, `includes`
    and ASCII case mapping. Strings are sequences of characters. */
module Text {

  datatype Option<T> = None | Some(value: T)

  /** JavaScript's `\s`: WhiteSpace and LineTerminator. `String.prototype.trim`
      removes exactly this set, so one predicate serves both. */
  predicate IsSpace(c: char) {
    ('\t' <= c <= '\r') || c == ' ' || ('\U{00A0}' <= c && IsWideSpace(c))
  }

  /** The non-ASCII members of `\s`. */
  predicate IsWideSpace(c: char) {
    c == '\U{00A0}' || c == '\U{1680}' || ('\U{2000}' <= c <= '\U{200A}')
    || c == '\U{2028}' || c == '\U{2029}' || c == '\U{202F}' || c == '\U{205F}'
    || c == '\U{3000}' || c == '\U{FEFF}'
  }

  /** The characters that `.` does not match in a regular expression without the `s` flag. */
  predicate IsLineTerminator(c: char) {
    c == '\n' || c == '\r' || c == '\U{2028}' || c == '\U{2029}'
  }

  predicate IsUpper(c: char) { 'A' <= c <= 'Z' }

  predicate IsLower(c: char) { 'a' <= c <= 'z' }

  predicate IsDigit(c: char) { '0' <= c <= '9' }

  /** JavaScript's `\w` (no `u` flag): ASCII letters, digits and underscore. */
  predicate IsWordChar(c: char) { IsUpper(c) || IsLower(c) || IsDigit(c) || c == '_' }

  predicate IsWord(s: string) { forall i :: 0 <= i < |s| ==> IsWordChar(s[i]) }

  function ToLower(c: char): (r: char)
    ensures !IsUpper(r)
    ensures IsUpper(c) ==> IsLower(r) && r as int == c as int + 32
    ensures !IsUpper(c) ==> r == c
  {
    if IsUpper(c) then c - 'A' + 'a' else c
  }

  function ToUpper(c: char): (r: char)
    ensures !IsLower(r)
    ensures IsLower(c) ==> IsUpper(r) && r as int == c as int - 32
    ensures !IsLower(c) ==> r == c
  {
    if IsLower(c) then c - 'a' + 'A' else c
  }

  /** The character classes the converter's patterns use. */
  datatype CharClass =
    | Space          // \s
    | Word           // \w
    | GoType         // [\w\[\]\*\.]
    | GoTypeOrBrace  // [\w\[\]\*\.\{\}]
    | TsType         // [\w\[\]]

  predicate InClass(c: char, k: CharClass) {
    match k
    case Space => IsSpace(c)
    case Word => IsWordChar(c)
    case GoType => IsWordChar(c) || c == '[' || c == ']' || c == '*' || c == '.'
    case GoTypeOrBrace => IsWordChar(c) || c == '[' || c == ']' || c == '*' || c == '.' || c == '{' || c == '}'
    case TsType => IsWordChar(c) || c == '[' || c == ']'
  }

  predicate AllIn(s: string, k: CharClass) { forall i :: 0 <= i < |s| ==> InClass(s[i], k) }

  /** Length of the longest prefix of `s` in class `k`: what a greedy `k*` consumes. */
  function Span(s: string, k: CharClass): (n: nat)
    ensures n <= |s|
  {
    if s == [] || !InClass(s[0], k) then 0 else 1 + Span(s[1..], k)
  }

  /** The run is in the class and stops at the end or at a character outside it. */
  lemma {:induction false} SpanFacts(s: string, k: CharClass)
    ensures AllIn(s[..Span(s, k)], k)
    ensures Span(s, k) == |s| || !InClass(s[Span(s, k)], k)
  {
    if s != [] && InClass(s[0], k) {
      SpanFacts(s[1..], k);
      assert s[..Span(s, k)] == [s[0]] + s[1..][..Span(s[1..], k)];
    }
  }

  /** A greedy run is determined by where it stops: the run over `a` that meets
      a character outside the class (or the end) is all of `a`. */
  lemma {:induction false} SpanOfConcat(a: string, b: string, k: CharClass)
    requires AllIn(a, k)
    requires b == [] || !InClass(b[0], k)
    ensures Span(a + b, k) == |a|
  {
    if a == [] {
      assert a + b == b;
    } else {
      assert (a + b)[1..] == a[1..] + b;
      SpanOfConcat(a[1..], b, k);
    }
  }

  /** A sequence is its two halves around any cut. */
  lemma Cut(s: string, n: nat)
    requires n <= |s|
    ensures s == s[..n] + s[n..]
  {
  }

  /** How a greedy run extends across a concatenation. */
  lemma {:induction false} SpanAppend(a: string, b: string, k: CharClass)
    ensures Span(a + b, k) == if Span(a, k) < |a| then Span(a, k) else |a| + Span(b, k)
  {
    if a == [] {
      assert a + b == b;
    } else if InClass(a[0], k) {
      assert (a + b)[1..] == a[1..] + b;
      SpanAppend(a[1..], b, k);
    }
  }

  function TrimStart(s: string): (r: string)
    ensures |r| <= |s|
  {
    if s != [] && IsSpace(s[0]) then TrimStart(s[1..]) else s
  }

  /** `TrimStart` removes a run of whitespace and stops at a character that is not. */
  lemma {:induction false} TrimStartFacts(s: string)
    ensures TrimStart(s) == s[|s| - |TrimStart(s)|..]
    ensures forall i :: 0 <= i < |s| - |TrimStart(s)| ==> IsSpace(s[i])
    ensures TrimStart(s) == [] || !IsSpace(TrimStart(s)[0])
  {
    if s != [] && IsSpace(s[0]) {
      TrimStartFacts(s[1..]);
      assert s[1..][|s| - 1 - |TrimStart(s)|..] == s[|s| - |TrimStart(s)|..];
    }
  }

  function TrimEnd(s: string): (r: string)
    ensures |r| <= |s|
  {
    if s != [] && IsSpace(s[|s| - 1]) then TrimEnd(s[..|s| - 1]) else s
  }

  /** `TrimEnd` removes a run of whitespace from the end and stops at a character that is not. */
  lemma {:induction false} TrimEndFacts(s: string)
    ensures TrimEnd(s) == s[..|TrimEnd(s)|]
    ensures forall i :: |TrimEnd(s)| <= i < |s| ==> IsSpace(s[i])
    ensures TrimEnd(s) == [] || !IsSpace(TrimEnd(s)[|TrimEnd(s)| - 1])
  {
    if s != [] && IsSpace(s[|s| - 1]) {
      TrimEndFacts(s[..|s| - 1]);
      assert s[..|s| - 1][..|TrimEnd(s)|] == s[..|TrimEnd(s)|];
    }
  }

  /** `String.prototype.trim`. */
  function Trim(s: string): string {
    TrimEnd(TrimStart(s))
  }

  /** The trimmed text is a slice of the input with only whitespace around it. */
  lemma TrimIsSlice(s: string) returns (a: nat, b: nat)
    ensures a <= b <= |s| && Trim(s) == s[a..b]
    ensures forall i :: 0 <= i < a ==> IsSpace(s[i])
    ensures forall i :: b <= i < |s| ==> IsSpace(s[i])
    ensures Trim(s) == [] || (!IsSpace(s[a]) && !IsSpace(s[b - 1]))
  {
    var t := TrimStart(s);
    TrimStartFacts(s);
    a := |s| - |t|;
    var u := TrimEnd(t);
    TrimEndFacts(t);
    b := a + |u|;
    assert t[..|u|] == s[a..b];
    forall i | b <= i < |s| ensures IsSpace(s[i]) {
      assert s[i] == t[i - a];
    }
    if u != [] {
      assert u[0] == t[0];
    }
  }

  /** Trimming yields nothing exactly when every character is whitespace. */
  lemma TrimEmptyIff(s: string)
    ensures Trim(s) == [] <==> forall i :: 0 <= i < |s| ==> IsSpace(s[i])
  {
    var a, b := TrimIsSlice(s);
    if Trim(s) != [] {
      assert !IsSpace(s[a]);
    }
  }

  /** Text that neither starts nor ends with whitespace is its own trim. */
  lemma TrimOfUnpadded(s: string)
    requires s != [] && !IsSpace(s[0]) && !IsSpace(s[|s| - 1])
    ensures Trim(s) == s
  {
    assert TrimStart(s) == s;
  }

  /** Trimming keeps every character that is not whitespace. */
  lemma TrimKeeps(s: string, i: nat)
    requires i < |s| && !IsSpace(s[i])
    ensures s[i] in Trim(s)
  {
    var a, b := TrimIsSlice(s);
    assert !(i < a) && !(b <= i);
    assert Trim(s)[i - a] == s[i];
  }

  /** A text with a character that is neither whitespace nor `}` trims to neither `""`
      nor `"}"`. */
  lemma TrimNotBrace(s: string, i: nat)
    requires i < |s| && !IsSpace(s[i]) && s[i] != '}'
    ensures Trim(s) != "}" && Trim(s) != ""
  {
    TrimKeeps(s, i);
  }

  /** `String.prototype.split` with a one-character separator. */
  function Split(s: string, sep: char): (r: seq<string>)
    ensures |r| >= 1
    ensures forall i :: 0 <= i < |r| ==> sep !in r[i]
  {
    if s == [] then [[]]
    else
      var rest := Split(s[1..], sep);
      if s[0] == sep then [[]] + rest else [[s[0]] + rest[0]] + rest[1..]
  }

  /** The first part of a split is empty exactly when the text is empty or opens with
      the separator; otherwise it opens with the text's first character. */
  lemma SplitFirstChar(s: string, sep: char)
    ensures Split(s, sep)[0] != [] <==> s != [] && s[0] != sep
    ensures s != [] && s[0] != sep ==> Split(s, sep)[0][0] == s[0]
  {
  }

  /** `Array.prototype.join` with a one-character separator. */
  function Join(parts: seq<string>, sep: char): string {
    if |parts| == 0 then []
    else if |parts| == 1 then parts[0]
    else parts[0] + [sep] + Join(parts[1..], sep)
  }

  /** The line-splitting of the converter: `text.split("\n")`. */
  function Lines(s: string): seq<string> {
    Split(s, '\n')
  }

  /** The line-joining of the converter: `lines.join("\n")`. */
  function Unlines(ls: seq<string>): string {
    Join(ls, '\n')
  }

  lemma {:induction false} JoinSplit(s: string, sep: char)
    ensures Join(Split(s, sep), sep) == s
  {
    if s != [] {
      JoinSplit(s[1..], sep);
      var rest := Split(s[1..], sep);
      if |rest| >= 2 {
        assert Join(rest, sep) == rest[0] + [sep] + Join(rest[1..], sep);
        if s[0] != sep {
          assert ([[s[0]] + rest[0]] + rest[1..])[1..] == rest[1..];
        }
      }
    }
  }

  lemma {:induction false} SplitNoSep(l: string, sep: char)
    requires sep !in l
    ensures Split(l, sep) == [l]
  {
    if l != [] {
      SplitNoSep(l[1..], sep);
      assert l[0] != sep;
      assert l == [l[0]] + l[1..];
    }
  }

  lemma {:induction false} SplitAfterPart(l: string, sep: char, t: string)
    requires sep !in l
    ensures Split(l + [sep] + t, sep) == [l] + Split(t, sep)
  {
    if l == [] {
      assert l + [sep] + t == [sep] + t;
    } else {
      var s := l + [sep] + t;
      assert s[0] == l[0] && l[0] != sep;
      assert s[1..] == l[1..] + [sep] + t;
      SplitAfterPart(l[1..], sep, t);
      assert l == [l[0]] + l[1..];
    }
  }

  /** Splitting undoes joining, for parts that do not contain the separator. */
  lemma {:induction false} SplitJoin(parts: seq<string>, sep: char)
    requires |parts| >= 1
    requires forall i :: 0 <= i < |parts| ==> sep !in parts[i]
    ensures Split(Join(parts, sep), sep) == parts
  {
    if |parts| == 1 {
      SplitNoSep(parts[0], sep);
    } else {
      SplitJoin(parts[1..], sep);
      SplitAfterPart(parts[0], sep, Join(parts[1..], sep));
    }
  }

  /** Joining one more part adds the separator and that part. */
  lemma {:induction false} JoinSnoc(parts: seq<string>, last: string, sep: char)
    requires |parts| >= 1
    ensures Join(parts + [last], sep) == Join(parts, sep) + [sep] + last
  {
    if |parts| > 1 {
      assert (parts + [last])[1..] == parts[1..] + [last];
      JoinSnoc(parts[1..], last, sep);
    }
  }

  /** The layout both emitters write: a first line, the body lines, and a closing `}`
      line, as in `${first}\n${body.join("\n")}\n}`. */
  function Framed(first: string, body: seq<string>): string {
    first + ("\n" + (Unlines(body) + "\n}"))
  }

  /** An empty body still leaves one (empty) line between the first line and `}`. */
  function BodyLines(body: seq<string>): (r: seq<string>)
    ensures |r| >= 1
  {
    if body == [] then [""] else body
  }

  predicate NoNewline(parts: seq<string>) {
    forall i :: 0 <= i < |parts| ==> '\n' !in parts[i]
  }

  /** Splitting the framed text gives back its first line, its body lines and `}`. */
  lemma LinesOfFramed(first: string, body: seq<string>)
    requires '\n' !in first && NoNewline(body)
    ensures Lines(Framed(first, body)) == [first] + BodyLines(body) + ["}"]
  {
    var b := BodyLines(body);
    assert Unlines(b) == Unlines(body);
    JoinSnoc(b, "}", '\n');
    var all := [first] + b + ["}"];
    assert all[1..] == b + ["}"];
    assert Join(all, '\n') == first + "\n" + Join(b + ["}"], '\n');
    assert Framed(first, body) == Join(all, '\n');
    forall i | 0 <= i < |all| ensures '\n' !in all[i] {
      if 1 <= i < |all| - 1 {
        assert all[i] == b[i - 1];
      }
    }
    SplitJoin(all, '\n');
  }

  /** A framed text whose first line opens with a non-space is its own trim. */
  lemma FramedIsTrimmed(first: string, body: seq<string>)
    requires first != [] && !IsSpace(first[0])
    ensures Trim(Framed(first, body)) == Framed(first, body)
  {
    var s := Framed(first, body);
    assert s[0] == first[0];
    assert s[|s| - 1] == '}';
    TrimOfUnpadded(s);
  }

  /** `String.prototype.includes`. */
  function Contains(s: string, sub: string): bool
    decreases |s|
  {
    |s| >= |sub| && (s[..|sub|] == sub || Contains(s[1..], sub))
  }

  lemma {:induction false} ContainsAppend(a: string, sub: string, b: string)
    ensures Contains(a + sub + b, sub)
  {
    if a == [] {
      assert (a + sub + b)[..|sub|] == sub;
    } else {
      assert (a + sub + b)[1..] == a[1..] + sub + b;
      ContainsAppend(a[1..], sub, b);
    }
  }

  /** Text that holds a substring holds each of its characters. */
  lemma {:induction false} ContainsHas(s: string, sub: string, c: char)
    requires c in sub && Contains(s, sub)
    ensures c in s
  {
    if s[..|sub|] == sub {
      var j :| 0 <= j < |sub| && sub[j] == c;
      assert s[j] == s[..|sub|][j];
    } else {
      ContainsHas(s[1..], sub, c);
    }
  }

  /** Index of the first `c` in `s`, or `|s|` when there is none. */
  function IndexOf(s: string, c: char): (k: nat)
    ensures k <= |s|
    ensures k < |s| ==> s[k] == c
    ensures forall j :: 0 <= j < k ==> s[j] != c
  {
    if s == [] then 0 else if s[0] == c then 0 else 1 + IndexOf(s[1..], c)
  }

  /** ASCII case-insensitive prefix test, as a regular expression with the `i` flag
      compares letters (no non-ASCII character folds to an ASCII one there). */
  predicate StartsWithIgnoringCase(s: string, lit: string) {
    |s| >= |lit| && forall i :: 0 <= i < |lit| ==> ToLower(s[i]) == ToLower(lit[i])
  }

  predicate StartsWith(s: string, lit: string) {
    |s| >= |lit| && s[..|lit|] == lit
  }

  /** Whether a text starts with `lit`, case ignored, depends only on its first |lit|
      characters. */
  lemma IgnoringCaseOfPrefix(kw: string, x: string, lit: string)
    requires |kw| == |lit|
    ensures StartsWithIgnoringCase(kw + x, lit) <==> StartsWithIgnoringCase(kw, lit)
  {
    assert forall i :: 0 <= i < |lit| ==> (kw + x)[i] == kw[i];
  }

  /** An exact prefix is also a prefix when case is ignored. */
  lemma ExactPrefixIgnoringCase(s: string, lit: string)
    requires StartsWith(s, lit)
    ensures StartsWithIgnoringCase(s, lit)
  {
    forall i | 0 <= i < |lit| ensures ToLower(s[i]) == ToLower(lit[i]) {
      assert s[i] == s[..|lit|][i];
    }
  }

  predicate EndsWith(s: string, suffix: string) {
    |s| >= |suffix| && s[|s| - |suffix|..] == suffix
  }

  /** A text whose first character differs from the literal's does not start with it. */
  lemma FirstCharRules(s: string, lit: string)
    requires s != [] && lit != [] && s[0] != lit[0]
    ensures !StartsWith(s, lit)
  {
    if |s| >= |lit| {
      assert s[..|lit|][0] == s[0];
    }
  }

  /** `s.charAt(0).toLowerCase() + s.slice(1)` on ASCII text. */
  function LowerFirst(s: string): (r: string)
    ensures |r| == |s|
    ensures s != [] ==> r[0] == ToLower(s[0]) && r[1..] == s[1..]
  {
    if s == [] then [] else [ToLower(s[0])] + s[1..]
  }

  /** A word has no line break in it. */
  lemma NoNewlineInWord(w: string)
    requires IsWord(w)
    ensures '\n' !in w
  {
  }
}
