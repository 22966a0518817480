/** The two case converters of the tag synthesizer and the Go emitter
    (src/extension.ts, toSnakeCase and toCamelCase). Both are chains of
    regular-expression replacements; each replacement is one function here. */
module CaseConversion {
  import opened Text

  /** The replacement `"_$1"` applied to one character. */
  function Mark(c: char): string {
    if IsUpper(c) then ['_', c] else [c]
  }

  /** `str.replace(/([A-Z])/g, "_$1")`: an underscore before every capital. */
  function MarkCapitals(s: string): string
  {
    if s == [] then [] else Mark(s[0]) + MarkCapitals(s[1..])
  }

  /** `str.toLowerCase()` on ASCII text. */
  function LowerAll(s: string): (r: string)
    ensures |r| == |s|
    ensures forall i :: 0 <= i < |s| ==> r[i] == ToLower(s[i])
  {
    seq(|s|, i requires 0 <= i < |s| => ToLower(s[i]))
  }

  /** toSnakeCase: mark capitals, lower everything, then drop one leading `_`. */
  function ToSnakeCase(s: string): string {
    var t := LowerAll(MarkCapitals(s));
    if t != [] && t[0] == '_' then t[1..] else t
  }

  /** `str.replace(/_([a-z])/g, c => c.toUpperCase())`: one left-to-right scan in which
      an underscore followed by a lower-case letter becomes that letter in upper case. */
  function RaiseAfterUnderscores(s: string): string {
    if |s| >= 2 && s[0] == '_' && IsLower(s[1]) then [ToUpper(s[1])] + RaiseAfterUnderscores(s[2..])
    else if s == [] then []
    else [s[0]] + RaiseAfterUnderscores(s[1..])
  }

  /** `str.replace(/^([a-z])/, c => c.toUpperCase())`: a lower-case first letter is raised. */
  function CapitaliseFirst(t: string): string {
    if t != [] && IsLower(t[0]) then [ToUpper(t[0])] + t[1..] else t
  }

  /** toCamelCase: raise the letter after each underscore, then a lower-case first letter. */
  function ToCamelCase(s: string): string {
    CapitaliseFirst(RaiseAfterUnderscores(s))
  }

  /** The snake-case name holds no capital letter. */
  lemma SnakeHasNoCapital(s: string)
    ensures forall i :: 0 <= i < |ToSnakeCase(s)| ==> !IsUpper(ToSnakeCase(s)[i])
  {
    var t := LowerAll(MarkCapitals(s));
    assert forall i :: 0 <= i < |t| ==> !IsUpper(t[i]);
  }

  /** Raising never lengthens the text, keeps a word a word, and leaves no lower-case
      letter right after an underscore. */
  lemma {:induction false} RaiseFacts(s: string)
    ensures var r := RaiseAfterUnderscores(s);
      |r| <= |s| && (s != [] ==> r != [] && (r[0] == s[0] || !IsLower(r[0])))
    ensures IsWord(s) ==> IsWord(RaiseAfterUnderscores(s))
    ensures var r := RaiseAfterUnderscores(s);
      forall i :: 0 <= i < |r| - 1 && r[i] == '_' ==> !IsLower(r[i + 1])
  {
    var r := RaiseAfterUnderscores(s);
    if |s| >= 2 && s[0] == '_' && IsLower(s[1]) {
      RaiseFacts(s[2..]);
      var rest := RaiseAfterUnderscores(s[2..]);
      assert r == [ToUpper(s[1])] + rest;
      assert forall i :: 1 <= i < |r| ==> r[i] == rest[i - 1];
    } else if s != [] {
      RaiseFacts(s[1..]);
      var rest := RaiseAfterUnderscores(s[1..]);
      assert r == [s[0]] + rest;
      assert forall i :: 1 <= i < |r| ==> r[i] == rest[i - 1];
      if s[0] == '_' && rest != [] {
        assert |s| >= 2;
        assert !IsLower(rest[0]);
      }
    }
  }

  /** The camel-case name is no longer than its input, non-empty for non-empty input,
      starts with no lower-case letter, has no lower-case letter after an underscore,
      and is a word when its input is. */
  lemma CamelFacts(s: string)
    ensures var r := ToCamelCase(s);
      |r| <= |s| && (s != [] ==> r != []) && (r != [] ==> !IsLower(r[0]))
    ensures var r := ToCamelCase(s);
      forall i :: 0 <= i < |r| - 1 && r[i] == '_' ==> !IsLower(r[i + 1])
    ensures IsWord(s) ==> IsWord(ToCamelCase(s))
  {
    RaiseFacts(s);
    var t := RaiseAfterUnderscores(s);
    var r := ToCamelCase(s);
    if t != [] && IsLower(t[0]) {
      assert forall i :: 1 <= i < |r| ==> r[i] == t[i];
    }
  }

  /** Marking capitals keeps a word a word. */
  lemma {:induction false} MarkKeepsWord(s: string)
    requires IsWord(s)
    ensures IsWord(MarkCapitals(s))
  {
    if s != [] {
      MarkKeepsWord(s[1..]);
      var m := Mark(s[0]);
      var rest := MarkCapitals(s[1..]);
      assert forall i :: |m| <= i < |m + rest| ==> (m + rest)[i] == rest[i - |m|];
    }
  }

  /** The JSON name synthesized for an exported field name is a non-empty word. */
  lemma SnakeOfExported(s: string)
    requires s != [] && IsUpper(s[0]) && IsWord(s)
    ensures ToSnakeCase(s) != [] && IsWord(ToSnakeCase(s))
  {
    MarkKeepsWord(s);
    var m := MarkCapitals(s);
    assert m == ['_', s[0]] + MarkCapitals(s[1..]);
    var t := LowerAll(m);
    assert forall i :: 0 <= i < |t| ==> IsWordChar(t[i]) by {
      forall i | 0 <= i < |t| ensures IsWordChar(t[i]) {
        assert IsWordChar(m[i]);
      }
    }
  }

  predicate IsAlphanumeric(s: string) {
    forall i :: 0 <= i < |s| ==> IsUpper(s[i]) || IsLower(s[i]) || IsDigit(s[i])
  }

  /** Lowering distributes over concatenation. */
  lemma LowerAllAppend(a: string, b: string)
    ensures LowerAll(a + b) == LowerAll(a) + LowerAll(b)
  {
  }

  /** Raising the marked, lowered form of an alphanumeric name restores the name. */
  lemma {:induction false} RaiseUndoesMarking(t: string)
    requires IsAlphanumeric(t)
    ensures RaiseAfterUnderscores(LowerAll(MarkCapitals(t))) == t
  {
    if t != [] {
      var rest := LowerAll(MarkCapitals(t[1..]));
      RaiseUndoesMarking(t[1..]);
      LowerAllAppend(Mark(t[0]), MarkCapitals(t[1..]));
      var head := LowerAll(Mark(t[0]));
      assert LowerAll(MarkCapitals(t)) == head + rest;
      if IsUpper(t[0]) {
        assert head == ['_', ToLower(t[0])];
        assert (head + rest)[2..] == rest;
        assert RaiseAfterUnderscores(head + rest) == [t[0]] + t[1..];
      } else {
        assert head == [t[0]];
        assert (head + rest)[1..] == rest;
        assert RaiseAfterUnderscores(head + rest) == [t[0]] + t[1..];
      }
      assert t == [t[0]] + t[1..];
    }
  }

  /** A capitalised alphanumeric Go name survives the trip through its snake-case JSON
      name and back: toCamelCase(toSnakeCase(s)) == s. */
  lemma SnakeThenCamel(s: string)
    requires s != [] && IsUpper(s[0]) && IsAlphanumeric(s)
    ensures ToCamelCase(ToSnakeCase(s)) == s
  {
    var lower := [ToLower(s[0])];
    var rest := LowerAll(MarkCapitals(s[1..]));
    SnakeOfCapitalFirst(s);
    RaiseOverPlain(lower, rest);
    RaiseUndoesMarking(s[1..]);
    assert (lower + s[1..])[1..] == s[1..];
    assert s == [s[0]] + s[1..];
  }

  /** A name that starts with a capital: the capital is lowered, and the rest is marked
      and lowered. */
  lemma SnakeOfCapitalFirst(s: string)
    requires s != [] && IsUpper(s[0])
    ensures ToSnakeCase(s) == [ToLower(s[0])] + LowerAll(MarkCapitals(s[1..]))
  {
    var rest := LowerAll(MarkCapitals(s[1..]));
    assert MarkCapitals(s) == ['_', s[0]] + MarkCapitals(s[1..]);
    LowerAllAppend(['_', s[0]], MarkCapitals(s[1..]));
    assert LowerAll(['_', s[0]]) == ['_', ToLower(s[0])];
    assert (['_', ToLower(s[0])] + rest)[1..] == [ToLower(s[0])] + rest;
  }

  /** Marking capitals works character by character, so it distributes over concatenation. */
  lemma {:induction false} MarkCapitalsAppend(a: string, b: string)
    ensures MarkCapitals(a + b) == MarkCapitals(a) + MarkCapitals(b)
  {
    if a == [] {
      assert a + b == b;
    } else {
      assert (a + b)[1..] == a[1..] + b;
      MarkCapitalsAppend(a[1..], b);
    }
  }

  /** Before a capital, the text splits: each side converts on its own and an underscore
      joins them. */
  lemma SnakeOfJoined(a: string, b: string)
    requires a != [] && b != [] && IsUpper(b[0])
    ensures ToSnakeCase(a + b) == ToSnakeCase(a) + ("_" + ToSnakeCase(b))
  {
    var la := LowerAll(MarkCapitals(a));
    var lb := LowerAll(MarkCapitals(b));
    MarkCapitalsAppend(a, b);
    LowerAllAppend(MarkCapitals(a), MarkCapitals(b));
    assert LowerAll(MarkCapitals(a + b)) == la + lb;
    MarkedCapitalFirst(b);
    MarkedNonEmpty(a);
    DropLeadingMark(la, lb);
  }

  /** Dropping a leading `_` from a joined text only touches its first part. */
  lemma DropLeadingMark(la: string, lb: string)
    requires la != []
    ensures (if la + lb != [] && (la + lb)[0] == '_' then (la + lb)[1..] else la + lb)
      == (if la != [] && la[0] == '_' then la[1..] else la) + lb
  {
    if la[0] == '_' {
      assert (la + lb)[1..] == la[1..] + lb;
    }
  }

  /** A text that starts with a capital marks and lowers to `_` and then its snake case. */
  lemma MarkedCapitalFirst(b: string)
    requires b != [] && IsUpper(b[0])
    ensures LowerAll(MarkCapitals(b)) == "_" + ToSnakeCase(b)
  {
    assert MarkCapitals(b) == ['_', b[0]] + MarkCapitals(b[1..]);
    LowerAllAppend(['_', b[0]], MarkCapitals(b[1..]));
  }

  lemma MarkedNonEmpty(a: string)
    requires a != []
    ensures LowerAll(MarkCapitals(a)) != []
  {
    assert MarkCapitals(a) == Mark(a[0]) + MarkCapitals(a[1..]);
  }

  /** A capital followed by lower-case letters only: the capital is lowered, nothing is marked. */
  lemma {:induction false} SnakeOfCapitalWord(c: char, w: string)
    requires IsUpper(c) && forall i :: 0 <= i < |w| ==> IsLower(w[i])
    ensures ToSnakeCase([c] + w) == [ToLower(c)] + w
  {
    LowerWordUnmarked(w);
    assert ([c] + w)[1..] == w;
    assert MarkCapitals([c] + w) == ['_', c] + w;
  }

  lemma {:induction false} LowerWordUnmarked(w: string)
    requires forall i :: 0 <= i < |w| ==> IsLower(w[i])
    ensures MarkCapitals(w) == w && LowerAll(w) == w
  {
    if w != [] {
      LowerWordUnmarked(w[1..]);
      assert w == [w[0]] + w[1..];
    }
  }

  /** A run without underscores is copied unchanged before the rest is raised. */
  lemma {:induction false} RaiseOverPlain(w: string, s: string)
    requires '_' !in w
    ensures RaiseAfterUnderscores(w + s) == w + RaiseAfterUnderscores(s)
  {
    if w == [] {
      assert w + s == s;
    } else {
      assert (w + s)[0] == w[0] && (w + s)[1..] == w[1..] + s;
      RaiseOverPlain(w[1..], s);
      assert w == [w[0]] + w[1..];
    }
  }

  /** One `_c` pair with `c` a lower-case letter. */
  lemma RaiseStep(c: char, s: string)
    requires IsLower(c)
    ensures RaiseAfterUnderscores("_" + ([c] + s)) == [ToUpper(c)] + RaiseAfterUnderscores(s)
  {
    assert ("_" + ([c] + s))[2..] == s;
  }

  /** `_c` with `c` a lower-case letter becomes the capital of `c`: the underscore goes,
      and the letter is raised, wherever the pair stands after the first word. */
  lemma CamelOfJoined(w: string, c: char, rest: string)
    requires w != [] && '_' !in w && IsLower(c)
    ensures ToCamelCase(w + ("_" + ([c] + rest))) == ToCamelCase(w) + ([ToUpper(c)] + RaiseAfterUnderscores(rest))
  {
    var raised := [ToUpper(c)] + RaiseAfterUnderscores(rest);
    RaiseStep(c, rest);
    RaiseOverPlain(w, "_" + ([c] + rest));
    RaiseOverPlain(w, []);
    assert w + [] == w;
    CapitaliseFirstAppend(w, raised);
  }

  /** Raising the first letter touches only the first part of a joined text. */
  lemma CapitaliseFirstAppend(a: string, b: string)
    requires a != []
    ensures CapitaliseFirst(a + b) == CapitaliseFirst(a) + b
  {
    assert (a + b)[0] == a[0];
    if IsLower(a[0]) {
      assert (a + b)[1..] == a[1..] + b;
    }
  }

  /** A leading `_c` also loses its underscore: the raised letter already starts the
      name with a capital, so `_x` gives `X`. */
  lemma CamelOfLeadingUnderscore(c: char, rest: string)
    requires IsLower(c)
    ensures ToCamelCase("_" + ([c] + rest)) == [ToUpper(c)] + RaiseAfterUnderscores(rest)
  {
    RaiseStep(c, rest);
  }

  /** `_x` becomes `X`. */
  lemma CamelOfUnderscoreX()
    ensures ToCamelCase("_x") == "X"
  {
    assert "_x" == "_" + (['x'] + "");
    CamelOfLeadingUnderscore('x', "");
  }

  /** A one-letter exported name: the marking underscore is dropped again. */
  lemma SnakeOfOneCapital()
    ensures ToSnakeCase("X") == "x"
  {
  }

  /** A name without underscores is only capitalised. */
  lemma CamelOfId()
    ensures ToCamelCase("id") == "Id"
  {
  }

  /** A capital followed by lower-case letters. */
  predicate CapitalWord(w: string) {
    w != [] && IsUpper(w[0]) && forall i :: 1 <= i < |w| ==> IsLower(w[i])
  }

  /** A name made of capitalised words converts word by word. */
  function SnakeWords(w: string): string
    requires CapitalWord(w)
  {
    [ToLower(w[0])] + w[1..]
  }

  lemma SnakeOfTwoWords(a: string, b: string)
    requires CapitalWord(a) && CapitalWord(b)
    ensures ToSnakeCase(a + b) == SnakeWords(a) + ("_" + SnakeWords(b))
  {
    SnakeOfJoined(a, b);
    SnakeOfCapitalWord(a[0], a[1..]);
    SnakeOfCapitalWord(b[0], b[1..]);
    assert a == [a[0]] + a[1..] && b == [b[0]] + b[1..];
  }

  lemma SnakeOfMoreWords(a: string, b: string)
    requires CapitalWord(a) && b != [] && IsUpper(b[0])
    ensures ToSnakeCase(a + b) == SnakeWords(a) + ("_" + ToSnakeCase(b))
  {
    SnakeOfJoined(a, b);
    SnakeOfCapitalWord(a[0], a[1..]);
    assert a == [a[0]] + a[1..];
  }

  /** Examples from the converter's own tests: the JSON names the tag repair writes.
      The text is split with slices of `s`, so each step is about a part of it. */
  lemma SnakeOfPublicKey(s: string)
    requires s == "PublicKey"
    ensures ToSnakeCase(s) == "public_key"
  {
    var a, b := s[..6], s[6..];
    assert s == a + b;
    SnakeOfTwoWords(a, b);
  }

  lemma SnakeOfNameOfTheHero(s: string)
    requires s == "NameOfTheHero"
    ensures ToSnakeCase(s) == "name_of_the_hero"
  {
    var a, b := s[..4], s[4..];
    assert s == a + b;
    SnakeOfOfTheHero(b);
    SnakeOfMoreWords(a, b);
    NameOfTheHeroJoined(SnakeWords(a), ToSnakeCase(b));
  }

  lemma NameOfTheHeroJoined(x: string, y: string)
    requires x == "name" && y == "of_the_hero"
    ensures x + ("_" + y) == "name_of_the_hero"
  {
  }

  lemma SnakeOfOfTheHero(s: string)
    requires s == "OfTheHero"
    ensures ToSnakeCase(s) == "of_the_hero"
  {
    var a, b := s[..2], s[2..];
    assert s == a + b;
    SnakeOfTheHero(b);
    SnakeOfMoreWords(a, b);
    OfTheHeroJoined(SnakeWords(a), ToSnakeCase(b));
  }

  lemma OfTheHeroJoined(x: string, y: string)
    requires x == "of" && y == "the_hero"
    ensures x + ("_" + y) == "of_the_hero"
  {
  }

  lemma SnakeOfTheHero(s: string)
    requires s == "TheHero"
    ensures ToSnakeCase(s) == "the_hero"
  {
    var a, b := s[..3], s[3..];
    assert s == a + b;
    SnakeOfTwoWords(a, b);
    TheHeroJoined(SnakeWords(a), SnakeWords(b));
  }

  lemma TheHeroJoined(x: string, y: string)
    requires x == "the" && y == "hero"
    ensures x + ("_" + y) == "the_hero"
  {
  }

  /** Every capital of an acronym is marked, so the acronym splits into letters. */
  lemma SnakeOfHttpServer(s: string)
    requires s == "HTTPServer"
    ensures ToSnakeCase(s) == "h_t_t_p_server"
  {
    SnakeOfTtpServer(s[1..]);
    SnakeOfLeadingCapital(s);
    assert ToLower(s[0]) == 'h';
  }

  lemma SnakeOfTtpServer(s: string)
    requires s == "TTPServer"
    ensures ToSnakeCase(s) == "t_t_p_server"
  {
    SnakeOfTpServer(s[1..]);
    SnakeOfLeadingCapital(s);
    assert ToLower(s[0]) == 't';
  }

  lemma SnakeOfTpServer(s: string)
    requires s == "TPServer"
    ensures ToSnakeCase(s) == "t_p_server"
  {
    SnakeOfPServer(s[1..]);
    SnakeOfLeadingCapital(s);
    assert ToLower(s[0]) == 't';
  }

  lemma SnakeOfPServer(s: string)
    requires s == "PServer"
    ensures ToSnakeCase(s) == "p_server"
  {
    var server := s[1..];
    SnakeOfCapitalWord(server[0], server[1..]);
    assert server == [server[0]] + server[1..];
    assert ToSnakeCase(server) == "server";
    SnakeOfLeadingCapital(s);
  }

  /** A capital followed by another: the first becomes its own lower-case word. */
  lemma SnakeOfLeadingCapital(s: string)
    requires |s| >= 2 && IsUpper(s[0]) && IsUpper(s[1])
    ensures ToSnakeCase(s) == [ToLower(s[0])] + ("_" + ToSnakeCase(s[1..]))
  {
    assert s == s[..1] + s[1..];
    SnakeOfJoined(s[..1], s[1..]);
    SnakeOfCapitalWord(s[0], []);
    assert s[..1] == [s[0]] + [];
  }

  /** Examples from the converter's own tests: the Go field names the TS emitter writes. */
  lemma CamelOfUserName(s: string)
    requires s == "user_name"
    ensures ToCamelCase(s) == "UserName"
  {
    var w, c, r := s[..4], s[5], s[6..];
    CamelOfWord(w);
    RaiseOverPlain(r, []);
    assert r + [] == r;
    assert s == w + ("_" + ([c] + r));
    CamelOfJoined(w, c, r);
    WordsJoined(ToCamelCase(w), ToUpper(c), r, "UserName");
  }

  /** A word with no underscore only has its first letter raised. */
  lemma CamelOfWord(s: string)
    requires '_' !in s && s != [] && IsLower(s[0])
    ensures ToCamelCase(s) == [ToUpper(s[0])] + s[1..]
  {
    RaiseOverPlain(s, []);
    assert s + [] == s;
  }

  lemma CamelOfFirstNameOfUser(s: string)
    requires s == "first_name_of_user"
    ensures ToCamelCase(s) == "FirstNameOfUser"
  {
    var w, c, r := s[..5], s[6], s[7..];
    CamelOfWord(w);
    RaiseOfAmeOfUser(r);
    assert s == w + ("_" + ([c] + r));
    CamelOfJoined(w, c, r);
    WordsJoined(ToCamelCase(w), ToUpper(c), RaiseAfterUnderscores(r), "FirstNameOfUser");
  }

  /** The last step of the examples: the parts spell the expected name. */
  lemma WordsJoined(x: string, c: char, y: string, name: string)
    requires |name| == |x| + 1 + |y| && name[..|x|] == x && name[|x|] == c && name[|x| + 1..] == y
    ensures x + ([c] + y) == name
  {
    assert name == name[..|x|] + ([name[|x|]] + name[|x| + 1..]);
  }

  lemma RaiseOfAmeOfUser(s: string)
    requires s == "ame_of_user"
    ensures RaiseAfterUnderscores(s) == "ameOfUser"
  {
    var w, r := s[..3], s[5..];
    assert s == w + ("_" + ([s[4]] + r));
    RaiseOverPlain(w, "_" + ([s[4]] + r));
    RaiseStep(s[4], r);
    RaiseOfFUser(r);
  }

  lemma RaiseOfFUser(s: string)
    requires s == "f_user"
    ensures RaiseAfterUnderscores(s) == "fUser"
  {
    var w, r := s[..1], s[3..];
    assert s == w + ("_" + ([s[2]] + r));
    RaiseOverPlain(w, "_" + ([s[2]] + r));
    RaiseStep(s[2], r);
    RaiseOverPlain(r, []);
    assert r + [] == r;
  }
}
