/** Serde's `#[serde(rename_all = "camelCase")]` applied to the fields of a
    struct: the field name is first turned to PascalCase (every `_` dropped,
    the character after it and the first character upper-cased, ASCII only)
    and the first character is then put back in lower case. */
module Serde {

  function UpperAscii(c: char): (u: char) {
    if 'a' <= c <= 'z' then (c as int - 32) as char else c
  }

  function LowerAscii(c: char): (l: char) {
    if 'A' <= c <= 'Z' then (c as int + 32) as char else c
  }

  /** PascalCase of the rest of a field name; `capitalize` says that the next
      kept character starts a word. */
  function Pascal(field: string, capitalize: bool): (pascal: string) {
    if |field| == 0 then []
    else if field[0] == '_' then Pascal(field[1..], true)
    else if capitalize then [UpperAscii(field[0])] + Pascal(field[1..], false)
    else [field[0]] + Pascal(field[1..], false)
  }

  /** The wire name serde gives a field under `rename_all = "camelCase"`. */
  function CamelCase(field: string): (name: string) {
    var pascal := Pascal(field, true);
    if |pascal| == 0 then [] else [LowerAscii(pascal[0])] + pascal[1..]
  }

  function CamelCaseAll(fields: seq<string>): (names: seq<string>)
    ensures |names| == |fields|
    ensures forall i :: 0 <= i < |fields| ==> names[i] == CamelCase(fields[i])
  {
    if |fields| == 0 then [] else [CamelCase(fields[0])] + CamelCaseAll(fields[1..])
  }

  /** A word of a snake_case name: non-empty lower-case ASCII letters. */
  predicate IsLowerWord(w: string) {
    |w| > 0 && forall i :: 0 <= i < |w| ==> 'a' <= w[i] <= 'z'
  }

  function Capitalized(w: string): (word: string) {
    if |w| == 0 then [] else [UpperAscii(w[0])] + w[1..]
  }

  /** Words joined by underscores. */
  function SnakeCase(words: seq<string>): (snake: string)
    requires |words| > 0
  {
    if |words| == 1 then words[0] else words[0] + "_" + SnakeCase(words[1..])
  }

  /** Every word capitalized and then joined without separators. */
  function CapitalizedWords(words: seq<string>): (joined: string) {
    if |words| == 0 then [] else Capitalized(words[0]) + CapitalizedWords(words[1..])
  }

  lemma AppendAssoc(a: string, b: string, c: string)
    ensures a + (b + c) == (a + b) + c
  {
  }

  /** One step of `Pascal` on a character that is not `_`. */
  lemma PascalStep(s: string, capitalize: bool)
    requires |s| > 0 && s[0] != '_'
    ensures Pascal(s, capitalize) == (if capitalize then [UpperAscii(s[0])] else [s[0]]) + Pascal(s[1..], false)
  {
  }

  lemma LowerWordTail(w: string)
    requires IsLowerWord(w) && |w| > 1
    ensures IsLowerWord(w[1..])
  {
    forall i | 0 <= i < |w[1..]| ensures 'a' <= w[1..][i] <= 'z' {
      assert w[1..][i] == w[i + 1];
    }
  }

  lemma {:induction false} PascalWord(w: string, rest: string, capitalize: bool)
    requires IsLowerWord(w)
    ensures Pascal(w + rest, capitalize) == (if capitalize then Capitalized(w) else w) + Pascal(rest, false)
    decreases |w|
  {
    var s := w + rest;
    var c := w[0];
    assert 'a' <= c <= 'z';
    assert s[0] == c && s[1..] == w[1..] + rest;
    PascalStep(s, capitalize);
    var head := if capitalize then [UpperAscii(c)] else [c];
    var word := if capitalize then Capitalized(w) else w;
    assert word == head + w[1..];
    if |w| > 1 {
      LowerWordTail(w);
      PascalWord(w[1..], rest, false);
      AppendAssoc(head, w[1..], Pascal(rest, false));
    } else {
      assert w[1..] + rest == rest && w[1..] == [];
      assert word == head;
    }
  }

  lemma {:induction false} PascalSnake(words: seq<string>, capitalize: bool)
    requires |words| > 0
    requires forall i :: 0 <= i < |words| ==> IsLowerWord(words[i])
    ensures Pascal(SnakeCase(words), capitalize)
      == (if capitalize then Capitalized(words[0]) else words[0]) + CapitalizedWords(words[1..])
    decreases |words|
  {
    if |words| == 1 {
      PascalWord(words[0], [], capitalize);
      assert words[0] + [] == words[0];
    } else {
      var rest := "_" + SnakeCase(words[1..]);
      assert SnakeCase(words) == words[0] + rest;
      PascalWord(words[0], rest, capitalize);
      assert rest[0] == '_' && rest[1..] == SnakeCase(words[1..]);
      PascalSnake(words[1..], true);
      assert words[1..][1..] == words[2..];
    }
  }

  lemma CamelCaseOfPascal(field: string, pascal: string)
    requires Pascal(field, true) == pascal && |pascal| > 0
    ensures CamelCase(field) == [LowerAscii(pascal[0])] + pascal[1..]
  {
  }

  /** A snake_case field becomes its first word followed by the other words
      capitalized. */
  lemma CamelCaseOfSnake(words: seq<string>)
    requires |words| > 0
    requires forall i :: 0 <= i < |words| ==> IsLowerWord(words[i])
    ensures CamelCase(SnakeCase(words)) == words[0] + CapitalizedWords(words[1..])
  {
    var w := words[0];
    assert IsLowerWord(w);
    var tail := CapitalizedWords(words[1..]);
    var pascal := Capitalized(w) + tail;
    PascalSnake(words, true);
    CamelCaseOfPascal(SnakeCase(words), pascal);
    LowerAfterCapitalized(w, tail);
  }

  lemma LowerUpper(c: char)
    requires 'a' <= c <= 'z'
    ensures LowerAscii(UpperAscii(c)) == c
  {
  }

  lemma LowerAfterCapitalized(w: string, tail: string)
    requires IsLowerWord(w)
    ensures var pascal := Capitalized(w) + tail; [LowerAscii(pascal[0])] + pascal[1..] == w + tail
  {
    var c, rest := w[0], w[1..] + tail;
    var pascal := Capitalized(w) + tail;
    assert pascal[0] == UpperAscii(c) && pascal[1..] == rest by {
      assert pascal == [UpperAscii(c)] + rest;
    }
    assert LowerAscii(UpperAscii(c)) == c by {
      assert 'a' <= c <= 'z';
      LowerUpper(c);
    }
    assert w + tail == [c] + rest;
  }

  lemma CamelCaseOfOneWord(w: string)
    requires IsLowerWord(w)
    ensures CamelCase(w) == w
  {
    CamelCaseOfSnake([w]);
    assert w + [] == w;
  }

  lemma CamelCaseOfTwoWords(a: string, b: string)
    requires IsLowerWord(a) && IsLowerWord(b)
    ensures CamelCase(a + "_" + b) == a + Capitalized(b)
  {
    CamelCaseOfSnake([a, b]);
    assert [a, b][1..] == [b];
    assert CapitalizedWords([b]) == Capitalized(b) + CapitalizedWords([]);
  }

  /** The same fact with the field and its wire name as parameters, so that a
      caller naming concrete strings never unfolds `CamelCase` on them. */
  lemma TwoWordField(a: string, b: string, field: string, name: string)
    requires IsLowerWord(a) && IsLowerWord(b)
    requires field == a + "_" + b && name == a + Capitalized(b)
    ensures CamelCase(field) == name
  {
    CamelCaseOfTwoWords(a, b);
  }

  /** The renamed field list of a struct, field by field (two, three and four fields). */
  lemma CamelCaseAllOfTwo(a: string, b: string, na: string, nb: string)
    requires CamelCase(a) == na && CamelCase(b) == nb
    ensures CamelCaseAll([a, b]) == [na, nb]
  {
  }

  lemma CamelCaseAllOfThree(a: string, b: string, c: string, na: string, nb: string, nc: string)
    requires CamelCase(a) == na && CamelCase(b) == nb && CamelCase(c) == nc
    ensures CamelCaseAll([a, b, c]) == [na, nb, nc]
  {
  }

  lemma CamelCaseAllOfFour(a: string, b: string, c: string, d: string, na: string, nb: string, nc: string, nd: string)
    requires CamelCase(a) == na && CamelCase(b) == nb && CamelCase(c) == nc && CamelCase(d) == nd
    ensures CamelCaseAll([a, b, c, d]) == [na, nb, nc, nd]
  {
  }
}
