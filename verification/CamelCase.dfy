/**
 `case_snake_to_camel` of utils/helpers.py, on ASCII text: the first part of the name in lower case, the others
 in title case.
 */
module CamelCase {
  import opened Characters

  /** snake_str.split('_') */
  function Split(s: string): (parts: seq<string>)
    ensures parts != []
  {
    if s == "" then [""]
    else if s[0] == '_' then [""] + Split(s[1..])
    else
      var rest := Split(s[1..]);
      [[s[0]] + rest[0]] + rest[1..]
  }

  /** str.lower() */
  function Lowered(s: string): string {
    if s == "" then "" else [ToLower(s[0])] + Lowered(s[1..])
  }

  /** str.title(): a letter is a capital exactly when no letter stands before it. */
  function Title(s: string, afterLetter: bool := false): string {
    if s == "" then ""
    else
      var c := if afterLetter then ToLower(s[0]) else ToUpper(s[0]);
      [c] + Title(s[1..], IsLower(s[0]) || IsUpper(s[0]))
  }

  /** ''.join(x.title() for x in parts) */
  function Titles(parts: seq<string>): string {
    if parts == [] then "" else Title(parts[0]) + Titles(parts[1..])
  }

  function CaseSnakeToCamel(snake: string): string {
    var components := Split(snake);
    Lowered(components[0]) + Titles(components[1..])
  }

  // ---------------------------------------------------------------- names of lower-case words

  predicate IsWord(w: string) {
    forall i | 0 <= i < |w| :: IsLower(w[i])
  }

  predicate AreWords(words: seq<string>) {
    forall i | 0 <= i < |words| :: IsWord(words[i])
  }

  /** The words with an underscore between them. */
  function Snake(words: seq<string>): string
    requires words != []
  {
    if |words| == 1 then words[0] else words[0] + "_" + Snake(words[1..])
  }

  function Capital(w: string): string {
    if w == "" then "" else [ToUpper(w[0])] + w[1..]
  }

  function Capitals(words: seq<string>): string {
    if words == [] then "" else Capital(words[0]) + Capitals(words[1..])
  }

  lemma {:induction false} SplitWord(w: string, rest: string)
    requires IsWord(w)
    ensures Split(w) == [w]
    ensures Split(w + "_" + rest) == [w] + Split(rest)
  {
    var s := w + "_" + rest;
    if w == "" {
      assert s[1..] == rest;
    } else {
      SplitWord(w[1..], rest);
      assert s[1..] == w[1..] + "_" + rest;
      assert [w[0]] + w[1..] == w;
    }
  }

  lemma {:induction false} SplitSnake(words: seq<string>)
    requires words != [] && AreWords(words)
    ensures Split(Snake(words)) == words
  {
    if |words| == 1 {
      SplitWord(words[0], "");
    } else {
      SplitSnake(words[1..]);
      SplitWord(words[0], Snake(words[1..]));
    }
  }

  lemma {:induction false} LowerWord(w: string)
    requires IsWord(w)
    ensures Lowered(w) == w && Title(w, true) == w && Title(w) == Capital(w)
  {
    if w != "" {
      LowerWord(w[1..]);
      assert [w[0]] + w[1..] == w;
    }
  }

  lemma {:induction false} TitlesOfWords(words: seq<string>)
    requires AreWords(words)
    ensures Titles(words) == Capitals(words)
  {
    if words != [] {
      LowerWord(words[0]);
      TitlesOfWords(words[1..]);
    }
  }

  /** The first word as it is, then every other word with a capital. */
  lemma CamelOfWords(words: seq<string>)
    requires words != [] && AreWords(words)
    ensures CaseSnakeToCamel(Snake(words)) == words[0] + Capitals(words[1..])
  {
    SplitSnake(words);
    LowerWord(words[0]);
    TitlesOfWords(words[1..]);
  }

  // ---------------------------------------------------------------- no two names meet

  /** An underscore and a small letter for every capital. */
  function CaseCamelToSnake(camel: string): string {
    if camel == "" then ""
    else (if IsUpper(camel[0]) then ['_', ToLower(camel[0])] else [camel[0]]) + CaseCamelToSnake(camel[1..])
  }

  lemma {:induction false} WordIsKept(w: string, rest: string)
    requires IsWord(w)
    ensures CaseCamelToSnake(w + rest) == w + CaseCamelToSnake(rest)
  {
    if w == "" {
      assert w + rest == rest;
    } else {
      WordIsKept(w[1..], rest);
      assert (w + rest)[1..] == w[1..] + rest;
      assert [w[0]] + w[1..] == w;
    }
  }

  lemma CapitalUndone(w: string, rest: string)
    requires IsWord(w) && w != ""
    ensures CaseCamelToSnake(Capital(w) + rest) == "_" + w + CaseCamelToSnake(rest)
  {
    var camel := Capital(w) + rest;
    assert IsUpper(camel[0]) && ToLower(camel[0]) == w[0];
    assert camel[1..] == w[1..] + rest;
    WordIsKept(w[1..], rest);
    assert ['_', w[0]] + (w[1..] + CaseCamelToSnake(rest)) == "_" + w + CaseCamelToSnake(rest);
  }

  predicate AreNonEmptyWords(words: seq<string>) {
    forall i | 0 <= i < |words| :: IsWord(words[i]) && words[i] != ""
  }

  /** The rest of a snake-case name after its first word. */
  function Tail(words: seq<string>): string {
    if words == [] then "" else "_" + Snake(words)
  }

  lemma {:induction false} CapitalsUndone(words: seq<string>)
    requires AreNonEmptyWords(words)
    ensures CaseCamelToSnake(Capitals(words)) == Tail(words)
  {
    if words == [] {
      assert CaseCamelToSnake("") == "";
    } else {
      var (word, rest) := (words[0], Capitals(words[1..]));
      CapitalsUndone(words[1..]);
      CapitalUndone(word, rest);
      TailOfMore(words);
      assert Capitals(words) == Capital(word) + rest;
    }
  }

  lemma TailOfMore(words: seq<string>)
    requires words != []
    ensures Tail(words) == "_" + words[0] + Tail(words[1..])
  {
    SnakeTail(words);
    assert "_" + words[0] + Tail(words[1..]) == "_" + (words[0] + Tail(words[1..]));
  }

  lemma SnakeTail(words: seq<string>)
    requires words != []
    ensures Snake(words) == words[0] + Tail(words[1..])
  {
    if |words| == 1 {
      assert words[0] + Tail([]) == words[0];
    } else {
      assert words[0] + "_" + Snake(words[1..]) == words[0] + ("_" + Snake(words[1..]));
    }
  }

  /** The conversion is undone, so that distinct names of non-empty words have distinct keys. */
  lemma CamelUndone(words: seq<string>)
    requires words != [] && AreNonEmptyWords(words)
    ensures CaseCamelToSnake(CaseSnakeToCamel(Snake(words))) == Snake(words)
  {
    CamelOfWords(words);
    WordIsKept(words[0], Capitals(words[1..]));
    CapitalsUndone(words[1..]);
    SnakeTail(words);
  }
}
