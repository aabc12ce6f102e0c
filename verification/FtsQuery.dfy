/**
 From the visitor's free text to a full-text query (`ftsQuery`, internal/store/torrents.go) and back:
 what the full-text engine reads is exactly the list of words, each a quoted prefix phrase.
 */
module FtsQuery {
  import opened Wrappers
  import opened Fts

  predicate IsSeparator(c: char) {
    c == ' ' || c == '\t' || c == '\n'
  }

  predicate IsWord(w: string) {
    w != "" && '"' !in w && forall i | 0 <= i < |w| :: !IsSeparator(w[i])
  }

  // ---------------------------------------------------------------------------------------------
  // Reference: remove the quotes, split at every separator, keep what is not empty
  // ---------------------------------------------------------------------------------------------

  function Unquoted(s: string): string {
    if s == "" then ""
    else
      var init := Unquoted(s[..|s| - 1]);
      if s[|s| - 1] == '"' then init else init + [s[|s| - 1]]
  }

  function Fields(s: string): (fields: seq<string>)
    ensures fields != []
  {
    if s == "" then [""] else Extend(Fields(s[..|s| - 1]), s[|s| - 1])
  }

  function Extend(fields: seq<string>, c: char): (r: seq<string>)
    requires fields != []
    ensures r != []
  {
    var n := |fields| - 1;
    if IsSeparator(c) then fields + [""] else fields[..n] + [fields[n] + [c]]
  }

  function NonEmpty(fields: seq<string>): seq<string> {
    if fields == [] then []
    else
      var init := NonEmpty(fields[..|fields| - 1]);
      if fields[|fields| - 1] == "" then init else init + [fields[|fields| - 1]]
  }

  function Words(q: string): seq<string> {
    NonEmpty(Fields(Unquoted(q)))
  }

  // ---------------------------------------------------------------------------------------------
  // The printer
  // ---------------------------------------------------------------------------------------------

  function Quoted(word: string): string {
    "\"" + word + "\"*"
  }

  function Print(words: seq<string>): string {
    if words == [] then ""
    else if |words| == 1 then Quoted(words[0])
    else Print(words[..|words| - 1]) + " " + Quoted(words[|words| - 1])
  }

  function Phrases(words: seq<string>): seq<Phrase> {
    seq(|words|, i requires 0 <= i < |words| => Phrase(words[i], true))
  }

  /** The query the engine is meant to read. */
  function Intended(q: string): seq<Phrase> {
    if Words(q) == [] then [Phrase("", false)] else Phrases(Words(q))
  }

  method Build(q: string) returns (out: string)
    ensures out == if Words(q) == [] then "\"\"" else Print(Words(q))
    ensures Parse(out) == Some(Intended(q))
  {
    out := "";
    var word := "";
    for i := 0 to |q|
      invariant Progress(q[..i], out, word)
    {
      var r := q[i];
      assert q[..i + 1] == q[..i] + [r];
      ProgressStep(q[..i], r, out, word);
      if r == '"' {
        continue;
      }
      if IsSeparator(r) {
        out := Flush(out, word);
        word := "";
        continue;
      }
      word := word + [r];
    }
    assert q[..|q|] == q;
    FlushPrints(Fields(Unquoted(q)));
    out := Flush(out, word);
    WordsAreWords(q);
    PrintEmpty(Words(q));
    if out == "" {
      out := "\"\"";
      ParsesNothing();
    } else {
      ParsePrint(Words(q));
    }
  }

  /** What the loop has built after reading `s`: the last field is still open. */
  ghost predicate Progress(s: string, out: string, word: string) {
    var fields := Fields(Unquoted(s));
    word == fields[|fields| - 1] && out == Print(NonEmpty(fields[..|fields| - 1]))
  }

  lemma ProgressStep(s: string, r: char, out: string, word: string)
    requires Progress(s, out, word)
    ensures r == '"' ==> Progress(s + [r], out, word)
    ensures r != '"' && IsSeparator(r) ==> Progress(s + [r], Flush(out, word), "")
    ensures r != '"' && !IsSeparator(r) ==> Progress(s + [r], out, word + [r])
  {
    var fields := Fields(Unquoted(s));
    assert (s + [r])[..|s|] == s;
    FieldsSnoc(Unquoted(s), r);
    FlushPrints(fields);
    assert (fields + [""])[..|fields|] == fields;
    var n := |fields| - 1;
    assert (fields[..n] + [fields[n] + [r]])[..n] == fields[..n];
  }

  /** The closure `flush` of the source. */
  function Flush(out: string, word: string): string {
    if word == "" then out
    else (if out != "" then out + " " else out) + Quoted(word)
  }

  lemma FlushPrints(fields: seq<string>)
    requires fields != []
    ensures Flush(Print(NonEmpty(fields[..|fields| - 1])), fields[|fields| - 1]) == Print(NonEmpty(fields))
  {
    var init := NonEmpty(fields[..|fields| - 1]);
    PrintEmpty(init);
    if fields[|fields| - 1] != "" {
      assert NonEmpty(fields)[..|init|] == init;
    }
  }

  lemma PrintEmpty(words: seq<string>)
    ensures Print(words) == "" <==> words == []
  {
  }

  lemma FieldsSnoc(s: string, c: char)
    ensures Fields(s + [c]) == Extend(Fields(s), c)
  {
    assert (s + [c])[..|s|] == s;
  }

  /** Splitting at a separator splits the fields ... */
  lemma {:induction false} FieldsSplit(a: string, c: char, b: string)
    requires IsSeparator(c)
    ensures Fields(a + [c] + b) == Fields(a) + Fields(b)
  {
    if b == "" {
      assert a + [c] + b == a + [c];
      FieldsSnoc(a, c);
    } else {
      var init, d := b[..|b| - 1], b[|b| - 1];
      FieldsSplit(a, c, init);
      assert a + [c] + b == (a + [c] + init) + [d];
      FieldsSnoc(a + [c] + init, d);
      ExtendRight(Fields(a), Fields(init), d);
    }
  }

  lemma ExtendRight(f: seq<string>, g: seq<string>, c: char)
    requires g != []
    ensures Extend(f + g, c) == f + Extend(g, c)
  {
    if !IsSeparator(c) {
      assert (f + g)[..|f| + |g| - 1] == f + g[..|g| - 1];
    }
  }

  /** ... and nothing else does. With FieldsSplit this determines Fields. */
  lemma {:induction false} FieldsOne(s: string)
    requires forall i | 0 <= i < |s| :: !IsSeparator(s[i])
    ensures Fields(s) == [s]
  {
    if s != "" {
      FieldsOne(s[..|s| - 1]);
      assert s == s[..|s| - 1] + [s[|s| - 1]];
    }
  }

  // ---------------------------------------------------------------------------------------------
  // The words
  // ---------------------------------------------------------------------------------------------

  lemma {:induction false} UnquotedClean(s: string)
    ensures '"' !in Unquoted(s)
  {
    if s != "" {
      UnquotedClean(s[..|s| - 1]);
    }
  }

  lemma {:induction false} FieldsClean(s: string)
    requires '"' !in s
    ensures forall k | 0 <= k < |Fields(s)| :: Fields(s)[k] == "" || IsWord(Fields(s)[k])
  {
    if s != "" {
      FieldsClean(s[..|s| - 1]);
    }
  }

  lemma {:induction false} NonEmptyKeeps(fields: seq<string>)
    requires forall k | 0 <= k < |fields| :: fields[k] == "" || IsWord(fields[k])
    ensures forall k | 0 <= k < |NonEmpty(fields)| :: IsWord(NonEmpty(fields)[k])
  {
    if fields != [] {
      NonEmptyKeeps(fields[..|fields| - 1]);
    }
  }

  /** No word holds a quote or a separator (space, tab or newline), and none is empty. */
  lemma WordsAreWords(q: string)
    ensures forall k | 0 <= k < |Words(q)| :: IsWord(Words(q)[k])
    ensures forall k | 0 <= k < |Words(q)| ::
              Words(q)[k] != "" && forall i | 0 <= i < |Words(q)[k]| :: Words(q)[k][i] !in {'"', ' ', '\t', '\n'}
  {
    UnquotedClean(q);
    FieldsClean(Unquoted(q));
    NonEmptyKeeps(Fields(Unquoted(q)));
  }

  function Concat(parts: seq<string>): string {
    if parts == [] then "" else Concat(parts[..|parts| - 1]) + parts[|parts| - 1]
  }

  /** The characters of the input that are neither quotes nor separators. */
  function Kept(q: string): string {
    if q == "" then ""
    else
      var c := q[|q| - 1];
      if c in {'"', ' ', '\t', '\n'} then Kept(q[..|q| - 1]) else Kept(q[..|q| - 1]) + [c]
  }

  /** Nothing else is lost: the words in order spell the input without its quotes and separators. */
  lemma {:induction false} WordsSpellTheInput(q: string)
    ensures Concat(Words(q)) == Kept(q)
  {
    ConcatNonEmpty(Fields(Unquoted(q)));
    FieldsSpell(q);
  }

  /** A space, tab or newline outside or inside quotes cuts the input in two ... */
  lemma WordsSplit(a: string, c: char, b: string)
    requires c == ' ' || c == '\t' || c == '\n'
    ensures Words(a + [c] + b) == Words(a) + Words(b)
  {
    UnquotedConcat(a + [c], b);
    UnquotedConcat(a, [c]);
    assert [c][..0] == "" && Unquoted([c]) == [c];
    FieldsSplit(Unquoted(a), c, Unquoted(b));
    NonEmptyConcat(Fields(Unquoted(a)), Fields(Unquoted(b)));
  }

  /** ... and text without any is one word, its quotes removed, or none if nothing is left. */
  lemma WordsOne(s: string)
    requires ' ' !in s && '\t' !in s && '\n' !in s
    ensures Words(s) == if Kept(s) == "" then [] else [Kept(s)]
  {
    UnquotedKept(s);
    FieldsOne(Kept(s));
    assert [Kept(s)][..0] == [];
  }

  lemma {:induction false} UnquotedConcat(a: string, b: string)
    ensures Unquoted(a + b) == Unquoted(a) + Unquoted(b)
  {
    if b == "" {
      assert a + b == a;
    } else {
      UnquotedConcat(a, b[..|b| - 1]);
      assert (a + b)[..|a + b| - 1] == a + b[..|b| - 1];
    }
  }

  lemma {:induction false} NonEmptyConcat(a: seq<string>, b: seq<string>)
    ensures NonEmpty(a + b) == NonEmpty(a) + NonEmpty(b)
  {
    if b == [] {
      assert a + b == a;
    } else {
      NonEmptyConcat(a, b[..|b| - 1]);
      assert (a + b)[..|a + b| - 1] == a + b[..|b| - 1];
    }
  }

  lemma {:induction false} UnquotedKept(s: string)
    requires ' ' !in s && '\t' !in s && '\n' !in s
    ensures Unquoted(s) == Kept(s) && forall i | 0 <= i < |Kept(s)| :: !IsSeparator(Kept(s)[i])
  {
    if s != "" {
      UnquotedKept(s[..|s| - 1]);
      assert s[|s| - 1] in s;
    }
  }

  lemma {:induction false} ConcatNonEmpty(fields: seq<string>)
    ensures Concat(NonEmpty(fields)) == Concat(fields)
  {
    if fields != [] {
      ConcatNonEmpty(fields[..|fields| - 1]);
      var init := NonEmpty(fields[..|fields| - 1]);
      assert (init + [fields[|fields| - 1]])[..|init|] == init;
    }
  }

  lemma {:induction false} FieldsSpell(q: string)
    ensures Concat(Fields(Unquoted(q))) == Kept(q)
  {
    if q == "" {
      assert Concat([""]) == Concat([]) + "";
      assert [""][..0] == [];
    } else {
      var init, c := q[..|q| - 1], q[|q| - 1];
      FieldsSpell(init);
      if c != '"' {
        FieldsSnoc(Unquoted(init), c);
        ExtendConcat(Fields(Unquoted(init)), c);
      }
    }
  }

  lemma ExtendConcat(fields: seq<string>, c: char)
    requires fields != []
    ensures Concat(Extend(fields, c)) == if IsSeparator(c) then Concat(fields) else Concat(fields) + [c]
  {
    var n := |fields| - 1;
    assert (fields + [""])[..n + 1] == fields;
    assert (fields[..n] + [fields[n] + [c]])[..n] == fields[..n];
  }

  // ---------------------------------------------------------------------------------------------
  // The reader: a list of quoted strings, "" standing for a quote inside one, each with an optional star.
  // Anything else (barewords, operators, column filters) is outside this fragment and gives None.
  // ---------------------------------------------------------------------------------------------

  function ReadQuoted(s: string): (r: Option<(string, string)>)
    ensures r.Some? ==> |r.value.1| < |s|
  {
    if s == "" then None
    else if s[0] != '"' then
      match ReadQuoted(s[1..])
      case None => None
      case Some((text, rest)) => Some(([s[0]] + text, rest))
    else if |s| > 1 && s[1] == '"' then
      match ReadQuoted(s[2..])
      case None => None
      case Some((text, rest)) => Some((['"'] + text, rest))
    else Some(("", s[1..]))
  }

  function Parse(s: string): Option<seq<Phrase>>
    decreases |s|
  {
    if s == "" then Some([])
    else if s[0] == ' ' then Parse(s[1..])
    else if s[0] != '"' then None
    else
      match ReadQuoted(s[1..])
      case None => None
      case Some((text, rest)) =>
        var star := rest != "" && rest[0] == '*';
        match Parse(if star then rest[1..] else rest)
        case None => None
        case Some(phrases) => Some([Phrase(text, star)] + phrases)
  }

  lemma {:induction false} ReadsWord(word: string, rest: string)
    requires '"' !in word
    requires rest == "" || rest[0] != '"'
    ensures ReadQuoted(word + "\"" + rest) == Some((word, rest))
  {
    var s := word + "\"" + rest;
    if word == "" {
      assert s[1..] == rest;
    } else {
      ReadsWord(word[1..], rest);
      assert s[1..] == word[1..] + "\"" + rest;
      assert [word[0]] + word[1..] == word;
    }
  }

  lemma ParsesQuoted(word: string, rest: string)
    requires '"' !in word
    ensures Parse(Quoted(word) + rest) ==
            match Parse(rest)
            case None => None
            case Some(phrases) => Some([Phrase(word, true)] + phrases)
  {
    var s := Quoted(word) + rest;
    assert s[1..] == word + "\"" + ("*" + rest);
    ReadsWord(word, "*" + rest);
    assert ("*" + rest)[1..] == rest;
  }

  lemma ParsesNothing()
    ensures Parse("\"\"") == Some([Phrase("", false)])
  {
    ReadsWord("", "");
    assert "" + "\"" + "" == "\"";
    assert "\"\""[1..] == "\"";
    assert ReadQuoted("\"\""[1..]) == Some(("", ""));
    assert Parse("") == Some([]);
    assert [Phrase("", false)] + [] == [Phrase("", false)];
  }

  lemma {:induction false} PrintCons(words: seq<string>)
    requires |words| > 1
    ensures Print(words) == Quoted(words[0]) + (" " + Print(words[1..]))
  {
    if |words| > 2 {
      PrintCons(words[..|words| - 1]);
      assert words[..|words| - 1][1..] == words[1..][..|words| - 2];
    } else {
      assert Print(words[..1]) == Quoted(words[0]);
    }
  }

  lemma ParsesSpace(s: string)
    ensures Parse(" " + s) == Parse(s)
  {
    assert (" " + s)[1..] == s;
  }

  /** The engine reads back exactly the words, each as a prefix phrase. */
  lemma {:induction false} ParsePrint(words: seq<string>)
    requires forall k | 0 <= k < |words| :: IsWord(words[k])
    ensures Parse(Print(words)) == Some(Phrases(words))
  {
    if words == [] {
    } else if |words| == 1 {
      ParsesOnly(words[0]);
      assert words == [words[0]];
    } else {
      PrintCons(words);
      ParsePrint(words[1..]);
      ParsesFirst(words[0], Print(words[1..]));
      assert Phrases(words) == [Phrase(words[0], true)] + Phrases(words[1..]);
    }
  }

  lemma ParsesOnly(word: string)
    requires IsWord(word)
    ensures Parse(Print([word])) == Some(Phrases([word]))
  {
    assert Print([word]) == Quoted(word) + "";
    ParsesQuoted(word, "");
    assert Phrases([word]) == [Phrase(word, true)] + [];
  }

  lemma ParsesFirst(word: string, rest: string)
    requires '"' !in word
    ensures Parse(Quoted(word) + (" " + rest)) ==
            match Parse(rest)
            case None => None
            case Some(phrases) => Some([Phrase(word, true)] + phrases)
  {
    ParsesQuoted(word, " " + rest);
    ParsesSpace(rest);
  }
}
