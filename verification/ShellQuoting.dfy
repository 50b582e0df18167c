/**
 Text that the operator hands to a shell: the user's postStart script, quoted inside the hook's
 own script (processCommandsForPostStart and generateScriptWithTimeout in
 pkg/library/lifecycle/poststart.go). It is read as a POSIX shell reads a simple command: the
 Shell Command Language in IEEE Std 1003.1-2017, sections 2.2 (quoting), 2.3 (token
 recognition), 2.6 (word expansions) and 2.13 (patterns). What a shell such as bash adds to it,
 brace expansion, is not read.
 */
module ShellQuoting {
  import opened Options

  /** strings.ReplaceAll(script, "'", "'\\''") */
  function Escape(script: string): string {
    if script == "" then ""
    else (if script[0] == '\'' then "'\\''" else [script[0]]) + Escape(script[1..])
  }

  const TIMEOUT_PART := "_TIMEOUT_COMMAND_PART"

  /** The generated hook from the line that runs the user's script on; `rest` are the lines after it. */
  function HookFromLine(script: string, rest: string): string {
    "${" + TIMEOUT_PART + "}" + (" " + ShellCall(script, "\n" + rest))
  }

  function ShellCall(script: string, after: string): string {
    "/bin/sh" + (" " + ("-c" + (" " + ("'" + Escape(script) + "'" + after))))
  }

  // ----- characters -----

  predicate Blank(c: char) {
    c == ' ' || c == '\t'
  }

  /** What ends a line where a word could start: a newline or a comment. A line runs before the next is read. */
  predicate Ends(c: char) {
    c == '\n' || c == '#'
  }

  predicate Delimits(c: char) {
    Blank(c) || c == '\n' || c == ';' || c == '&' || c == '|' || c == '<' || c == '>' || c == '(' || c == ')'
  }

  /** Characters that start an expansion, or quoting within which expansions happen. */
  predicate Expands(c: char) {
    c == '$' || c == '`' || c == '"' || c == '{'
  }

  /** Characters with a meaning of their own at the start of a word only. */
  predicate StartsSpecially(c: char) {
    c == '~' || c == '}' || c == '!' || c == '=' || c == '%'
  }

  /** An opening bracket that starts a bracket expression if a later one closes it. */
  predicate OpensBracket(input: string) {
    input != "" && input[0] == '[' &&
    exists k :: (if |input| > 1 && input[1] == '!' then 3 else 2) <= k < |input| && input[k] == ']'
  }

  // ----- words -----

  /** A character of a word, or an unquoted `*` or `?`. */
  datatype Piece = Literal(c: char) | AnyString | AnyChar

  type Word = seq<Piece>

  function Lit(s: string): Word {
    seq(|s|, i requires 0 <= i < |s| => Literal(s[i]))
  }

  /**
   The rest of the current word and what follows it. None if the word would need an expansion
   other than of `*` and `?`, or is never finished.
   */
  function ReadWord(input: string, quoted: bool): Option<(Word, string)>
    decreases |input|
  {
    if quoted then
      if input == "" then None
      else if input[0] == '\'' then ReadWord(input[1..], false)
      else Cons(Literal(input[0]), ReadWord(input[1..], true))
    else if input == "" || Delimits(input[0]) then Some(([], input))
    else if input[0] == '\'' then ReadWord(input[1..], true)
    else if input[0] == '\\' then
      if |input| == 1 then None
      else if input[1] == '\n' then ReadWord(input[2..], false)
      else Cons(Literal(input[1]), ReadWord(input[2..], false))
    else if Expands(input[0]) || OpensBracket(input) then None
    else if input[0] == '*' then Cons(AnyString, ReadWord(input[1..], false))
    else if input[0] == '?' then Cons(AnyChar, ReadWord(input[1..], false))
    else Cons(Literal(input[0]), ReadWord(input[1..], false))
  }

  function Cons(p: Piece, r: Option<(Word, string)>): Option<(Word, string)> {
    match r
    case None => None
    case Some((word, rest)) => Some(([p] + word, rest))
  }

  /** An unquoted `${name}` that is a word by itself: the name, and what follows. */
  function ReadParameter(input: string): Option<(string, string)> {
    if |input| > 2 && input[0] == '$' && input[1] == '{' then ReadName(input[2..]) else None
  }

  function ReadName(input: string): Option<(string, string)> {
    if input == "" then None
    else if input[0] == '}' then
      if |input| == 1 || Delimits(input[1]) then Some(("", input[1..])) else None
    else
      match ReadName(input[1..])
      case None => None
      case Some((name, rest)) => Some(([input[0]] + name, rest))
  }

  /**
   The words of the simple command that is the first line of `input`, and what follows it. None if
   that line has a redirection or a control operator, as the command then runs only if all of the
   line makes sense. `fields` holds the words that parameters expand to. The first word must not be
   an assignment or a reserved word; the commands read here start with the name of a utility.
   */
  function ReadCommand(input: string, fields: map<string, seq<Word>>): Option<(seq<Word>, string)>
    decreases |input|
  {
    if input == "" || Ends(input[0]) then Some(([], input))
    else if Blank(input[0]) then ReadCommand(input[1..], fields)
    else if Delimits(input[0]) || StartsSpecially(input[0]) then None
    else
      match ReadFields(input, fields)
      case None => None
      case Some((words, rest)) =>
        if |rest| >= |input| then None
        else Before(words, ReadCommand(rest, fields))
  }

  function Before(words: seq<Word>, r: Option<(seq<Word>, string)>): Option<(seq<Word>, string)> {
    match r
    case None => None
    case Some((more, after)) => Some((words + more, after))
  }

  /** The words that the next word of `input` stands for. */
  function ReadFields(input: string, fields: map<string, seq<Word>>): Option<(seq<Word>, string)> {
    match ReadParameter(input)
    case Some((name, rest)) => if name in fields then Some((fields[name], rest)) else None
    case None =>
      match ReadWord(input, false)
      case None => None
      case Some((word, rest)) => Some(([word], rest))
  }

  // ----- reading back -----

  function Prepend(w: Word, r: Option<(Word, string)>): Option<(Word, string)> {
    match r
    case None => None
    case Some((word, rest)) => Some((w + word, rest))
  }

  lemma LitConcat(s: string, t: string)
    ensures Lit(s + t) == Lit(s) + Lit(t)
  {
  }

  lemma ConsPrepend(c: char, s: string, r: Option<(Word, string)>)
    ensures Cons(Literal(c), Prepend(Lit(s), r)) == Prepend(Lit([c] + s), r)
  {
    LitConcat([c], s);
    assert Lit([c]) == [Literal(c)];
    if r.Some? { assert [Literal(c)] + (Lit(s) + r.value.0) == Lit([c] + s) + r.value.0; }
  }

  lemma PrependNothing(r: Option<(Word, string)>)
    ensures Prepend(Lit(""), r) == r
  {
    if r.Some? { assert Lit("") + r.value.0 == r.value.0; }
  }

  /** The four characters of an escaped quote: close, backslash, quote, open again. */
  lemma EscapedQuote(tail: string)
    ensures ReadWord("'\\''" + tail, true) == Cons(Literal('\''), ReadWord(tail, true))
  {
    var open, escaped := "'" + tail, "\\''" + tail;
    assert open[1..] == tail && escaped[2..] == open && "'\\''" + tail == "'" + escaped;
    assert ("'" + escaped)[1..] == escaped;
    assert ReadWord(open, false) == ReadWord(tail, true);
    assert ReadWord(escaped, false) == Cons(Literal('\''), ReadWord(open, false));
  }

  /** Inside single quotes the escaped script is read as the script, up to the closing quote. */
  lemma {:induction false} EscapedReadsBack(script: string, rest: string)
    ensures ReadWord(Escape(script) + "'" + rest, true) == Prepend(Lit(script), ReadWord(rest, false))
  {
    var input := Escape(script) + "'" + rest;
    if script == "" {
      assert input == "'" + rest && ("'" + rest)[1..] == rest;
      PrependNothing(ReadWord(rest, false));
    } else {
      var tail := Escape(script[1..]) + "'" + rest;
      EscapedReadsBack(script[1..], rest);
      ConsPrepend(script[0], script[1..], ReadWord(rest, false));
      assert [script[0]] + script[1..] == script;
      if script[0] == '\'' {
        assert input == "'\\''" + tail;
        EscapedQuote(tail);
      } else {
        assert input == [script[0]] + tail && ([script[0]] + tail)[1..] == tail;
      }
    }
  }

  /** The quoted word is one word, equal to the original script, whatever the script contains. */
  lemma QuotedWordIsTheScript(script: string, rest: string)
    requires rest == "" || Delimits(rest[0])
    ensures ReadWord("'" + Escape(script) + "'" + rest, false) == Some((Lit(script), rest))
  {
    var tail := Escape(script) + "'" + rest;
    assert "'" + Escape(script) + "'" + rest == "'" + tail;
    OpeningQuote(tail);
    EscapedReadsBack(script, rest);
    assert Lit(script) + [] == Lit(script);
  }

  lemma OpeningQuote(tail: string)
    ensures ReadWord("'" + tail, false) == ReadWord(tail, true)
  {
    assert ("'" + tail)[1..] == tail;
  }

  // ----- text that reads as itself -----

  /** A character that stands for itself inside a word, whatever follows. */
  predicate Ordinary(c: char) {
    !Delimits(c) && !Expands(c) && c != '\'' && c != '\\' && c != '*' && c != '?' && c != '['
  }

  lemma {:induction false} OrdinaryPrefix(word: string, tail: string)
    requires forall c :: c in word ==> Ordinary(c)
    ensures ReadWord(word + tail, false) == Prepend(Lit(word), ReadWord(tail, false))
  {
    if word == "" {
      assert word + tail == tail;
      PrependNothing(ReadWord(tail, false));
    } else {
      OrdinaryPrefix(word[1..], tail);
      assert word[0] in word && (word + tail)[0] == word[0];
      ConsPrepend(word[0], word[1..], ReadWord(tail, false));
      assert (word + tail)[1..] == word[1..] + tail;
      assert word == [word[0]] + word[1..];
    }
  }

  /** A command's first word, when it has no special characters, and the rest. */
  lemma OrdinaryWord(word: string, rest: string, fields: map<string, seq<Word>>)
    requires word != "" && forall c :: c in word ==> Ordinary(c)
    requires !StartsSpecially(word[0]) && !Ends(word[0]) && (rest == "" || Delimits(rest[0]))
    ensures ReadCommand(word + rest, fields) == Before([Lit(word)], ReadCommand(rest, fields))
  {
    OrdinaryPrefix(word, rest);
    assert Lit(word) + [] == Lit(word);
    assert word[0] in word && (word + rest)[0] == word[0];
  }

  lemma SkipBlank(rest: string, fields: map<string, seq<Word>>)
    ensures ReadCommand(" " + rest, fields) == ReadCommand(rest, fields)
  {
    assert (" " + rest)[1..] == rest;
  }

  lemma {:induction false} NameReads(name: string, rest: string)
    requires '}' !in name && (rest == "" || Delimits(rest[0]))
    ensures ReadName(name + "}" + rest) == Some((name, rest))
  {
    if name == "" {
      assert name + "}" + rest == "}" + rest && ("}" + rest)[1..] == rest;
    } else {
      NameReads(name[1..], rest);
      assert (name + "}" + rest)[1..] == name[1..] + "}" + rest;
      assert [name[0]] + name[1..] == name;
    }
  }

  lemma ParameterReads(name: string, rest: string, fields: map<string, seq<Word>>)
    requires '}' !in name && rest != "" && Delimits(rest[0]) && name in fields
    ensures ReadCommand("${" + name + "}" + rest, fields) == Before(fields[name], ReadCommand(rest, fields))
  {
    var input := "${" + name + "}" + rest;
    NameReads(name, rest);
    assert input[2..] == name + "}" + rest;
  }

  /**
   The hook's line runs /bin/sh with exactly two arguments, -c and the user's script, behind
   whatever words the timeout part expands to (none if there is no timeout utility).
   */
  lemma HookRunsTheScript(script: string, rest: string, timeout: seq<Word>)
    ensures ReadCommand(HookFromLine(script, rest), map[TIMEOUT_PART := timeout]) ==
            Some((timeout + [Lit("/bin/sh"), Lit("-c"), Lit(script)], "\n" + rest))
  {
    var fields, call := map[TIMEOUT_PART := timeout], ShellCall(script, "\n" + rest);
    ParameterReads(TIMEOUT_PART, " " + call, fields);
    SkipBlank(call, fields);
    ShellReads(script, rest, fields);
  }

  lemma ShellReads(script: string, rest: string, fields: map<string, seq<Word>>)
    ensures ReadCommand(ShellCall(script, "\n" + rest), fields) ==
            Some(([Lit("/bin/sh"), Lit("-c"), Lit(script)], "\n" + rest))
  {
    var third := "'" + Escape(script) + "'" + ("\n" + rest);
    ScriptReads(script, rest, fields);
    WordsRead("-c", third, fields);
    WordsRead("/bin/sh", "-c" + (" " + third), fields);
    assert [Lit("/bin/sh")] + ([Lit("-c")] + [Lit(script)]) == [Lit("/bin/sh"), Lit("-c"), Lit(script)];
  }

  /** A word without special characters, a blank, and the rest. */
  lemma WordsRead(word: string, rest: string, fields: map<string, seq<Word>>)
    requires word != "" && forall c :: c in word ==> Ordinary(c)
    requires !StartsSpecially(word[0]) && !Ends(word[0])
    ensures ReadCommand(word + (" " + rest), fields) == Before([Lit(word)], ReadCommand(rest, fields))
  {
    OrdinaryWord(word, " " + rest, fields);
    SkipBlank(rest, fields);
  }

  lemma ScriptReads(script: string, rest: string, fields: map<string, seq<Word>>)
    ensures ReadCommand("'" + Escape(script) + "'" + ("\n" + rest), fields) == Some(([Lit(script)], "\n" + rest))
  {
    QuotedWordIsTheScript(script, "\n" + rest);
    var input := "'" + Escape(script) + "'" + ("\n" + rest);
    assert input[0] == '\'' && |"\n" + rest| < |input|;
    assert ReadCommand("\n" + rest, fields) == Some(([], "\n" + rest));
    assert [Lit(script)] + [] == [Lit(script)];
  }
}
