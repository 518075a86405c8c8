/** Quoting for the shell (internal/certificate/service.go) and for SQL (internal/backup/sqlite_snapshot.go), each
    proved against a reader of the language it quotes for. */
module Quoting {
  import opened Common

  /** strings.ReplaceAll for a one-character pattern. */
  function ReplaceAll(s: string, pattern: char, replacement: string): string {
    if s == "" then ""
    else (if s[0] == pattern then replacement else [s[0]]) + ReplaceAll(s[1..], pattern, replacement)
  }

  function ShellQuote(value: string): string {
    "'" + ReplaceAll(value, '\'', "'\"'\"'") + "'"
  }

  function QuoteSQLiteString(value: string): string {
    "'" + ReplaceAll(value, '\'', "''") + "'"
  }

  // ---- A reader for shell words: section 2.2 of POSIX.1-2017 XCU ----

  datatype Quote = Bare | Single | Double

  predicate Blank(c: char) {
    c == ' ' || c == '\t'
  }

  /** Characters that, unquoted, are operators or start an expansion or a pattern. */
  predicate Special(c: char) {
    c in "|&;<>()$`*?[\n"
  }

  function Text(word: Option<string>): string {
    if word.Some? then word.value else ""
  }

  function Prepend(word: string, words: Option<seq<string>>): Option<seq<string>> {
    if words.Some? then Some([word] + words.value) else None
  }

  /** Splits the rest of a command into words, `word` being the word under way; None when a quote is left open or
      something other than quoting (an operator, an expansion, a pattern, a comment) is met. */
  function Scan(s: string, q: Quote, word: Option<string>): Option<seq<string>>
    decreases |s|
  {
    if s == "" then
      if q != Bare then None else if word.Some? then Some([word.value]) else Some([])
    else
      var c, rest := s[0], s[1..];
      match q
      case Bare =>
        if Blank(c) then if word.Some? then Prepend(word.value, Scan(rest, Bare, None)) else Scan(rest, Bare, None)
        else if c == '\'' then Scan(rest, Single, Some(Text(word)))
        else if c == '"' then Scan(rest, Double, Some(Text(word)))
        else if c == '\\' then
          if rest == "" || rest[0] == '\n' then None else Scan(rest[1..], Bare, Some(Text(word) + [rest[0]]))
        else if Special(c) || (word.None? && c in "#~") then None
        else Scan(rest, Bare, Some(Text(word) + [c]))
      case Single =>
        if c == '\'' then Scan(rest, Bare, word) else Scan(rest, Single, Some(Text(word) + [c]))
      case Double =>
        if c == '"' then Scan(rest, Bare, word)
        else if c in "$`" then None
        else if c == '\\' && rest != "" && rest[0] in "$`\"\\" then Scan(rest[1..], Double, Some(Text(word) + [rest[0]]))
        else if c == '\\' && rest != "" && rest[0] == '\n' then Scan(rest[1..], Double, word)
        else Scan(rest, Double, Some(Text(word) + [c]))
  }

  function Words(command: string): Option<seq<string>> {
    Scan(command, Bare, None)
  }

  /** The five characters put in place of a quote leave the single quotes, add a quote, and enter them again. */
  lemma EscapedQuote(rest: string, word: string)
    ensures Scan("'\"'\"'" + rest, Single, Some(word)) == Scan(rest, Single, Some(word + "'"))
  {
    var s := "'\"'\"'" + rest;
    var s1, s2, s3, s4 := s[1..], s[2..], s[3..], s[4..];
    assert Scan(s, Single, Some(word)) == Scan(s1, Bare, Some(word));
    assert s1[1..] == s2 && Scan(s1, Bare, Some(word)) == Scan(s2, Double, Some(word));
    assert s2[1..] == s3 && Scan(s2, Double, Some(word)) == Scan(s3, Double, Some(word + "'"));
    assert s3[1..] == s4 && Scan(s3, Double, Some(word + "'")) == Scan(s4, Bare, Some(word + "'"));
    assert s4[1..] == rest && Scan(s4, Bare, Some(word + "'")) == Scan(rest, Single, Some(word + "'"));
  }

  lemma {:induction false} QuotedBody(value: string, rest: string, word: string)
    ensures Scan(ReplaceAll(value, '\'', "'\"'\"'") + "'" + rest, Single, Some(word)) == Scan(rest, Bare, Some(word + value))
    decreases |value|
  {
    var s := ReplaceAll(value, '\'', "'\"'\"'") + "'" + rest;
    if value == "" {
      assert s == "'" + rest;
      assert s[1..] == rest && word + value == word;
    } else {
      var tail := ReplaceAll(value[1..], '\'', "'\"'\"'") + "'" + rest;
      if value[0] == '\'' {
        assert s == "'\"'\"'" + tail;
        EscapedQuote(tail, word);
        QuotedBody(value[1..], rest, word + "'");
        assert word + "'" + value[1..] == word + value;
      } else {
        assert s[0] == value[0] && s[1..] == tail;
        QuotedBody(value[1..], rest, word + [value[0]]);
        assert word + [value[0]] + value[1..] == word + value;
      }
    }
  }

  /** Wherever a word may continue, the quoted value contributes exactly the value and nothing else is affected. */
  lemma QuotedInContext(value: string, rest: string, word: Option<string>)
    ensures Scan(ShellQuote(value) + rest, Bare, word) == Scan(rest, Bare, Some(Text(word) + value))
  {
    var s := ShellQuote(value) + rest;
    assert s[0] == '\'' && s[1..] == ReplaceAll(value, '\'', "'\"'\"'") + "'" + rest;
    QuotedBody(value, rest, Text(word));
  }

  lemma ShellQuoteRoundTrip(value: string)
    ensures Words(ShellQuote(value)) == Some([value])
  {
    assert ShellQuote(value) + "" == ShellQuote(value);
    QuotedInContext(value, "", None);
    assert Text(None) + value == value;
  }

  /** A command name or option: no quoting, blanks or special characters, and not a comment or a home directory. */
  ghost predicate Plain(word: string) {
    && word != "" && word[0] !in "#~"
    && forall c | c in word :: !Blank(c) && !Special(c) && c !in "'\"\\"
  }

  lemma {:induction false} PlainWord(w: string, rest: string, word: string)
    requires forall c | c in w :: !Blank(c) && !Special(c) && c !in "'\"\\"
    ensures Scan(w + rest, Bare, Some(word)) == Scan(rest, Bare, Some(word + w))
    decreases |w|
  {
    if w == "" {
      assert w + rest == rest && word + w == word;
    } else {
      var s := w + rest;
      assert s[0] == w[0] && s[1..] == w[1..] + rest && w[0] in w;
      PlainWord(w[1..], rest, word + [w[0]]);
      assert word + [w[0]] + w[1..] == word + w;
    }
  }

  /** The command line built from plain leading words and quoted arguments. */
  function CommandLine(leading: seq<string>, arguments: seq<string>): string {
    if leading != [] then leading[0] + " " + CommandLine(leading[1..], arguments)
    else if arguments == [] then ""
    else ShellQuote(arguments[0]) + " " + CommandLine([], arguments[1..])
  }

  lemma PlainFirst(w: string, after: string)
    requires Plain(w)
    ensures Words(w + " " + after) == Prepend(w, Words(after))
  {
    var s, rest := w + " " + after, " " + after;
    assert w[0] in w && s[0] == w[0] && s[1..] == w[1..] + rest;
    assert Text(None) + [w[0]] == [w[0]] && [w[0]] + w[1..] == w;
    PlainWord(w[1..], rest, [w[0]]);
    assert rest[0] == ' ' && rest[1..] == after;
  }

  lemma QuotedFirst(value: string, after: string)
    ensures Words(ShellQuote(value) + " " + after) == Prepend(value, Words(after))
  {
    var rest := " " + after;
    assert ShellQuote(value) + " " + after == ShellQuote(value) + rest;
    QuotedInContext(value, rest, None);
    assert Text(None) + value == value;
    assert rest[0] == ' ' && rest[1..] == after;
  }

  /** The shell sees exactly the leading words followed by the argument values, whatever characters these contain. */
  lemma {:induction false} QuotedArgumentsArriveIntact(leading: seq<string>, arguments: seq<string>)
    requires forall w | w in leading :: Plain(w)
    ensures Words(CommandLine(leading, arguments)) == Some(leading + arguments)
    decreases |leading| + |arguments|
  {
    hide ShellQuote;
    if leading != [] {
      PlainFirst(leading[0], CommandLine(leading[1..], arguments));
      QuotedArgumentsArriveIntact(leading[1..], arguments);
      assert leading + arguments == [leading[0]] + (leading[1..] + arguments);
    } else if arguments != [] {
      QuotedFirst(arguments[0], CommandLine([], arguments[1..]));
      QuotedArgumentsArriveIntact([], arguments[1..]);
      assert leading + arguments == [arguments[0]] + ([] + arguments[1..]);
    } else {
      assert leading + arguments == [];
    }
  }

  // ---- A reader for SQL string literals ----

  /** Reads after the opening quote: the literal's value and what follows its closing quote. */
  function SQLBody(s: string): Option<(string, string)> {
    if s == "" then None
    else if s[0] != '\'' then More(s[0], SQLBody(s[1..]))
    else if |s| > 1 && s[1] == '\'' then More('\'', SQLBody(s[2..]))
    else Some(("", s[1..]))
  }

  function More(c: char, read: Option<(string, string)>): Option<(string, string)> {
    if read.Some? then Some(([c] + read.value.0, read.value.1)) else None
  }

  function SQLLiteral(s: string): Option<(string, string)> {
    if s == "" || s[0] != '\'' then None else SQLBody(s[1..])
  }

  lemma {:induction false} QuotedSQLBody(value: string, rest: string)
    requires rest == "" || rest[0] != '\''
    ensures SQLBody(ReplaceAll(value, '\'', "''") + "'" + rest) == Some((value, rest))
    decreases |value|
  {
    var s := ReplaceAll(value, '\'', "''") + "'" + rest;
    if value == "" {
      assert s == "'" + rest;
      assert s[1..] == rest;
    } else {
      var tail := ReplaceAll(value[1..], '\'', "''") + "'" + rest;
      QuotedSQLBody(value[1..], rest);
      assert [value[0]] + value[1..] == value;
      if value[0] == '\'' {
        assert s[0] == '\'' && s[1] == '\'' && s[2..] == tail;
      } else {
        assert s[0] == value[0] && s[1..] == tail;
      }
    }
  }

  /** Inside a statement the literal reads back as the value and ends where it was meant to. */
  lemma SQLQuoteRoundTrip(value: string, rest: string)
    requires rest == "" || rest[0] != '\''
    ensures SQLLiteral(QuoteSQLiteString(value) + rest) == Some((value, rest))
  {
    var s := QuoteSQLiteString(value) + rest;
    assert s[1..] == ReplaceAll(value, '\'', "''") + "'" + rest;
    QuotedSQLBody(value, rest);
  }
}
