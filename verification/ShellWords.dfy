/** Splitting a command into words by the quoting rules of section 2.2 of the POSIX Shell Command
    Language, with space and tab as the only blanks, and the printer that quotes words again. */
module ShellWords {
  import opened Wrappers

  datatype LexError = Unterminated

  type Lexed = Result<seq<string>, LexError>

  predicate IsBlank(c: char) { c == ' ' || c == '\t' }

  /** The characters before which a backslash is an escape inside double quotes. */
  predicate IsEscapable(c: char) { c == '$' || c == '`' || c == '"' || c == '\\' }

  function Cons(word: string, rest: Lexed): (r: Lexed) {
    match rest
    case Ok(words) => Ok([word] + words)
    case Err(_) => rest
  }

  /** Between two words. */
  function Words(s: string): (r: Lexed)
    decreases |s|, 1
  {
    if s == "" then Ok([])
    else if IsBlank(s[0]) then Words(s[1..])
    else Word(s, "")
  }

  /** Inside a word of which acc has been read, outside quotes. */
  function Word(s: string, acc: string): (r: Lexed)
    decreases |s|, 0
  {
    if s == "" then Ok([acc])
    else if IsBlank(s[0]) then Cons(acc, Words(s[1..]))
    else if s[0] == '\'' then SingleQuoted(s[1..], acc)
    else if s[0] == '"' then DoubleQuoted(s[1..], acc)
    else if s[0] == '\\' then
      if |s| == 1 then Err(Unterminated) else Word(s[2..], acc + [s[1]])
    else Word(s[1..], acc + [s[0]])
  }

  function SingleQuoted(s: string, acc: string): (r: Lexed)
    decreases |s|, 0
  {
    if s == "" then Err(Unterminated)
    else if s[0] == '\'' then Word(s[1..], acc)
    else SingleQuoted(s[1..], acc + [s[0]])
  }

  function DoubleQuoted(s: string, acc: string): (r: Lexed)
    decreases |s|, 0
  {
    if s == "" then Err(Unterminated)
    else if s[0] == '"' then Word(s[1..], acc)
    else if s[0] == '\\' && |s| > 1 && IsEscapable(s[1]) then DoubleQuoted(s[2..], acc + [s[1]])
    else DoubleQuoted(s[1..], acc + [s[0]])
  }

  // ---------- the printer ----------

  const SPECIAL := " \t'\"\\$`;&|<>()*?![]{}"

  predicate IsPlain(value: string) {
    value != "" && forall i :: 0 <= i < |value| ==> value[i] !in SPECIAL
  }

  /** `strings.ReplaceAll` of a single quote by a double-quoted one. */
  function Spliced(value: string): (r: string) {
    if value == "" then ""
    else (if value[0] == '\'' then "'\"'\"'" else [value[0]]) + Spliced(value[1..])
  }

  /** `shellQuote`. */
  function Quote(value: string): (r: string) {
    if IsPlain(value) then value else "'" + Spliced(value) + "'"
  }

  /** `strings.Join` of the quoted words with a blank. */
  function Join(words: seq<string>): (r: string) {
    if words == [] then ""
    else if |words| == 1 then Quote(words[0])
    else Quote(words[0]) + " " + Join(words[1..])
  }

  // ---------- the lexer undoes the printer ----------

  lemma NotSpecial(c: char)
    requires c !in SPECIAL
    ensures !IsBlank(c) && c != '\'' && c != '"' && c != '\\'
  {
    assert SPECIAL[0] == ' ' && SPECIAL[1] == '\t' && SPECIAL[2] == '\'' && SPECIAL[3] == '"' && SPECIAL[4] == '\\';
  }

  lemma PlainCharacter(c: char, rest: string, acc: string)
    requires !IsBlank(c) && c != '\'' && c != '"' && c != '\\'
    ensures Word([c] + rest, acc) == Word(rest, acc + [c])
  {
    assert ([c] + rest)[1..] == rest;
  }

  lemma {:induction false} PlainReads(value: string, rest: string, acc: string)
    requires forall i :: 0 <= i < |value| ==> value[i] !in SPECIAL
    ensures Word(value + rest, acc) == Word(rest, acc + value)
  {
    hide Word, IsBlank;
    if value == "" {
      assert value + rest == rest && acc + value == acc;
    } else {
      var c := value[0];
      NotSpecial(c);
      assert value + rest == [c] + (value[1..] + rest);
      PlainCharacter(c, value[1..] + rest, acc);
      PlainReads(value[1..], rest, acc + [c]);
      assert acc + [c] + value[1..] == acc + value;
    }
  }

  lemma WordStarts(s: string)
    requires s != "" && !IsBlank(s[0])
    ensures Words(s) == Word(s, "")
  {
  }

  lemma QuoteOpens(rest: string, acc: string)
    ensures Word("'" + rest, acc) == SingleQuoted(rest, acc)
  {
    assert ("'" + rest)[1..] == rest;
  }

  lemma QuoteCloses(rest: string, acc: string)
    ensures SingleQuoted("'" + rest, acc) == Word(rest, acc)
  {
    assert ("'" + rest)[1..] == rest;
  }

  lemma QuotedCharacter(c: char, rest: string, acc: string)
    requires c != '\''
    ensures SingleQuoted([c] + rest, acc) == SingleQuoted(rest, acc + [c])
  {
    assert ([c] + rest)[1..] == rest;
  }

  lemma {:induction false} SplicedReads(value: string, rest: string, acc: string)
    ensures SingleQuoted(Spliced(value) + ("'" + rest), acc) == Word(rest, acc + value)
  {
    hide Word, SingleQuoted, DoubleQuoted;
    if value == "" {
      Associates("", "", "'" + rest);
      QuoteCloses(rest, acc);
      assert acc + value == acc;
    } else {
      var tail := Spliced(value[1..]) + ("'" + rest);
      var first := if value[0] == '\'' then "'\"'\"'" else [value[0]];
      assert Spliced(value) == first + Spliced(value[1..]);
      Associates(first, Spliced(value[1..]), "'" + rest);
      hide Spliced;
      if value[0] == '\'' { SpliceReads(tail, acc); } else { QuotedCharacter(value[0], tail, acc); }
      SplicedReads(value[1..], rest, acc + [value[0]]);
      assert acc + [value[0]] + value[1..] == acc + value;
    }
  }

  lemma Associates(a: string, b: string, c: string)
    ensures (a + b) + c == a + (b + c) && "" + c == c
  {
  }

  /** Leaving the single quotes, a double-quoted single quote, and back in. */
  lemma SpliceReads(tail: string, acc: string)
    ensures SingleQuoted("'\"'\"'" + tail, acc) == SingleQuoted(tail, acc + "'")
  {
    var s := "'\"'\"'" + tail;
    assert s[1..][0] == '"' && s[1..][1..][0] == '\'' && s[1..][1..][1..][0] == '"' && s[1..][1..][1..][1..][0] == '\'';
    assert s[1..][1..][1..][1..][1..] == tail;
    assert SingleQuoted(s, acc) == Word(s[1..], acc) == DoubleQuoted(s[1..][1..], acc);
    assert DoubleQuoted(s[1..][1..], acc) == DoubleQuoted(s[1..][1..][1..], acc + ['\'']);
    assert DoubleQuoted(s[1..][1..][1..], acc + ['\'']) == Word(s[1..][1..][1..][1..], acc + ['\'']);
  }

  lemma QuoteReads(value: string, rest: string)
    ensures Words(Quote(value) + rest) == Word(rest, value)
  {
    hide Words, Word, SingleQuoted, DoubleQuoted, Spliced;
    var s := Quote(value) + rest;
    if IsPlain(value) {
      NotSpecial(value[0]);
      WordStarts(s);
      PlainReads(value, rest, "");
    } else {
      var inside := Spliced(value) + ("'" + rest);
      Associates("'", Spliced(value), "'");
      Associates("'" + Spliced(value), "'", rest);
      Associates("'", Spliced(value), "'" + rest);
      assert s == "'" + inside;
      WordStarts(s);
      QuoteOpens(inside, "");
      SplicedReads(value, rest, "");
    }
    assert "" + value == value;
  }

  /** Every list of words survives quoting, joining and splitting, whatever its characters. */
  lemma {:induction false} JoinReads(words: seq<string>)
    ensures Words(Join(words)) == Ok(words)
  {
    if |words| == 1 {
      QuoteReads(words[0], "");
      assert Join(words) == Quote(words[0]) + "" && words == [words[0]];
    } else if words != [] {
      var rest := " " + Join(words[1..]);
      Associates(Quote(words[0]), " ", Join(words[1..]));
      QuoteReads(words[0], rest);
      JoinReads(words[1..]);
      hide Words, Quote, Join;
      BlankEnds(Join(words[1..]), words[0]);
      assert words == [words[0]] + words[1..];
    }
  }

  lemma BlankEnds(rest: string, acc: string)
    ensures Word(" " + rest, acc) == Cons(acc, Words(rest))
  {
    assert (" " + rest)[1..] == rest;
  }

  // ---------- which characters appear ----------

  predicate Over(s: string, alphabet: set<char>) {
    forall c :: c in s ==> c in alphabet
  }

  predicate AllOver(r: Lexed, alphabet: set<char>) {
    r.Ok? ==> forall i :: 0 <= i < |r.value| ==> Over(r.value[i], alphabet)
  }

  /** Splitting invents no characters. */
  lemma {:induction false} WordsOver(s: string, alphabet: set<char>)
    requires Over(s, alphabet)
    ensures AllOver(Words(s), alphabet)
    decreases |s|, 1
  {
    if s != "" {
      if IsBlank(s[0]) { WordsOver(s[1..], alphabet); } else { WordOver(s, "", alphabet, 0); }
    }
  }

  /** The same inside a word: outside quotes (0), in single quotes (1) and in double quotes (2). */
  lemma {:induction false} WordOver(s: string, acc: string, alphabet: set<char>, quotes: nat)
    requires Over(s, alphabet) && Over(acc, alphabet)
    ensures quotes == 0 ==> AllOver(Word(s, acc), alphabet)
    ensures quotes == 1 ==> AllOver(SingleQuoted(s, acc), alphabet)
    ensures quotes == 2 ==> AllOver(DoubleQuoted(s, acc), alphabet)
    decreases |s|, 0
  {
    if s == "" {
    } else {
      assert s[0] in s;
      WordOver(s[1..], acc, alphabet, 0);
      WordOver(s[1..], acc, alphabet, 1);
      WordOver(s[1..], acc, alphabet, 2);
      WordOver(s[1..], acc + [s[0]], alphabet, quotes);
      WordsOver(s[1..], alphabet);
      if |s| > 1 {
        assert s[1] in s;
        WordOver(s[2..], acc + [s[1]], alphabet, quotes);
      }
    }
  }

  lemma {:induction false} JoinOver(words: seq<string>, alphabet: set<char>)
    requires forall i :: 0 <= i < |words| ==> Over(words[i], alphabet)
    requires ' ' in alphabet && '\'' in alphabet && '"' in alphabet
    ensures Over(Join(words), alphabet)
  {
    if words == [] {
    } else {
      SplicedOver(words[0], alphabet);
      JoinOver(words[1..], alphabet);
    }
  }

  lemma {:induction false} SplicedOver(value: string, alphabet: set<char>)
    requires Over(value, alphabet) && '\'' in alphabet && '"' in alphabet
    ensures Over(Spliced(value), alphabet)
  {
    if value == "" {
    } else {
      assert value[0] in value;
      SplicedOver(value[1..], alphabet);
    }
  }
}
