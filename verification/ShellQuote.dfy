/** How the executor quotes a program's arguments, read back by the shell's token and quoting rules. */
module ShellQuote {
  import opened Wrappers

  const NUL := '\0'

  predicate NulFree(s: string) { forall i :: 0 <= i < |s| ==> s[i] != NUL }

  predicate AllNulFree(args: seq<string>) { forall i :: 0 <= i < |args| ==> NulFree(args[i]) }

  /** A closing quote, a double-quoted single quote, and an opening quote. */
  const QUOTED_QUOTE: string := ['\'', '"', '\'', '"', '\'']

  /** Every single quote replaced. */
  function Replaced(s: string): string {
    if s == "" then "" else (if s[0] == '\'' then QUOTED_QUOTE else [s[0]]) + Replaced(s[1..])
  }

  function ShellEscape(s: string): string { ['\''] + (Replaced(s) + ['\'']) }

  // ---------- The shell's reading (POSIX.1-2017 Shell Command Language, sections 2.2 and 2.3) ----------

  datatype Token = Word(text: string) | And

  datatype Mode = Blank | InWord | Single | Double

  /** Characters that section 2.2 says must be quoted to stand for themselves, other than those read below. */
  predicate Special(c: char) {
    c in {'|', ';', '<', '>', '(', ')', '$', '`', '\\', '\n', '*', '?', '[', '#', '~', '=', '%'}
  }

  function Finished(mode: Mode, word: string): seq<Token> { if mode == InWord then [Word(word)] else [] }

  function Prepend(tokens: seq<Token>, rest: Option<seq<Token>>): Option<seq<Token>> {
    match rest
    case None => None
    case Some(more) => Some(tokens + more)
  }

  lemma PrependNothing(rest: Option<seq<Token>>)
    ensures Prepend([], rest) == rest
  {
    assert rest.Some? ==> [] + rest.value == rest.value;
  }

  lemma PrependPrepend(a: seq<Token>, b: seq<Token>, rest: Option<seq<Token>>)
    ensures Prepend(a, Prepend(b, rest)) == Prepend(a + b, rest)
  {
    assert rest.Some? ==> a + (b + rest.value) == (a + b) + rest.value;
  }

  /**
   The tokens of a command text: words, and the `&&` operator. None for a text that cannot be
   passed to a program, is unterminated, or uses what is outside this part of the grammar.
   */
  function Lex(s: string, mode: Mode, word: string): Option<seq<Token>>
    decreases |s|
  {
    if s == "" then (if mode.Single? || mode.Double? then None else Some(Finished(mode, word)))
    else if s[0] == NUL then None
    else if mode.Single? then
      if s[0] == '\'' then Lex(s[1..], InWord, word) else Lex(s[1..], Single, word + [s[0]])
    else if mode.Double? then
      if s[0] == '"' then Lex(s[1..], InWord, word)
      else if s[0] in {'$', '`', '\\'} then None
      else Lex(s[1..], Double, word + [s[0]])
    else if s[0] == '\'' then Lex(s[1..], Single, word)
    else if s[0] == '"' then Lex(s[1..], Double, word)
    else if s[0] == ' ' || s[0] == '\t' then Prepend(Finished(mode, word), Lex(s[1..], Blank, ""))
    else if s[0] == '&' then
      if |s| > 1 && s[1] == '&' then Prepend(Finished(mode, word) + [And], Lex(s[2..], Blank, "")) else None
    else if Special(s[0]) then None
    else Lex(s[1..], InWord, word + [s[0]])
  }

  function Tokens(text: string): Option<seq<Token>> { Lex(text, Blank, "") }

  // ---------- The quoted text ----------

  function Rest(s: string, rest: string): string { Replaced(s) + (['\''] + rest) }

  lemma RestOfQuote(s: string, rest: string)
    requires s != "" && s[0] == '\''
    ensures Rest(s, rest) == ['\''] + (['"'] + (['\''] + (['"'] + (['\''] + Rest(s[1..], rest)))))
  {
  }

  lemma RestOfOther(s: string, rest: string)
    requires s != "" && s[0] != '\''
    ensures Rest(s, rest) == [s[0]] + Rest(s[1..], rest)
  {
  }

  lemma LexCons(c: char, t: string, mode: Mode, word: string)
    requires c != NUL
    ensures mode.Single? ==>
              Lex([c] + t, mode, word) == if c == '\'' then Lex(t, InWord, word) else Lex(t, Single, word + [c])
    ensures mode.Double? && c == '"' ==> Lex([c] + t, mode, word) == Lex(t, InWord, word)
    ensures mode.Double? && c == '\'' ==> Lex([c] + t, mode, word) == Lex(t, Double, word + [c])
    ensures !mode.Single? && !mode.Double? && c == '\'' ==> Lex([c] + t, mode, word) == Lex(t, Single, word)
    ensures !mode.Single? && !mode.Double? && c == '"' ==> Lex([c] + t, mode, word) == Lex(t, Double, word)
    ensures !mode.Single? && !mode.Double? && c == ' ' ==>
              Lex([c] + t, mode, word) == Prepend(Finished(mode, word), Lex(t, Blank, ""))
  {
    assert ([c] + t)[1..] == t;
  }

  /** A quoted single quote is left and re-entered in five characters. */
  lemma LexQuotedQuote(t: string, word: string)
    ensures Lex(['\''] + (['"'] + (['\''] + (['"'] + (['\''] + t)))), Single, word) == Lex(t, Single, word + ['\''])
  {
    var t4 := ['\''] + t;
    var t3 := ['"'] + t4;
    var t2 := ['\''] + t3;
    LexCons('\'', ['"'] + t2, Single, word);
    LexCons('"', t2, InWord, word);
    LexCons('\'', t3, Double, word);
    LexCons('"', t4, Double, word + ['\'']);
    LexCons('\'', t, InWord, word + ['\'']);
  }

  /** From inside the opening quote, the shell reads exactly the quoted string and carries on in the same word. */
  lemma {:induction false} LexQuoted(s: string, rest: string, word: string)
    ensures Lex(Rest(s, rest), Single, word) == if NulFree(s) then Lex(rest, InWord, word + s) else None
    decreases |s|
  {
    if s == "" {
      assert Rest(s, rest) == ['\''] + rest;
      LexCons('\'', rest, Single, word);
      assert word + s == word;
    } else {
      var next := word + [s[0]];
      assert NulFree(s) <==> s[0] != NUL && NulFree(s[1..]);
      assert next + s[1..] == word + s;
      if s[0] == '\'' {
        RestOfQuote(s, rest);
        LexQuotedQuote(Rest(s[1..], rest), word);
        LexQuoted(s[1..], rest, next);
      } else {
        RestOfOther(s, rest);
        if s[0] != NUL {
          LexCons(s[0], Rest(s[1..], rest), Single, word);
          LexQuoted(s[1..], rest, next);
        }
      }
    }
  }

  // ---------- The argument list ----------

  function ArgsText(args: seq<string>): string {
    if args == [] then "" else ([' '] + ShellEscape(args[0])) + ArgsText(args[1..])
  }

  function Words(args: seq<string>): seq<Token> {
    if args == [] then [] else [Word(args[0])] + Words(args[1..])
  }

  lemma {:induction false} LexArgs(args: seq<string>, word: string)
    ensures Lex(ArgsText(args), InWord, word) == if AllNulFree(args) then Some([Word(word)] + Words(args)) else None
    decreases |args|
  {
    if args == [] {
      assert [Word(word)] + Words(args) == [Word(word)];
    } else {
      var more := ArgsText(args[1..]);
      assert ArgsText(args) == [' '] + (['\''] + Rest(args[0], more));
      LexCons(' ', ['\''] + Rest(args[0], more), InWord, word);
      LexCons('\'', Rest(args[0], more), Blank, "");
      LexQuoted(args[0], more, "");
      assert "" + args[0] == args[0];
      PrependNothing(Lex(Rest(args[0], more), Single, ""));
      LexArgs(args[1..], args[0]);
      assert AllNulFree(args) <==> NulFree(args[0]) && AllNulFree(args[1..]);
    }
  }

  predicate Plain(s: string) {
    forall i :: 0 <= i < |s| ==> !Special(s[i]) && s[i] !in {NUL, '\'', '"', ' ', '\t', '&'}
  }

  lemma {:induction false} LexPlain(s: string, t: string, mode: Mode, word: string)
    requires Plain(s) && (mode.InWord? || (mode.Blank? && s != ""))
    ensures Lex(s + t, mode, word) == Lex(t, InWord, word + s)
    decreases |s|
  {
    if s == "" {
      assert s + t == t && word + s == word;
    } else {
      assert (s + t)[1..] == s[1..] + t;
      LexPlain(s[1..], t, InWord, word + [s[0]]);
      assert word + [s[0]] + s[1..] == word + s;
    }
  }

  /** A plain word, then a blank. */
  lemma LexPlainWord(s: string, t: string)
    requires Plain(s) && s != ""
    ensures Lex(s + ([' '] + t), Blank, "") == Prepend([Word(s)], Lex(t, Blank, ""))
  {
    LexPlain(s, [' '] + t, Blank, "");
    assert "" + s == s;
    LexCons(' ', t, InWord, s);
  }

  lemma LexAnd(t: string)
    ensures Lex("&&" + ([' '] + t), Blank, "") == Prepend([And], Lex(t, Blank, ""))
  {
    assert ("&&" + ([' '] + t))[2..] == [' '] + t;
    LexCons(' ', t, Blank, "");
    PrependNothing(Lex(t, Blank, ""));
    assert [] + [And] == [And];
  }

  const PROGRAM: string := "./main"

  /** The command before `cmd` limits the number of processes, unless that is switched off. */
  function UlimitWrapper(disabled: bool, cmd: string): string {
    if disabled then cmd
    else "ulimit" + ([' '] + ("-u" + ([' '] + ("256" + ([' '] + ("&&" + ([' '] + cmd)))))))
  }

  function Setup(disabled: bool): seq<Token> {
    if disabled then [] else [Word("ulimit"), Word("-u"), Word("256"), And]
  }

  lemma LexUlimit(disabled: bool, cmd: string)
    ensures Tokens(UlimitWrapper(disabled, cmd)) == Prepend(Setup(disabled), Tokens(cmd))
  {
    if !disabled {
      var t3 := "&&" + ([' '] + cmd);
      var t2 := "256" + ([' '] + t3);
      var t1 := "-u" + ([' '] + t2);
      LexPlainWord("ulimit", t1);
      LexPlainWord("-u", t2);
      LexPlainWord("256", t3);
      LexAnd(cmd);
      assert [Word("ulimit")] + ([Word("-u")] + ([Word("256")] + [And])) == Setup(disabled);
      PrependPrepend([Word("256")], [And], Tokens(cmd));
      PrependPrepend([Word("-u")], [Word("256")] + [And], Tokens(cmd));
      PrependPrepend([Word("ulimit")], [Word("-u")] + ([Word("256")] + [And]), Tokens(cmd));
    } else {
      PrependNothing(Tokens(cmd));
    }
  }

  /**
   For every list of arguments the shell reads the command as the program followed by exactly
   those arguments, one word each, if and only if none of them contains a NUL.
   */
  lemma QuotingRoundTrip(disabled: bool, args: seq<string>)
    ensures Tokens(UlimitWrapper(disabled, PROGRAM + ArgsText(args)))
            == if AllNulFree(args) then Some(Setup(disabled) + ([Word(PROGRAM)] + Words(args))) else None
  {
    LexUlimit(disabled, PROGRAM + ArgsText(args));
    assert Plain("./main");
    LexPlain(PROGRAM, ArgsText(args), Blank, "");
    assert "" + PROGRAM == PROGRAM;
    LexArgs(args, PROGRAM);
  }

  method BuildCommand(ulimitDisabled: bool, args: seq<string>) returns (shellCmd: string)
    ensures Tokens(shellCmd) == Some(Setup(ulimitDisabled) + ([Word(PROGRAM)] + Words(args))) <==> AllNulFree(args)
    ensures shellCmd == UlimitWrapper(ulimitDisabled, PROGRAM + ArgsText(args))
  {
    shellCmd := UlimitWrapper(ulimitDisabled, PROGRAM);
    WrapAppend(ulimitDisabled, PROGRAM, ArgsText(args));
    assert args[0..] == args;
    if |args| > 0 {
      var i := 0;
      while i < |args|
        invariant 0 <= i <= |args|
        invariant shellCmd + ArgsText(args[i..]) == UlimitWrapper(ulimitDisabled, PROGRAM + ArgsText(args))
      {
        assert args[i..][1..] == args[i + 1..];
        shellCmd := shellCmd + ([' '] + ShellEscape(args[i]));
        i := i + 1;
      }
    }
    assert shellCmd == UlimitWrapper(ulimitDisabled, PROGRAM + ArgsText(args));
    QuotingRoundTrip(ulimitDisabled, args);
  }

  lemma WrapAppend(disabled: bool, cmd: string, more: string)
    ensures UlimitWrapper(disabled, cmd + more) == UlimitWrapper(disabled, cmd) + more
  {
  }
}
