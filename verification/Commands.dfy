/** What command lines of plain words ask the shell for. */
module Commands {
  import opened Wrappers
  import opened Api
  import opened Effects
  import opened Tokenizer
  import opened Spelling
  import opened Shell
  import Consent

  /** Characters that all stand for themselves. */
  predicate IsWord(w: string) {
    w != "" && forall c <- w :: IsPlain(c)
  }

  lemma OneWord(w: string)
    requires IsWord(w)
    ensures Tokens(w) == Ok([w])
  {
    PlainWord(w);
  }

  lemma TwoWords(w: string, v: string)
    requires IsWord(w) && IsWord(v)
    ensures Tokens(w + " " + v) == Ok([w, v])
  {
    hide Tokens, IsPlain, IsWhitespace;
    SpaceIsWhitespace();
    PlainWordsSplit([w, v], [" ", ""]);
    assert [w, v][1..] == [v] && [" ", ""][1..] == [""] && [v][1..] == [] && [""][1..] == [];
    assert Spaced([v], [""]) == v + "" + "" == v;
  }

  lemma SpaceIsWhitespace()
    ensures IsWhitespace(' ')
  {
  }

  predicate IsCommand(w: string) {
    w == "cd" || w == "exit" || w == "clear" || w == "passwd" || w == "setup" || w == "run"
  }

  lemma CommandsAreWords(w: string)
    requires IsCommand(w)
    ensures IsWord(w)
  {
  }

  lemma BuiltinsAre(w: string)
    ensures w in BUILTINS <==> IsCommand(w) && w != "run"
  {
  }

  /** One word: a command of the shell, or else the application of that name. */
  lemma OneWordAsks(w: string)
    requires IsWord(w)
    ensures Named(w) == if IsCommand(w) then None else Some(w)
    ensures Goes(w) == if w == "cd" then Some("/user") else None
    ensures Leaves(w) == if w == "exit" then Some(Ok(0)) else None
    ensures SetsPassword(w) <==> w == "passwd" || w == "setup"
  {
    hide Tokens, BUILTINS;
    OneWord(w);
    BuiltinsAre(w);
  }

  /** The commands by themselves. */
  lemma CommandsAlone()
    ensures Goes("cd") == Some("/user") && Leaves("exit") == Some(Ok(0))
    ensures SetsPassword("passwd") && SetsPassword("setup")
    ensures Named("run") == Named("clear") == None
  {
    hide IsWord, Goes, Leaves, SetsPassword, Named;
    CommandsAreWords("cd");
    CommandsAreWords("exit");
    CommandsAreWords("passwd");
    CommandsAreWords("setup");
    CommandsAreWords("run");
    CommandsAreWords("clear");
    OneWordAsks("cd");
    OneWordAsks("exit");
    OneWordAsks("passwd");
    OneWordAsks("setup");
    OneWordAsks("run");
    OneWordAsks("clear");
  }

  /** Two words: the second is the directory to go to, the application to run or the status to leave with. */
  lemma TwoWordsAsk(w: string, v: string)
    requires IsWord(w) && IsWord(v)
    ensures var line := w + " " + v;
            && Named(line) == (if w == "run" then Some(v) else if IsCommand(w) then None else Some(w))
            && Goes(line) == (if w == "cd" then Some(v) else None)
            && (Leaves(line).Some? <==> w == "exit")
            && (SetsPassword(line) <==> w == "passwd" || w == "setup")
  {
    hide Tokens, BUILTINS, ParseI32;
    TwoWords(w, v);
    BuiltinsAre(w);
  }

  /** Every 32-bit status can be asked for. */
  lemma StatusRoundTrip(code: int)
    requires -0x8000_0000 <= code <= 0x7fff_ffff
    ensures ParseI32(if code < 0 then "-" + Decimal(-code) else Decimal(code)) == Some(code)
  {
    hide Decimal, DecimalValue;
    var digits := Decimal(if code < 0 then -code else code);
    Consent.DecimalSpells(if code < 0 then -code else code);
    assert digits[0] in digits;
    assert ("-" + digits)[1..] == digits;
  }

  /** Digits behind at most one sign. */
  predicate SpellsStatus(s: string, sign: string, digits: string, code: int) {
    && s == sign + digits && (sign == "" || sign == "+" || sign == "-")
    && digits != "" && (forall c <- digits :: '0' <= c <= '9')
    && code == (if sign == "-" then -DecimalValue(digits) else DecimalValue(digits))
  }

  /** And nothing else is a status, nor one that is out of range. */
  lemma StatusIff(s: string, code: int)
    ensures ParseI32(s) == Some(code) <==>
            -0x8000_0000 <= code <= 0x7fff_ffff && exists sign, digits :: SpellsStatus(s, sign, digits, code)
  {
    hide DecimalValue;
    if ParseI32(s) == Some(code) {
      var signed := s[0] == '+' || s[0] == '-';
      var sign, digits := if signed then s[..1] else "", if signed then s[1..] else s;
      assert SpellsStatus(s, sign, digits, code);
    }
    forall sign: string, digits: string | SpellsStatus(s, sign, digits, code)
      ensures -0x8000_0000 <= code <= 0x7fff_ffff ==> ParseI32(s) == Some(code)
    {
      assert digits[0] in digits;
      assert s[|sign|..] == digits;
    }
  }
}
