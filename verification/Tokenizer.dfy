/** Splitting a command line into words, with quotes and escapes. */
module Tokenizer {
  import opened Wrappers
  import opened Api

  /** `char::is_whitespace`. */
  predicate IsWhitespace(c: char) {
    var n := c as int;
    || 0x09 <= n <= 0x0D || n == 0x20 || n == 0x85 || n == 0xA0 || n == 0x1680
    || 0x2000 <= n <= 0x200A || n == 0x2028 || n == 0x2029 || n == 0x202F || n == 0x205F || n == 0x3000
  }

  datatype Lexer = Lexer(output: seq<string>, current: string, quote: Option<char>, escaped: bool)

  const START := Lexer([], "", None, false)

  function Feed(l: Lexer, c: char): Lexer {
    if l.escaped then l.(current := l.current + [c], escaped := false)
    else if c == '\\' then l.(escaped := true)
    else if l.quote.Some? then
      if c == l.quote.value then l.(quote := None) else l.(current := l.current + [c])
    else if c == '\'' || c == '"' then l.(quote := Some(c))
    else if IsWhitespace(c) then
      if l.current != "" then l.(output := l.output + [l.current], current := "") else l
    else l.(current := l.current + [c])
  }

  function FeedAll(l: Lexer, s: string): Lexer
    decreases |s|
  {
    if s == "" then l else FeedAll(Feed(l, s[0]), s[1..])
  }

  function Finish(l: Lexer): Result<seq<string>, Error> {
    var current := if l.escaped then l.current + "\\" else l.current;
    if l.quote.Some? then Err(InvalidInput)
    else Ok(if current != "" then l.output + [current] else l.output)
  }

  function Tokens(input: string): Result<seq<string>, Error> {
    Finish(FeedAll(START, input))
  }

  method SplitCommandLine(input: string) returns (r: Result<seq<string>, Error>)
    ensures r == Tokens(input)
  {
    var output: seq<string>, current, quote, escaped := [], "", None, false;
    for i := 0 to |input|
      invariant FeedAll(START, input) == FeedAll(Lexer(output, current, quote, escaped), input[i..])
    {
      hide IsWhitespace;
      assert input[i..][1..] == input[i + 1..] && input[i..][0] == input[i];
      var c := input[i];
      if escaped {
        current := current + [c];
        escaped := false;
        continue;
      }
      if c == '\\' {
        escaped := true;
        continue;
      }
      if quote.Some? {
        if c == quote.value {
          quote := None;
        } else {
          current := current + [c];
        }
        continue;
      }
      if c == '\'' || c == '"' {
        quote := Some(c);
      } else if IsWhitespace(c) {
        if current != "" {
          output := output + [current];
          current := "";
        }
      } else {
        current := current + [c];
      }
    }
    assert input[|input|..] == "";
    if escaped {
      current := current + "\\";
    }
    if quote.Some? {
      return Err(InvalidInput);
    }
    if current != "" {
      output := output + [current];
    }
    return Ok(output);
  }

  /* ----- Laws ----- */

  lemma {:induction false} FeedAllConcat(l: Lexer, a: string, b: string)
    ensures FeedAll(l, a + b) == FeedAll(FeedAll(l, a), b)
    decreases |a|
  {
    hide Feed;
    if a == "" {
      assert a + b == b;
    } else {
      assert (a + b)[1..] == a[1..] + b;
      FeedAllConcat(Feed(l, a[0]), a[1..], b);
    }
  }

  /** What has been put out already does not influence what follows. */
  lemma {:induction false} OutputIsAppended(out: seq<string>, l: Lexer, s: string)
    ensures FeedAll(l.(output := out + l.output), s) == FeedAll(l, s).(output := out + FeedAll(l, s).output)
    decreases |s|
  {
    if s != "" {
      FeedAppends(out, l, s[0]);
      hide Feed;
      OutputIsAppended(out, Feed(l, s[0]), s[1..]);
    }
  }

  lemma FeedAppends(out: seq<string>, l: Lexer, c: char)
    ensures Feed(l.(output := out + l.output), c) == Feed(l, c).(output := out + Feed(l, c).output)
  {
    hide IsWhitespace;
    assert out + (l.output + [l.current]) == out + l.output + [l.current];
  }

  predicate NoEmpty(words: seq<string>) {
    forall w <- words :: w != ""
  }

  lemma {:induction false} FeedKeepsNoEmpty(l: Lexer, s: string)
    requires NoEmpty(l.output)
    ensures NoEmpty(FeedAll(l, s).output)
    decreases |s|
  {
    if s != "" {
      FeedKeepsNoEmpty(Feed(l, s[0]), s[1..]);
    }
  }

  /** No word is ever empty. */
  lemma WordsAreNotEmpty(input: string)
    requires Tokens(input).Ok?
    ensures NoEmpty(Tokens(input).value)
  {
    FeedKeepsNoEmpty(START, input);
  }

  /** How many backslashes end the line. */
  function Trailing(x: string): nat {
    if x == "" || x[|x| - 1] != '\\' then 0 else 1 + Trailing(x[..|x| - 1])
  }

  /** An escape is pending after a line, in quotes or not, exactly when an odd number of backslashes ends it. */
  lemma {:induction false} PendingIff(x: string)
    ensures FeedAll(START, x).escaped <==> Trailing(x) % 2 == 1
  {
    if x != "" {
      var front, c := x[..|x| - 1], x[|x| - 1];
      assert x == front + [c];
      PendingIff(front);
      FeedAllConcat(START, front, [c]);
      FeedOne(FeedAll(START, front), c);
    }
  }

  /** Two lines joined by a space split as they do apart, when the first ends in an even number of backslashes. */
  lemma SplitsAtSpace(x: string, y: string)
    requires Tokens(x).Ok? && Trailing(x) % 2 == 0
    ensures Tokens(x + " " + y) ==
            match Tokens(y) case Err(e) => Err(e) case Ok(words) => Ok(Tokens(x).value + words)
  {
    hide FeedAll;
    var l := FeedAll(START, x);
    PendingIff(x);
    FeedAllConcat(START, x + " ", y);
    FeedAllConcat(START, x, " ");
    FeedOne(l, ' ');
    var words := Tokens(x).value;
    assert Feed(l, ' ') == START.(output := words + START.output);
    OutputIsAppended(words, START, y);
    FinishAppends(words, FeedAll(START, y));
  }

  /** The law that `SplitsAtSpace` states. */
  predicate SplitsApart(x: string, y: string)
    requires Tokens(x).Ok?
  {
    Tokens(x + " " + y) == match Tokens(y) case Err(e) => Err(e) case Ok(words) => Ok(Tokens(x).value + words)
  }

  /** It holds for every second line exactly when the first ends in an even number of backslashes. */
  lemma SplitsAtSpaceIff(x: string)
    requires Tokens(x).Ok?
    ensures (forall y :: SplitsApart(x, y)) <==> Trailing(x) % 2 == 0
  {
    var l := FeedAll(START, x);
    PendingIff(x);
    if !l.escaped {
      forall y ensures SplitsApart(x, y) {
        SplitsAtSpace(x, y);
      }
    } else {
      hide FeedAll;
      NothingToSplit();
      assert x + " " + "" == x + " ";
      FeedAllConcat(START, x, " ");
      FeedOne(l, ' ');
      assert Tokens(x + " ") == Ok(l.output + [l.current + [' ']]);
      assert Tokens(x) == Ok(l.output + [l.current + ['\\']]);
      var joined, apart := l.output + [l.current + [' ']], l.output + [l.current + ['\\']];
      assert joined[|l.output|][|l.current|] != apart[|l.output|][|l.current|];
      assert apart + [] == apart;
      assert !SplitsApart(x, "");
    }
  }

  lemma FeedOne(l: Lexer, c: char)
    ensures FeedAll(l, [c]) == Feed(l, c)
  {
    assert [c][1..] == "";
  }

  lemma FinishAppends(out: seq<string>, l: Lexer)
    ensures Finish(l.(output := out + l.output)) ==
            match Finish(l) case Err(e) => Err(e) case Ok(words) => Ok(out + words)
  {
    var current := if l.escaped then l.current + "\\" else l.current;
    assert out + (l.output + [current]) == out + l.output + [current];
  }

  /* ----- Escaping ----- */

  /** The word with a backslash before each character. */
  function Escape(word: string): string {
    if word == "" then "" else ['\\', word[0]] + Escape(word[1..])
  }

  function EscapeAll(words: seq<string>): string {
    if words == [] then ""
    else if |words| == 1 then Escape(words[0])
    else Escape(words[0]) + " " + EscapeAll(words[1..])
  }

  lemma {:induction false} EscapedFeeds(l: Lexer, word: string)
    requires !l.escaped
    ensures FeedAll(l, Escape(word)) == l.(current := l.current + word)
    decreases |word|
  {
    if word == "" {
      assert l.current + word == l.current;
    } else {
      var s := Escape(word);
      assert s[1..] == [word[0]] + Escape(word[1..]) && s[1..][1..] == Escape(word[1..]);
      var next := l.(current := l.current + [word[0]]);
      assert FeedAll(l, s) == FeedAll(next, Escape(word[1..]));
      EscapedFeeds(next, word[1..]);
      assert l.current + [word[0]] + word[1..] == l.current + word;
    }
  }

  lemma EscapedWord(word: string)
    requires word != ""
    ensures FeedAll(START, Escape(word)) == START.(current := word)
    ensures Tokens(Escape(word)) == Ok([word])
  {
    EscapedFeeds(START, word);
    assert "" + word == word && [] + [word] == [word];
  }

  /** Any list of nonempty words, escaped and joined with spaces, splits back into the list. */
  lemma {:induction false} EscapingRoundTrip(words: seq<string>)
    requires NoEmpty(words)
    ensures Tokens(EscapeAll(words)) == Ok(words)
  {
    hide Tokens, Escape, FeedAll;
    if words == [] {
      NothingToSplit();
    } else {
      assert words[0] in words && words == [words[0]] + words[1..];
      EscapedWord(words[0]);
      if |words| == 1 {
        assert words == [words[0]];
      } else {
        assert forall w <- words[1..] :: w in words;
        EscapingRoundTrip(words[1..]);
        PendingIff(Escape(words[0]));
        SplitsAtSpace(Escape(words[0]), EscapeAll(words[1..]));
      }
    }
  }

  lemma NothingToSplit()
    ensures Tokens("") == Ok([])
  {
  }
}
