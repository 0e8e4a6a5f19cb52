/** How command lines are spelled: what every line consists of, and the words that it stands for. */
module Spelling {
  import opened Wrappers
  import opened Api
  import opened Tokenizer

  /** A character between quotes, by itself or behind a backslash. */
  datatype Inner = Plain(c: char) | Escaped(c: char)

  /** A character by itself or behind a backslash, a quoted text, or one character of a gap between words. */
  datatype Item = Bare(inner: Inner) | Quoted(quote: char, body: seq<Inner>) | Gap(c: char)

  predicate IsQuote(c: char) {
    c == '\'' || c == '"'
  }

  /** A character that stands for itself outside quotes. */
  predicate IsPlain(c: char) {
    c != '\\' && !IsQuote(c) && !IsWhitespace(c)
  }

  /** Between quotes everything but the quote and the backslash stands for itself. */
  predicate BodyFits(quote: char, body: seq<Inner>) {
    forall i <- body :: i.Plain? ==> i.c != quote && i.c != '\\'
  }

  predicate Fits(item: Item) {
    match item
    case Bare(i) => i.Plain? ==> IsPlain(i.c)
    case Quoted(q, body) => IsQuote(q) && BodyFits(q, body)
    case Gap(c) => IsWhitespace(c)
  }

  predicate AllFit(items: seq<Item>) {
    forall i <- items :: Fits(i)
  }

  /* ----- The line and its words ----- */

  function InnerLine(i: Inner): string {
    if i.Plain? then [i.c] else ['\\', i.c]
  }

  function BodyLine(body: seq<Inner>): string {
    if body == [] then "" else BodyLine(body[..|body| - 1]) + InnerLine(body[|body| - 1])
  }

  function BodyText(body: seq<Inner>): string {
    seq(|body|, i requires 0 <= i < |body| => body[i].c)
  }

  function ItemLine(item: Item): string {
    match item
    case Bare(i) => InnerLine(i)
    case Quoted(q, body) => [q] + BodyLine(body) + [q]
    case Gap(c) => [c]
  }

  function Line(items: seq<Item>): string {
    if items == [] then "" else Line(items[..|items| - 1]) + ItemLine(items[|items| - 1])
  }

  function ItemText(item: Item): string {
    match item case Bare(i) => [i.c] case Quoted(_, body) => BodyText(body) case Gap(_) => ""
  }

  function Text(items: seq<Item>): string {
    if items == [] then "" else Text(items[..|items| - 1]) + ItemText(items[|items| - 1])
  }

  /** The number of items before the first gap. */
  function UpToGap(items: seq<Item>): (k: nat)
    ensures k <= |items|
    ensures forall i | 0 <= i < k :: !items[i].Gap?
    ensures k < |items| ==> items[k].Gap?
  {
    if items == [] || items[0].Gap? then 0 else 1 + UpToGap(items[1..])
  }

  /** The text of items that touch is one word, unless it is empty. */
  function Word(items: seq<Item>): seq<string> {
    if Text(items) == "" then [] else [Text(items)]
  }

  /** The words between the gaps. */
  function WordsOf(items: seq<Item>): seq<string>
    decreases |items|
  {
    var k := UpToGap(items);
    if k == |items| then Word(items) else Word(items[..k]) + WordsOf(items[k + 1..])
  }

  /* ----- Reading what is spelled ----- */

  lemma FeedInner(l: Lexer, i: Inner)
    requires !l.escaped
    requires i.Plain? ==> i.c != '\\' && if l.quote.Some? then i.c != l.quote.value else IsPlain(i.c)
    ensures FeedAll(l, InnerLine(i)) == l.(current := l.current + [i.c])
  {
    if i.Plain? {
      FeedOne(l, i.c);
    } else {
      assert "\\" + [i.c] == InnerLine(i);
      FeedAllConcat(l, "\\", [i.c]);
      FeedOne(l, '\\');
      FeedOne(Feed(l, '\\'), i.c);
    }
  }

  lemma {:induction false} FeedBody(l: Lexer, quote: char, body: seq<Inner>)
    requires !l.escaped && l.quote == Some(quote) && BodyFits(quote, body)
    ensures FeedAll(l, BodyLine(body)) == l.(current := l.current + BodyText(body))
    decreases |body|
  {
    hide FeedAll, InnerLine;
    if body == [] {
      FeedNothing(l);
      assert l.current + BodyText(body) == l.current;
    } else {
      var front, last := body[..|body| - 1], body[|body| - 1];
      assert last in body && forall i <- front :: i in body;
      FeedBody(l, quote, front);
      FeedAllConcat(l, BodyLine(front), InnerLine(last));
      FeedInner(l.(current := l.current + BodyText(front)), last);
      assert BodyText(body) == BodyText(front) + [last.c];
      assert l.current + BodyText(front) + [last.c] == l.current + BodyText(body);
    }
  }

  lemma FeedNothing(l: Lexer)
    ensures FeedAll(l, "") == l
  {
  }

  lemma FeedQuoted(l: Lexer, quote: char, body: seq<Inner>)
    requires !l.escaped && l.quote == None && IsQuote(quote) && BodyFits(quote, body)
    ensures FeedAll(l, [quote] + BodyLine(body)) == l.(current := l.current + BodyText(body), quote := Some(quote))
    ensures FeedAll(l, [quote] + BodyLine(body) + [quote]) == l.(current := l.current + BodyText(body))
  {
    hide FeedAll, BodyLine, BodyText;
    var inside := l.(quote := Some(quote));
    FeedOne(l, quote);
    FeedAllConcat(l, [quote], BodyLine(body));
    FeedBody(inside, quote, body);
    FeedAllConcat(l, [quote] + BodyLine(body), [quote]);
    FeedOne(inside.(current := l.current + BodyText(body)), quote);
  }

  /** Items without a gap add their text to the word in progress. */
  lemma {:induction false} FeedTouching(l: Lexer, items: seq<Item>)
    requires !l.escaped && l.quote == None && AllFit(items) && forall i <- items :: !i.Gap?
    ensures FeedAll(l, Line(items)) == l.(current := l.current + Text(items))
    decreases |items|
  {
    hide FeedAll, ItemLine, ItemText, Fits;
    if items == [] {
      FeedNothing(l);
      assert l.current + "" == l.current;
    } else {
      var front, last := items[..|items| - 1], items[|items| - 1];
      assert last in items && Fits(last) && forall i <- front :: i in items;
      FeedTouching(l, front);
      var so := l.(current := l.current + Text(front));
      FeedAllConcat(l, Line(front), ItemLine(last));
      FeedItem(so, last);
      assert so.current + ItemText(last) == l.current + Text(items);
    }
  }

  lemma FeedItem(l: Lexer, item: Item)
    requires !l.escaped && l.quote == None && Fits(item) && !item.Gap?
    ensures FeedAll(l, ItemLine(item)) == l.(current := l.current + ItemText(item))
  {
    hide FeedAll, InnerLine, BodyLine, BodyText, IsPlain, BodyFits;
    match item {
      case Bare(i) =>
        PlainIsNoBackslash(i);
        FeedInner(l, i);
      case Quoted(q, body) => FeedQuoted(l, q, body);
    }
  }

  lemma PlainIsNoBackslash(i: Inner)
    ensures i.Plain? && IsPlain(i.c) ==> i.c != '\\'
  {
  }

  lemma FeedGap(l: Lexer, c: char)
    requires !l.escaped && l.quote == None && IsWhitespace(c)
    ensures FeedAll(l, [c]) == if l.current == "" then l else l.(output := l.output + [l.current], current := "")
  {
    FeedOne(l, c);
  }

  lemma {:induction false} LineConcat(a: seq<Item>, b: seq<Item>)
    ensures Line(a + b) == Line(a) + Line(b)
    decreases |b|
  {
    hide ItemLine;
    if b == [] {
      assert a + b == a;
    } else {
      assert (a + b)[..|a + b| - 1] == a + b[..|b| - 1];
      LineConcat(a, b[..|b| - 1]);
    }
  }

  lemma LineOfOne(item: Item)
    ensures Line([item]) == ItemLine(item)
  {
    hide ItemLine;
    assert [item][..0] == [];
  }

  lemma LineAtGap(items: seq<Item>, k: nat)
    requires k < |items| && items[k].Gap?
    ensures Line(items) == Line(items[..k]) + [items[k].c] + Line(items[k + 1..])
  {
    hide Line;
    assert items == items[..k] + [items[k]] + items[k + 1..];
    LineConcat(items[..k] + [items[k]], items[k + 1..]);
    LineConcat(items[..k], [items[k]]);
    LineOfOne(items[k]);
  }

  lemma GapIsAt(items: seq<Item>, k: nat)
    requires k <= |items| && (forall i | 0 <= i < k :: !items[i].Gap?) && (k < |items| ==> items[k].Gap?)
    ensures UpToGap(items) == k
  {
  }

  lemma WordsAtGap(items: seq<Item>, k: nat)
    requires k <= |items| && (forall i | 0 <= i < k :: !items[i].Gap?) && (k < |items| ==> items[k].Gap?)
    ensures WordsOf(items) == if k == |items| then Word(items) else Word(items[..k]) + WordsOf(items[k + 1..])
  {
    hide UpToGap, Word;
    GapIsAt(items, k);
  }

  /** The words that are complete in front of a state, and the one in progress. */
  ghost predicate Yields(l: Lexer, items: seq<Item>) {
    && !l.escaped && l.quote == None
    && WordsOf(items) == (if l.current == "" then l.output else l.output + [l.current])
    && forall i: Inner :: WordsOf(items + [Bare(i)]) == l.output + [l.current + [i.c]]
  }

  lemma YieldsOne(items: seq<Item>)
    requires UpToGap(items) == |items|
    ensures Yields(START.(current := Text(items)), items)
  {
    hide Text, WordsOf, UpToGap;
    WordsAtGap(items, |items|);
    forall i: Inner ensures WordsOf(items + [Bare(i)]) == [] + [Text(items) + [i.c]] {
      OneMoreTouches(items, i);
    }
    assert [] + [Text(items)] == [Text(items)];
  }

  lemma YieldsMore(items: seq<Item>, k: nat, later: Lexer)
    requires k == UpToGap(items) < |items| && Yields(later, items[k + 1..])
    ensures Yields(later.(output := Word(items[..k]) + later.output), items)
  {
    hide Word, WordsOf, UpToGap;
    var word, rest := Word(items[..k]), items[k + 1..];
    WordsAtGap(items, k);
    assert word + (later.output + [later.current]) == word + later.output + [later.current];
    forall i: Inner ensures WordsOf(items + [Bare(i)]) == word + later.output + [later.current + [i.c]] {
      OneMoreAfterGap(items, i, k);
      assert word + (later.output + [later.current + [i.c]]) == word + later.output + [later.current + [i.c]];
    }
  }

  /** What the line leaves behind. */
  lemma {:induction false} FeedLine(items: seq<Item>) returns (l: Lexer)
    requires AllFit(items)
    ensures l == FeedAll(START, Line(items)) && Yields(l, items)
    decreases |items|
  {
    hide FeedAll, Line, Fits, Text, WordsOf, Yields;
    var k := UpToGap(items);
    assert forall i <- items[..k] :: i in items;
    FeedTouching(START, items[..k]);
    var t := Text(items[..k]);
    assert START.current + t == t;
    if k == |items| {
      assert items[..k] == items;
      l := START.(current := t);
      YieldsOne(items);
    } else {
      var rest := items[k + 1..];
      assert items[k] in items && Fits(items[k]) && forall i <- rest :: i in items;
      FeedFirstWord(items, k);
      FeedAllConcat(START, Line(items[..k]) + [items[k].c], Line(rest));
      LineAtGap(items, k);
      var later := FeedLine(rest);
      OutputIsAppended(Word(items[..k]), START, Line(rest));
      l := later.(output := Word(items[..k]) + later.output);
      YieldsMore(items, k, later);
    }
  }

  lemma FeedFirstWord(items: seq<Item>, k: nat)
    requires k < |items| && items[k].Gap? && Fits(items[k])
    requires FeedAll(START, Line(items[..k])) == START.(current := Text(items[..k]))
    ensures FeedAll(START, Line(items[..k]) + [items[k].c]) == START.(output := Word(items[..k]) + START.output)
  {
    hide FeedAll, Line, Text;
    GapIsSpace(items[k]);
    FeedAllConcat(START, Line(items[..k]), [items[k].c]);
    FeedGap(START.(current := Text(items[..k])), items[k].c);
    assert Word(items[..k]) + [] == Word(items[..k]) && [] + Word(items[..k]) == Word(items[..k]);
  }

  lemma GapIsSpace(item: Item)
    requires item.Gap? && Fits(item)
    ensures IsWhitespace(item.c)
  {
  }

  lemma OneMoreTouches(items: seq<Item>, i: Inner)
    requires UpToGap(items) == |items|
    ensures WordsOf(items + [Bare(i)]) == [Text(items) + [i.c]]
  {
    hide UpToGap, WordsOf;
    var all := items + [Bare(i)];
    assert all[..|all| - 1] == items;
    WordsAtGap(all, |all|);
  }

  lemma OneMoreAfterGap(items: seq<Item>, i: Inner, k: nat)
    requires k == UpToGap(items) < |items|
    ensures WordsOf(items + [Bare(i)]) == Word(items[..k]) + WordsOf(items[k + 1..] + [Bare(i)])
  {
    hide UpToGap, Word, WordsOf;
    var all := items + [Bare(i)];
    WordsAtGap(all, k);
    assert all[..k] == items[..k] && all[k + 1..] == items[k + 1..] + [Bare(i)];
  }

  /** Whatever is spelled splits into its words. */
  lemma SpelledSplits(items: seq<Item>)
    requires AllFit(items)
    ensures Tokens(Line(items)) == Ok(WordsOf(items))
  {
    hide FeedAll, Line, WordsOf;
    var l := FeedLine(items);
    assert Yields(l, items);
  }

  /** A backslash at the very end stands for itself. */
  lemma LastBackslashStays(items: seq<Item>)
    requires AllFit(items)
    ensures Tokens(Line(items) + "\\") == Ok(WordsOf(items + [Bare(Escaped('\\'))]))
  {
    hide FeedAll, Line, WordsOf;
    var l := FeedLine(items);
    FeedAllConcat(START, Line(items), "\\");
    FeedOne(l, '\\');
  }

  /* ----- Every line ----- */

  /** A line that ends with a quote opened and not closed, and perhaps with a backslash after that. */
  predicate EndsOpen(line: string, items: seq<Item>, quote: char, body: seq<Inner>, pending: bool) {
    && AllFit(items) && IsQuote(quote) && BodyFits(quote, body)
    && line == Line(items) + ([quote] + BodyLine(body)) + if pending then "\\" else ""
  }

  lemma OpenFails(line: string, items: seq<Item>, quote: char, body: seq<Inner>, pending: bool)
    requires EndsOpen(line, items, quote, body, pending)
    ensures Tokens(line) == Err(InvalidInput)
  {
    hide FeedAll, Line, WordsOf, BodyLine, BodyText, AllFit;
    var l := FeedLine(items);
    var inside := [quote] + BodyLine(body);
    FeedAllConcat(START, Line(items), inside);
    FeedQuoted(l, quote, body);
    if pending {
      FeedAllConcat(START, Line(items) + inside, "\\");
      FeedOne(l.(current := l.current + BodyText(body), quote := Some(quote)), '\\');
    } else {
      assert line == Line(items) + inside;
    }
  }

  /** What a line is, as far as it goes. */
  datatype Reading = Reading(items: seq<Item>, open: Option<(char, seq<Inner>)>, pending: bool)

  predicate Reads(line: string, r: Reading) {
    match r.open
    case None => AllFit(r.items) && line == Line(r.items) + if r.pending then "\\" else ""
    case Some((q, body)) => EndsOpen(line, r.items, q, body, r.pending)
  }

  lemma LineMore(items: seq<Item>, item: Item)
    requires AllFit(items) && Fits(item)
    ensures AllFit(items + [item]) && Line(items + [item]) == Line(items) + ItemLine(item)
    ensures Text(items + [item]) == Text(items) + ItemText(item)
  {
    hide Fits, ItemLine, ItemText;
    assert (items + [item])[..|items|] == items;
  }

  lemma BodyMore(quote: char, body: seq<Inner>, i: Inner)
    requires BodyFits(quote, body) && (i.Plain? ==> i.c != quote && i.c != '\\')
    ensures BodyFits(quote, body + [i]) && BodyLine(body + [i]) == BodyLine(body) + InnerLine(i)
  {
    assert (body + [i])[..|body|] == body;
  }

  /** Every line can be read so. */
  lemma {:induction false} EveryLineReads(line: string) returns (r: Reading)
    ensures Reads(line, r)
  {
    if line == "" {
      r := Reading([], None, false);
    } else {
      var front, c := line[..|line| - 1], line[|line| - 1];
      assert line == front + [c];
      var was := EveryLineReads(front);
      if was.open.None? {
        r := OneMoreOutside(front, was, c);
      } else {
        r := OneMoreInside(front, was, c);
      }
    }
  }

  lemma OneMoreOutside(front: string, was: Reading, c: char) returns (r: Reading)
    requires Reads(front, was) && was.open.None?
    ensures Reads(front + [c], r)
  {
    hide Line, AllFit, IsWhitespace;
    if was.pending {
      r := Reading(was.items + [Bare(Escaped(c))], None, false);
      LineMore(was.items, Bare(Escaped(c)));
    } else if c == '\\' {
      r := was.(pending := true);
    } else if IsQuote(c) {
      r := was.(open := Some((c, [])));
      assert front + [c] == Line(was.items) + ([c] + "") + "";
    } else {
      var item := if IsWhitespace(c) then Gap(c) else Bare(Plain(c));
      r := was.(items := was.items + [item]);
      LineMore(was.items, item);
    }
  }

  lemma OneMoreInside(front: string, was: Reading, c: char) returns (r: Reading)
    requires Reads(front, was) && was.open.Some?
    ensures Reads(front + [c], r)
  {
    hide Line, AllFit, IsWhitespace, BodyLine, BodyFits;
    var (q, body) := was.open.value;
    var before := Line(was.items) + ([q] + BodyLine(body));
    if !was.pending && c == '\\' {
      r := was.(pending := true);
    } else if !was.pending && c == q {
      r := Reading(was.items + [Quoted(q, body)], None, false);
      LineMore(was.items, Quoted(q, body));
      assert front + [c] == Line(was.items) + ([q] + BodyLine(body) + [q]);
    } else {
      var i := if was.pending then Escaped(c) else Plain(c);
      r := Reading(was.items, Some((q, body + [i])), false);
      BodyMore(q, body, i);
      assert front + [c] == before + InnerLine(i);
      assert before + InnerLine(i) == Line(was.items) + ([q] + (BodyLine(body) + InnerLine(i)));
    }
  }

  /** Splitting fails exactly on a line with a quote left open; on any other it gives the words of what is spelled. */
  lemma SplitFailsIff(line: string)
    ensures Tokens(line).Err? <==> exists items, q, body, pending :: EndsOpen(line, items, q, body, pending)
  {
    hide EndsOpen, Tokens, WordsOf;
    var r := EveryLineReads(line);
    if r.open.None? {
      SpelledSplits(r.items);
      LastBackslashStays(r.items);
      assert Line(r.items) + "" == Line(r.items);
    } else {
      assert EndsOpen(line, r.items, r.open.value.0, r.open.value.1, r.pending);
    }
    forall items, q, body, pending | EndsOpen(line, items, q, body, pending) ensures Tokens(line).Err? {
      OpenFails(line, items, q, body, pending);
    }
  }

  /* ----- Words without backslashes ----- */

  /** The text as items that stand for themselves. */
  function Bares(text: string): (items: seq<Item>)
    ensures |items| == |text|
  {
    seq(|text|, i requires 0 <= i < |text| => Bare(Plain(text[i])))
  }

  function Plains(text: string): seq<Inner> {
    seq(|text|, i requires 0 <= i < |text| => Plain(text[i]))
  }

  lemma {:induction false} BaresSpell(text: string)
    requires forall c <- text :: IsPlain(c)
    ensures AllFit(Bares(text)) && Line(Bares(text)) == text && Text(Bares(text)) == text
  {
    hide IsPlain;
    var items := Bares(text);
    if text != "" {
      var front := text[..|text| - 1];
      assert text == front + [text[|text| - 1]] && items[..|items| - 1] == Bares(front);
      BaresSpell(front);
    }
  }

  lemma {:induction false} PlainsSpell(text: string)
    ensures BodyLine(Plains(text)) == text && BodyText(Plains(text)) == text
  {
    if text != "" {
      var front := text[..|text| - 1];
      assert text == front + [text[|text| - 1]] && Plains(text)[..|text| - 1] == Plains(front);
      PlainsSpell(front);
    }
  }

  /** Items that touch make one word. */
  lemma TouchingIsOneWord(items: seq<Item>)
    requires AllFit(items) && (forall i <- items :: !i.Gap?) && Text(items) != ""
    ensures Tokens(Line(items)) == Ok([Text(items)])
  {
    hide Tokens, Line, Text, UpToGap, WordsOf;
    SpelledSplits(items);
    WordsAtGap(items, |items|);
  }

  /** A word without whitespace, quotes and backslashes is itself. */
  lemma PlainWord(w: string)
    requires w != "" && forall c <- w :: IsPlain(c)
    ensures Tokens(w) == Ok([w])
  {
    hide Tokens, Line, Text;
    BaresSpell(w);
    TouchingIsOneWord(Bares(w));
  }

  /** Between either kind of quotes anything but that quote and a backslash is itself, whitespace included. */
  lemma QuotedWord(q: char, s: string)
    requires IsQuote(q) && s != "" && q !in s && '\\' !in s
    ensures Tokens([q] + s + [q]) == Ok([s])
  {
    hide Tokens;
    PlainsSpell(s);
    var items := [Quoted(q, Plains(s))];
    assert items[..0] == [] && Line(items) == [q] + s + [q] && Text(items) == s;
    TouchingIsOneWord(items);
  }

  /** A plain part and a quoted part that touch are one word. */
  lemma TouchingQuotes(w: string, q: char, s: string)
    requires (forall c <- w :: IsPlain(c)) && IsQuote(q) && q !in s && '\\' !in s && w + s != ""
    ensures Tokens(w + [q] + s + [q]) == Ok([w + s])
  {
    hide Tokens, IsPlain, Line, Text, AllFit, BodyLine, BodyText;
    BaresSpell(w);
    PlainsSpell(s);
    var quoted := Quoted(q, Plains(s));
    LineMore(Bares(w), quoted);
    assert w + ([q] + s + [q]) == w + [q] + s + [q];
    TouchingIsOneWord(Bares(w) + [quoted]);
  }

  /** Words, each followed by its gap. */
  function Spaced(words: seq<string>, gaps: seq<string>): string
    requires |gaps| == |words|
  {
    if words == [] then "" else words[0] + gaps[0] + Spaced(words[1..], gaps[1..])
  }

  lemma {:induction false} GapsSpell(gap: string, items: seq<Item>) returns (all: seq<Item>)
    requires (forall c <- gap :: IsWhitespace(c)) && AllFit(items)
    ensures AllFit(all) && Line(all) == gap + Line(items) && WordsOf(all) == WordsOf(items)
    ensures if gap == "" then all == items else all != [] && all[0].Gap?
    decreases |gap|
  {
    hide IsWhitespace, Line, WordsOf, Word;
    if gap == "" {
      all := items;
      assert gap + Line(items) == Line(items);
    } else {
      var rest := GapsSpell(gap[1..], items);
      all := [Gap(gap[0])] + rest;
      LineAtGap(all, 0);
      NothingSpelled();
      WordsAtGap(all, 0);
      assert all[..0] == [] && all[1..] == rest && gap == [gap[0]] + gap[1..];
      assert "" + [gap[0]] + Line(rest) == gap + Line(items);
      assert [] + WordsOf(rest) == WordsOf(rest);
    }
  }

  lemma NothingSpelled()
    ensures Line([]) == "" && Word([]) == []
  {
  }

  /** Plain words with any whitespace between them, and perhaps after the last, split back. */
  lemma PlainWordsSplit(words: seq<string>, gaps: seq<string>)
    requires |gaps| == |words| && forall w <- words :: w != "" && forall c <- w :: IsPlain(c)
    requires forall g <- gaps :: forall c <- g :: IsWhitespace(c)
    requires forall i | 0 <= i < |gaps| - 1 :: gaps[i] != ""
    ensures Tokens(Spaced(words, gaps)) == Ok(words)
  {
    hide Tokens, Line, WordsOf, IsPlain, IsWhitespace;
    var items := SpacedSpells(words, gaps);
    SpelledSplits(items);
  }

  lemma {:induction false} SpacedSpells(words: seq<string>, gaps: seq<string>) returns (items: seq<Item>)
    requires |gaps| == |words| && forall w <- words :: w != "" && forall c <- w :: IsPlain(c)
    requires forall g <- gaps :: forall c <- g :: IsWhitespace(c)
    requires forall i | 0 <= i < |gaps| - 1 :: gaps[i] != ""
    ensures AllFit(items) && Line(items) == Spaced(words, gaps) && WordsOf(items) == words
    ensures words == [] ==> items == []
    decreases |words|
  {
    hide Line, WordsOf, IsPlain, IsWhitespace;
    if words == [] {
      items := [];
      NoWords();
    } else {
      var w := words[0];
      assert w in words && gaps[0] in gaps;
      assert forall v <- words[1..] :: v in words;
      assert forall g <- gaps[1..] :: g in gaps;
      var rest := SpacedSpells(words[1..], gaps[1..]);
      var tail := GapsSpell(gaps[0], rest);
      BaresSpell(w);
      items := Bares(w) + tail;
      LineConcat(Bares(w), tail);
      NoWords();
      WordThenGap(w, tail);
      assert words == [w] + words[1..];
      assert w + gaps[0] + Spaced(words[1..], gaps[1..]) == w + (gaps[0] + Spaced(words[1..], gaps[1..]));
    }
  }

  lemma NoWords()
    ensures Line([]) == "" && WordsOf([]) == []
  {
  }

  /** A word goes before what follows its gap. */
  lemma WordThenGap(w: string, tail: seq<Item>)
    requires w != "" && Text(Bares(w)) == w && (tail == [] || tail[0].Gap?)
    ensures WordsOf(Bares(w) + tail) == [w] + WordsOf(tail)
  {
    hide Text, UpToGap, WordsOf;
    var all := Bares(w) + tail;
    WordsAtGap(all, |w|);
    if tail == [] {
      assert all == Bares(w);
      NoWords();
      assert [w] + [] == [w];
    } else {
      assert all[..|w|] == Bares(w) && all[|w| + 1..] == tail[1..];
      WordsAtGap(tail, 0);
      assert tail[..0] == [];
      NothingSpelled();
      assert WordsOf(tail) == [] + WordsOf(tail[1..]) == WordsOf(tail[1..]);
    }
  }

  /** The characters of the Unicode property White_Space. */
  lemma WhitespaceIs(c: char)
    ensures IsWhitespace(c) <==>
            c as int in {9, 10, 11, 12, 13, 32, 133, 160, 5760, 8192, 8193, 8194, 8195, 8196, 8197, 8198, 8199, 8200,
                         8201, 8202, 8232, 8233, 8239, 8287, 12288}
  {
  }
}
