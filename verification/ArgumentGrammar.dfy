/**
  A grammar of call arguments, with the characters that quote, escape and nest written
  out: what is printed from it is cut at exactly its own commas and closed where it ends.
*/
module ArgumentGrammar {
  import opened Collections
  import opened Text
  import opened ArgumentScanner

  /** A character, a quoted text, or a bracketed group of tokens. */
  datatype Token =
    | Plain(ch: char)
    | Quoted(mark: char, body: string)
    | Group(open: char, inner: seq<Token>, close: char)

  const QUOTE_MARKS := "'\"`"
  const BRACKETS := "()[]{}"

  /** What may stand between two marks: a backslash takes the next character with it, and no mark stands free. */
  predicate Enclosed(body: string, mark: char)
  {
    if body == "" then true
    else if body[0] == '\\' then |body| >= 2 && Enclosed(body[2..], mark)
    else body[0] != mark && Enclosed(body[1..], mark)
  }

  predicate IsPair(open: char, close: char)
  {
    (open == '(' && close == ')') || (open == '[' && close == ']') || (open == '{' && close == '}')
  }

  /** Marks and brackets only where they quote and nest; commas anywhere in it. */
  predicate WellFormed(tokens: seq<Token>)
  {
    forall token :: token in tokens ==> IsWellFormed(token)
  }

  predicate IsWellFormed(token: Token)
  {
    match token
    case Plain(ch) => ch !in QUOTE_MARKS && ch !in BRACKETS
    case Quoted(mark, body) => mark in QUOTE_MARKS && Enclosed(body, mark)
    case Group(open, inner, close) => IsPair(open, close) && forall token :: token in inner ==> IsWellFormed(token)
  }

  /** One argument: no comma of its own. */
  predicate IsArgument(tokens: seq<Token>)
  {
    WellFormed(tokens) && Plain(',') !in tokens
  }

  function Show(tokens: seq<Token>): string
  {
    if tokens == [] then "" else ShowToken(tokens[0]) + Show(tokens[1..])
  }

  function ShowToken(token: Token): string
  {
    match token
    case Plain(ch) => [ch]
    case Quoted(mark, body) => [mark] + body + [mark]
    case Group(open, inner, close) => [open] + Show(inner) + [close]
  }

  function ShowAll(args: seq<seq<Token>>): (shown: seq<string>)
    ensures |shown| == |args|
  {
    seq(|args|, i requires 0 <= i < |args| => Show(args[i]))
  }

  // ----- reading a text from any state -----

  function ReadOn(s: Scan, text: string): Scan
    decreases text
  {
    if text == "" then s else ReadOn(Next(s, text[0]), text[1..])
  }

  /** Nothing in the text separates arguments. */
  predicate Quiet(s: Scan, text: string)
    decreases text
  {
    text == "" || (!Separates(s, text[0]) && Quiet(Next(s, text[0]), text[1..]))
  }

  /** The text is read over: nothing in it separates, and the state is as before. */
  predicate ReadOver(s: Scan, text: string)
  {
    Quiet(s, text) && ReadOn(s, text) == s
  }

  lemma {:induction false} ReadAppend(s: Scan, a: string, b: string)
    ensures ReadOn(s, a + b) == ReadOn(ReadOn(s, a), b)
    ensures Quiet(s, a + b) <==> Quiet(s, a) && Quiet(ReadOn(s, a), b)
    decreases a
  {
    if a == "" {
      assert a + b == b;
    } else {
      ReadAppend(Next(s, a[0]), a[1..], b);
      assert (a + b)[1..] == a[1..] + b;
    }
  }

  lemma {:induction false} WalkIsRead(text: string)
    ensures Walk(text) == ReadOn(Top, text)
    ensures Whole(text) <==> Quiet(Top, text)
  {
    if text != "" {
      var front, last := text[..|text| - 1], text[|text| - 1];
      WalkIsRead(front);
      ReadAppend(Top, front, [last]);
      SplitLast(text);
      assert [last][1..] == "";
      assert ReadOn(Walk(front), [last]) == Next(Walk(front), last);
    }
  }

  /** Inside quotes, up to the closing mark. */
  lemma {:induction false} BodyIsReadOver(s: Scan, mark: char, body: string)
    requires mark in QUOTE_MARKS && Enclosed(body, mark) && s.quotes == Quotes(Some(mark), false)
    ensures ReadOver(s, body)
  {
    if body != "" {
      if body[0] == '\\' {
        BodyIsReadOver(s, mark, body[2..]);
        assert body == [body[0], body[1]] + body[2..];
        assert [body[0], body[1]][1..] == [body[1]] && [body[1]][1..] == "";
        ReadAppend(s, [body[0], body[1]], body[2..]);
      } else {
        BodyIsReadOver(s, mark, body[1..]);
      }
    }
  }

  lemma {:induction false} OneCharacter(s: Scan, ch: char)
    ensures ReadOn(s, [ch]) == Next(s, ch)
    ensures Quiet(s, [ch]) <==> !Separates(s, ch)
  {
    assert [ch][1..] == "";
  }

  lemma {:induction false} ThreePartsAreRead(s: Scan, open: char, body: string, close: char)
    requires ReadOver(Next(s, open), body) && !Separates(s, open) && !Separates(Next(s, open), close)
    ensures ReadOn(s, [open] + body + [close]) == Next(Next(s, open), close)
    ensures Quiet(s, [open] + body + [close])
  {
    ReadAppend(s, [open] + body, [close]);
    ReadAppend(s, [open], body);
    OneCharacter(s, open);
    OneCharacter(Next(s, open), close);
  }

  /** Not in quotes; a comma of its own is read over only inside brackets. */
  predicate Reads(s: Scan, tokens: seq<Token>)
  {
    s.quotes == Unquoted && (s.paren + s.bracket + s.brace > 0 || Plain(',') !in tokens)
  }

  /** Well-formed tokens are read over: what they open they close, and no comma in them separates. */
  lemma {:induction false} TokensAreReadOver(s: Scan, tokens: seq<Token>)
    requires WellFormed(tokens) && Reads(s, tokens)
    ensures ReadOver(s, Show(tokens))
    decreases tokens
  {
    if tokens != [] {
      assert tokens[0] in tokens && forall token :: token in tokens[1..] ==> token in tokens;
      TokenIsReadOver(s, tokens[0]);
      TokensAreReadOver(s, tokens[1..]);
      ReadAppend(s, ShowToken(tokens[0]), Show(tokens[1..]));
    }
  }

  lemma {:induction false} TokenIsReadOver(s: Scan, token: Token)
    requires IsWellFormed(token) && Reads(s, [token])
    ensures ReadOver(s, ShowToken(token))
    decreases token
  {
    match token
    case Plain(ch) =>
      assert [token][0] == token;
      OneCharacter(s, ch);
    case Quoted(mark, body) =>
      BodyIsReadOver(Next(s, mark), mark, body);
      ThreePartsAreRead(s, mark, body, mark);
    case Group(open, inner, close) =>
      TokensAreReadOver(Next(s, open), inner);
      ThreePartsAreRead(s, open, Show(inner), close);
  }

  lemma ShownIsWhole(tokens: seq<Token>)
    requires IsArgument(tokens)
    ensures Whole(Show(tokens)) && Walk(Show(tokens)) == Top
  {
    WalkIsRead(Show(tokens));
    TokensAreReadOver(Top, tokens);
  }

  /** The commas between arguments cut, all of them, and nothing else does. */
  lemma CutAtOwnCommas(args: seq<seq<Token>>)
    requires |args| > 0 && forall arg :: arg in args ==> IsArgument(arg)
    ensures var (shown, n) := (ShowAll(args), |args| - 1);
      Cut(Join(shown, ',')) == Cutting(shown[..n], shown[n])
  {
    var shown, n := ShowAll(args), |args| - 1;
    forall i | 0 <= i < |shown| ensures Whole(shown[i]) && Walk(shown[i]) == Top {
      assert args[i] in args;
      ShownIsWhole(args[i]);
    }
    SplitLast(shown);
    CutOfJoin(shown[..n], shown[n]);
  }

  // ----- the parentheses -----

  /** The text leaves quotes and depth as they were, and on the way the depth never falls below. */
  ghost predicate Level(n: Nesting, text: string)
  {
    Nest(n, text) == n && forall k :: 0 <= k <= |text| ==> Nest(n, text[..k]).depth >= n.depth
  }

  lemma LevelAppend(n: Nesting, a: string, b: string)
    requires Level(n, a) && Level(n, b)
    ensures Level(n, a + b)
  {
    NestAppend(n, a, b);
    forall k | 0 <= k <= |a + b| ensures Nest(n, (a + b)[..k]).depth >= n.depth {
      if k <= |a| {
        assert (a + b)[..k] == a[..k];
      } else {
        assert (a + b)[..k] == a + b[..k - |a|];
        NestAppend(n, a, b[..k - |a|]);
      }
    }
  }

  lemma {:induction false} NestOne(n: Nesting, ch: char)
    ensures Nest(n, [ch]) == NextNesting(n, ch)
  {
    assert [ch][..0] == "";
  }

  /** Between a character and one that undoes it. */
  lemma {:induction false} LevelBetween(n: Nesting, open: char, body: string, close: char)
    requires Level(NextNesting(n, open), body) && NextNesting(n, open).depth >= n.depth
    requires NextNesting(NextNesting(n, open), close) == n
    ensures Level(n, [open] + body + [close])
  {
    var inside, text := NextNesting(n, open), [open] + body + [close];
    NestOne(n, open);
    NestOne(inside, close);
    NestAppend(n, [open], body);
    NestAppend(n, [open] + body, [close]);
    forall k | 0 <= k <= |text| ensures Nest(n, text[..k]).depth >= n.depth {
      if k == 0 {
      } else if k <= |body| + 1 {
        assert text[..k] == [open] + body[..k - 1];
        NestAppend(n, [open], body[..k - 1]);
      } else {
        assert text[..k] == text;
      }
    }
  }

  lemma {:induction false} BodyIsLevel(n: Nesting, mark: char, body: string)
    requires mark in QUOTE_MARKS && Enclosed(body, mark) && n.quotes == Quotes(Some(mark), false)
    ensures Level(n, body)
  {
    if body != "" {
      if body[0] == '\\' {
        BodyIsLevel(n, mark, body[2..]);
        assert body == [body[0]] + "" + [body[1]] + body[2..];
        LevelBetween(n, body[0], "", body[1]);
        LevelAppend(n, [body[0]] + "" + [body[1]], body[2..]);
      } else {
        BodyIsLevel(n, mark, body[1..]);
        NestOne(n, body[0]);
        assert body == [body[0]] + body[1..];
        OneIsLevel(n, body[0]);
        LevelAppend(n, [body[0]], body[1..]);
      }
    }
  }

  lemma OneIsLevel(n: Nesting, ch: char)
    requires NextNesting(n, ch) == n
    ensures Level(n, [ch])
  {
    NestOne(n, ch);
    assert forall k :: 0 <= k <= 1 ==> [ch][..k] == "" || [ch][..k] == [ch];
  }

  lemma {:induction false} TokensAreLevel(n: Nesting, tokens: seq<Token>)
    requires WellFormed(tokens) && n.quotes == Unquoted
    ensures Level(n, Show(tokens))
    decreases tokens
  {
    if tokens != [] {
      assert tokens[0] in tokens && forall token :: token in tokens[1..] ==> token in tokens;
      TokenIsLevel(n, tokens[0]);
      TokensAreLevel(n, tokens[1..]);
      LevelAppend(n, ShowToken(tokens[0]), Show(tokens[1..]));
    }
  }

  lemma {:induction false} TokenIsLevel(n: Nesting, token: Token)
    requires IsWellFormed(token) && n.quotes == Unquoted
    ensures Level(n, ShowToken(token))
    decreases token
  {
    match token
    case Plain(ch) => OneIsLevel(n, ch);
    case Quoted(mark, body) =>
      BodyIsLevel(NextNesting(n, mark), mark, body);
      LevelBetween(n, mark, body, mark);
    case Group(open, inner, close) =>
      TokensAreLevel(NextNesting(n, open), inner);
      LevelBetween(n, open, Show(inner), close);
  }

  /** What the grammar calls an argument can stand in a call. */
  lemma ShownIsArgument(tokens: seq<Token>)
    requires IsArgument(tokens)
    ensures Argument(Show(tokens))
  {
    ShownIsWhole(tokens);
    TokensAreLevel(Outside, tokens);
  }

  /** A call printed from the grammar: its parenthesis is found, and its arguments come back trimmed. */
  lemma ShownCallReadsBack(prefix: string, args: seq<seq<Token>>, rest: string)
    requires |args| > 0 && forall arg :: arg in args ==> IsArgument(arg)
    requires !IsBlank(Show(args[|args| - 1]))
    ensures var body := Join(ShowAll(args), ',');
      && FirstClose(Call(prefix, body, rest)[|prefix| + 1..], |body|)
      && Arguments(body) == TrimAll(ShowAll(args))
  {
    var shown := ShowAll(args);
    forall arg | arg in shown ensures Argument(arg) {
      var i :| 0 <= i < |shown| && shown[i] == arg;
      assert args[i] in args;
      ShownIsArgument(args[i]);
    }
    CallReadsBack(prefix, shown, rest);
  }

  /** Whatever stands between two equal marks, commas and brackets too, is one argument. */
  lemma QuotedIsOneArgument(mark: char, body: string)
    requires mark == '\'' || mark == '"' || mark == '`'
    requires mark !in body && '\\' !in body
    ensures Argument([mark] + body + [mark])
    ensures Arguments([mark] + body + [mark]) == [[mark] + body + [mark]]
  {
    var text := [mark] + body + [mark];
    PlainBodyIsEnclosed(body, mark);
    var tokens := [Quoted(mark, body)];
    assert tokens[1..] == [] && Show(tokens) == text;
    ShownIsArgument(tokens);
    OneArgument(text);
  }

  /** A text that can stand in a call and has no white space around it is its own only argument. */
  lemma OneArgument(text: string)
    requires Argument(text) && text != "" && !IsSpace(text[0]) && !IsSpace(text[|text| - 1])
    ensures Arguments(text) == [text]
  {
    assert [text][..0] == [];
    assert text[0] in text;
    SplitUndoesJoin([text]);
    assert Trim(text) == text;
  }

  lemma {:induction false} PlainBodyIsEnclosed(body: string, mark: char)
    requires mark !in body && '\\' !in body
    ensures Enclosed(body, mark)
  {
    if body != "" {
      assert body[0] in body;
      PlainBodyIsEnclosed(body[1..], mark);
    }
  }
}
