/**
  Finding the closing parenthesis of a call and cutting its arguments apart, both aware
  of quotes and escapes. Strings are read character by character.
*/
module ArgumentScanner {
  import opened Collections
  import opened Text

  /** Inside a quoted section or not, and whether the next character is escaped. */
  datatype Quotes = Quotes(quote: Option<char>, escaped: bool)

  const Unquoted := Quotes(None, false)

  predicate IsQuote(ch: char) { ch == '\'' || ch == '"' || ch == '`' }

  /** The state after a character, and whether the quotes used it up. */
  function Consume(q: Quotes, ch: char): Quotes
    requires q.quote.Some?
  {
    if q.escaped then q.(escaped := false)
    else if ch == '\\' then q.(escaped := true)
    else if ch == q.quote.value then q.(quote := None)
    else q
  }

  predicate Swallows(q: Quotes, ch: char) { q.quote.Some? || IsQuote(ch) }

  function NextQuotes(q: Quotes, ch: char): Quotes
  {
    if q.quote.Some? then Consume(q, ch) else if IsQuote(ch) then q.(quote := Some(ch)) else q
  }

  class QuoteScanState {
    var quote: Option<char>
    var escaped: bool

    function State(): Quotes
      reads this
    {
      Quotes(quote, escaped)
    }

    constructor ()
      ensures State() == Unquoted
    {
      quote, escaped := None, false;
    }

    method BeginQuotedSection(ch: char) returns (begun: bool)
      modifies this
      ensures begun == IsQuote(ch)
      ensures State() == if begun then old(State()).(quote := Some(ch)) else old(State())
    {
      if ch != '\'' && ch != '"' && ch != '`' {
        return false;
      }
      quote := Some(ch);
      begun := true;
    }

    method ConsumeQuotedChar(ch: char) returns (consumed: bool)
      modifies this
      ensures consumed == old(quote).Some?
      ensures State() == if consumed then Consume(old(State()), ch) else old(State())
    {
      if quote == None {
        return false;
      }
      if escaped {
        escaped := false;
        return true;
      }
      if ch == '\\' {
        escaped := true;
        return true;
      }
      if Some(ch) == quote {
        quote := None;
      }
      consumed := true;
    }

    /** The character belongs to a quoted section, or opens one. */
    method Quoted(ch: char) returns (quoted: bool)
      modifies this
      ensures quoted == Swallows(old(State()), ch)
      ensures State() == NextQuotes(old(State()), ch)
    {
      quoted := ConsumeQuotedChar(ch);
      if !quoted {
        quoted := BeginQuotedSection(ch);
      }
    }
  }

  // ----- cutting arguments -----

  datatype Scan = Scan(quotes: Quotes, paren: nat, bracket: nat, brace: nat)

  const Top := Scan(Unquoted, 0, 0, 0)

  function Lower(depth: nat): nat { if depth > 0 then depth - 1 else depth }

  /** The state after a character that does not separate arguments. */
  function Next(s: Scan, ch: char): Scan
  {
    var quotes := NextQuotes(s.quotes, ch);
    if Swallows(s.quotes, ch) then s.(quotes := quotes)
    else if ch == '(' then s.(paren := s.paren + 1)
    else if ch == ')' then s.(paren := Lower(s.paren))
    else if ch == '[' then s.(bracket := s.bracket + 1)
    else if ch == ']' then s.(bracket := Lower(s.bracket))
    else if ch == '{' then s.(brace := s.brace + 1)
    else if ch == '}' then s.(brace := Lower(s.brace))
    else s
  }

  predicate Separates(s: Scan, ch: char)
  {
    s.quotes.quote.None? && ch == ',' && s.paren == 0 && s.bracket == 0 && s.brace == 0
  }

  /** The state at the end of a piece that starts at the top level. */
  function Walk(piece: string): Scan
  {
    if piece == "" then Top else Next(Walk(piece[..|piece| - 1]), piece[|piece| - 1])
  }

  /** No character of the piece would separate arguments. */
  predicate Whole(piece: string)
  {
    piece == "" || (Whole(piece[..|piece| - 1]) && !Separates(Walk(piece[..|piece| - 1]), piece[|piece| - 1]))
  }

  /** The finished pieces and the one being read, untrimmed. */
  datatype Cutting = Cutting(pieces: seq<string>, current: string)

  function Cut(source: string): Cutting
  {
    if source == "" then Cutting([], "")
    else
      var before, ch := Cut(source[..|source| - 1]), source[|source| - 1];
      if Separates(Walk(before.current), ch) then Cutting(before.pieces + [before.current], "")
      else before.(current := before.current + [ch])
  }

  function TrimAll(pieces: seq<string>): seq<string>
  {
    if pieces == [] then [] else TrimAll(pieces[..|pieces| - 1]) + [Trim(pieces[|pieces| - 1])]
  }

  /** The arguments reported: all pieces trimmed, a blank last one dropped. */
  function Arguments(source: string): seq<string>
  {
    var cut := Cut(source);
    TrimAll(cut.pieces) + if IsBlank(cut.current) then [] else [Trim(cut.current)]
  }

  /** Cutting loses nothing: the pieces joined by commas are the source. */
  lemma {:induction false} CutRejoins(source: string)
    ensures Join(Cut(source).pieces + [Cut(source).current], ',') == source
  {
    if source != "" {
      var before, ch := Cut(source[..|source| - 1]), source[|source| - 1];
      CutRejoins(source[..|source| - 1]);
      var all := before.pieces + [before.current];
      if Separates(Walk(before.current), ch) {
        JoinAppend(all, [""], ',');
      } else {
        JoinSnoc(before.pieces, before.current, ch);
      }
    }
  }

  lemma {:induction false} JoinSnoc(pieces: seq<string>, last: string, ch: char)
    ensures Join(pieces + [last + [ch]], ',') == Join(pieces + [last], ',') + [ch]
  {
    if pieces != [] {
      JoinAppend(pieces, [last], ',');
      JoinAppend(pieces, [last + [ch]], ',');
    } else {
      assert pieces + [last] == [last] && pieces + [last + [ch]] == [last + [ch]];
    }
  }

  /** Pieces that stand for arguments: none holds a separator, and all but the last end at the top level. */
  predicate WellCut(pieces: seq<string>, current: string)
  {
    && Whole(current)
    && forall piece :: piece in pieces ==> Whole(piece) && Walk(piece) == Top
  }

  lemma {:induction false} EscapedOnlyInQuotes(piece: string)
    ensures Walk(piece).quotes.escaped ==> Walk(piece).quotes.quote.Some?
  {
    if piece != "" {
      EscapedOnlyInQuotes(piece[..|piece| - 1]);
    }
  }

  lemma {:induction false} CutIsWellCut(source: string)
    ensures WellCut(Cut(source).pieces, Cut(source).current)
  {
    if source != "" {
      var before, ch := Cut(source[..|source| - 1]), source[|source| - 1];
      CutIsWellCut(source[..|source| - 1]);
      EscapedOnlyInQuotes(before.current);
      var longer := before.current + [ch];
      assert longer[..|longer| - 1] == before.current;
    }
  }

  lemma CutLengthens(source: string, front: string, ch: char, pieces: seq<string>)
    requires Cut(source + front) == Cutting(pieces, front) && !Separates(Walk(front), ch)
    ensures Cut(source + (front + [ch])) == Cutting(pieces, front + [ch])
  {
    assert source + (front + [ch]) == source + front + [ch];
  }

  /** Reading one more whole piece after a cut only lengthens the current piece. */
  lemma {:induction false} CutContinues(source: string, piece: string, pieces: seq<string>)
    requires Cut(source) == Cutting(pieces, "") && Whole(piece)
    ensures Cut(source + piece) == Cutting(pieces, piece)
  {
    if piece == "" {
      assert source + piece == source;
    } else {
      var front, ch := piece[..|piece| - 1], piece[|piece| - 1];
      CutContinues(source, front, pieces);
      CutLengthens(source, front, ch, pieces);
      SplitLast(piece);
    }
  }

  /** Well-cut pieces are found again in their join. */
  lemma {:induction false} CutOfJoin(pieces: seq<string>, current: string)
    requires WellCut(pieces, current)
    ensures Cut(Join(pieces + [current], ',')) == Cutting(pieces, current)
  {
    if pieces == [] {
      assert pieces + [current] == [current];
      CutContinues("", current, []);
      assert "" + current == current;
    } else {
      var front, last := pieces[..|pieces| - 1], pieces[|pieces| - 1];
      assert pieces == front + [last];
      CutOfJoin(front, last);
      var text := Join(pieces, ',');
      CutContinues(text + [','], current, pieces);
      JoinAppend(pieces, [current], ',');
    }
  }

  /** The scanner's pieces are the only well-cut pieces that join to the source. */
  lemma CutIsExact(source: string, pieces: seq<string>, current: string)
    ensures Cut(source) == Cutting(pieces, current) <==>
            Join(pieces + [current], ',') == source && WellCut(pieces, current)
  {
    CutRejoins(source);
    CutIsWellCut(source);
    if Join(pieces + [current], ',') == source && WellCut(pieces, current) {
      CutOfJoin(pieces, current);
    }
  }

  /** The scanner's variables, and one character's effect on them. */
  datatype Splitter = Splitter(out: seq<string>, current: string, scan: Scan)

  function Feed(s: Splitter, ch: char): Splitter
  {
    if Separates(s.scan, ch) then Splitter(s.out + [Trim(s.current)], "", s.scan)
    else s.(current := s.current + [ch], scan := Next(s.scan, ch))
  }

  lemma {:induction false} WalkSnoc(piece: string, ch: char)
    ensures Walk(piece + [ch]) == Next(Walk(piece), ch)
  {
    assert (piece + [ch])[..|piece + [ch]| - 1] == piece;
  }

  lemma {:induction false} TrimAllSnoc(pieces: seq<string>, last: string)
    ensures TrimAll(pieces + [last]) == TrimAll(pieces) + [Trim(last)]
  {
    assert (pieces + [last])[..|pieces + [last]| - 1] == pieces;
  }

  lemma {:induction false} CutSnoc(source: string, ch: char)
    ensures var before := Cut(source);
      Cut(source + [ch]) ==
        if Separates(Walk(before.current), ch) then Cutting(before.pieces + [before.current], "")
        else before.(current := before.current + [ch])
  {
    assert (source + [ch])[..|source + [ch]| - 1] == source;
  }

  /** The scanner's variables after a text, as cutting gives them. */
  function CutState(source: string): Splitter
  {
    var cut := Cut(source);
    Splitter(TrimAll(cut.pieces), cut.current, Walk(cut.current))
  }

  lemma {:induction false} FeedFollows(source: string, ch: char)
    ensures Feed(CutState(source), ch) == CutState(source + [ch])
  {
    var cut := Cut(source);
    CutSnoc(source, ch);
    EscapedOnlyInQuotes(cut.current);
    WalkSnoc(cut.current, ch);
    TrimAllSnoc(cut.pieces, cut.current);
  }

  function FeedAll(source: string): Splitter
  {
    if source == "" then Splitter([], "", Top) else Feed(FeedAll(source[..|source| - 1]), source[|source| - 1])
  }

  lemma {:induction false} FedNext(source: string, i: nat)
    requires i < |source|
    ensures FeedAll(source[..i + 1]) == Feed(FeedAll(source[..i]), source[i])
  {
    assert source[..i + 1][..i] == source[..i];
  }

  /** Feeding the scanner a text character by character cuts it. */
  lemma {:induction false} FeedAllCuts(source: string)
    ensures FeedAll(source) == CutState(source)
  {
    if source != "" {
      FeedAllCuts(source[..|source| - 1]);
      FeedFollows(source[..|source| - 1], source[|source| - 1]);
      SplitLast(source);
    }
  }

  /** The arguments are the pieces finished and the current one, unless nothing is left of it. */
  lemma {:induction false} LastPiece(source: string)
    ensures var s := CutState(source);
      Arguments(source) == if Trim(s.current) != "" then s.out + [Trim(s.current)] else s.out
  {
    var before, after := TrimMeaning(Cut(source).current);
  }

  method CountBrackets(ghost q: Quotes, ch: char, paren: nat, bracket: nat, brace: nat)
      returns (paren': nat, bracket': nat, brace': nat)
    requires !Swallows(q, ch)
    ensures Scan(q, paren', bracket', brace') == Next(Scan(q, paren, bracket, brace), ch)
  {
    paren', bracket', brace' := paren, bracket, brace;
    if ch == '(' {
      paren' := paren + 1;
    } else if ch == ')' {
      if paren > 0 {
        paren' := paren - 1;
      }
    } else if ch == '[' {
      bracket' := bracket + 1;
    } else if ch == ']' {
      if bracket > 0 {
        bracket' := bracket - 1;
      }
    } else if ch == '{' {
      brace' := brace + 1;
    } else if ch == '}' {
      if brace > 0 {
        brace' := brace - 1;
      }
    }
  }

  method SplitTopLevelArguments(source: string) returns (out: seq<string>)
    ensures out == Arguments(source)
  {
    out := [];
    var current := "";
    var parenDepth, bracketDepth, braceDepth: nat := 0, 0, 0;
    var quoteState := new QuoteScanState();
    ghost var state := Splitter([], "", Top);
    for i := 0 to |source|
      invariant fresh(quoteState)
      invariant state == Splitter(out, current, Scan(quoteState.State(), parenDepth, bracketDepth, braceDepth))
      invariant state == FeedAll(source[..i])
    {
      var ch := source[i];
      FedNext(source, i);
      state := Feed(state, ch);
      var quoted := quoteState.Quoted(ch);
      if quoted {
        current := current + [ch];
        continue;
      }
      if ch == ',' && parenDepth == 0 && bracketDepth == 0 && braceDepth == 0 {
        out := out + [Trim(current)];
        current := "";
        continue;
      }
      parenDepth, bracketDepth, braceDepth :=
        CountBrackets(quoteState.State(), ch, parenDepth, bracketDepth, braceDepth);
      current := current + [ch];
    }
    assert source[..|source|] == source;
    FeedAllCuts(source);
    LastPiece(source);
    if Trim(current) != "" {
      out := out + [Trim(current)];
    }
  }

  // ----- the matching parenthesis -----

  /** Quotes and parenthesis depth; the depth may fall below zero. */
  datatype Nesting = Nesting(quotes: Quotes, depth: int)

  function NextNesting(n: Nesting, ch: char): Nesting
  {
    if Swallows(n.quotes, ch) then n.(quotes := NextQuotes(n.quotes, ch))
    else if ch == '(' then n.(depth := n.depth + 1)
    else if ch == ')' then n.(depth := n.depth - 1)
    else n
  }

  function Nest(start: Nesting, text: string): Nesting
  {
    if text == "" then start else NextNesting(Nest(start, text[..|text| - 1]), text[|text| - 1])
  }

  /** Position i of the text holds a parenthesis that closes the depth it was started with. */
  predicate ClosesAt(text: string, i: nat)
    requires i < |text|
  {
    Nest(Nesting(Unquoted, 1), text[..i + 1]).depth == 0
  }

  /** Where the text, read after an opening parenthesis, first closes it. */
  ghost predicate FirstClose(text: string, i: nat)
  {
    i < |text| && ClosesAt(text, i) && forall k :: 0 <= k < i ==> !ClosesAt(text, k)
  }

  lemma NestStep(start: Nesting, text: string, i: nat)
    requires i < |text|
    ensures Nest(start, text[..i + 1]) == NextNesting(Nest(start, text[..i]), text[i])
  {
    assert text[..i + 1][..i] == text[..i];
  }

  method FindMatchingParen(source: string, openIndex: nat) returns (found: int)
    requires openIndex < |source|
    ensures var text := source[openIndex + 1..];
      if found >= 0 then found > openIndex && FirstClose(text, found - openIndex - 1)
      else found == -1 && forall k :: 0 <= k < |text| ==> !ClosesAt(text, k)
  {
    var depth: int := 1;
    var quoteState := new QuoteScanState();
    ghost var text := source[openIndex + 1..];
    for i := openIndex + 1 to |source|
      invariant fresh(quoteState)
      invariant Nesting(quoteState.State(), depth) == Nest(Nesting(Unquoted, 1), text[..i - openIndex - 1])
      invariant depth != 0
      invariant forall k :: 0 <= k < i - openIndex - 1 ==> !ClosesAt(text, k)
    {
      var ch := source[i];
      NestStep(Nesting(Unquoted, 1), text, i - openIndex - 1);
      var quoted := quoteState.Quoted(ch);
      if quoted {
        continue;
      }
      if ch == '(' {
        depth := depth + 1;
        continue;
      }
      if ch == ')' {
        depth := depth - 1;
        if depth == 0 {
          return i;
        }
      }
    }
    found := -1;
  }

  // ----- printing a call and reading it back -----

  const Outside := Nesting(Unquoted, 0)

  /** Quotes and parentheses are closed at the end, and no prefix closes one it did not open. */
  ghost predicate Balanced(text: string)
  {
    && Nest(Outside, text) == Outside
    && forall k :: 0 <= k <= |text| ==> Nest(Outside, text[..k]).depth >= 0
  }

  /** What can be printed as one argument of a call. */
  ghost predicate Argument(text: string)
  {
    Balanced(text) && Whole(text) && Walk(text) == Top
  }

  lemma {:induction false} NestAppend(start: Nesting, a: string, b: string)
    ensures Nest(start, a + b) == Nest(Nest(start, a), b)
  {
    if b == "" {
      assert a + b == a;
    } else {
      NestAppend(start, a, b[..|b| - 1]);
      assert (a + b)[..|a + b| - 1] == a + b[..|b| - 1];
    }
  }

  lemma {:induction false} NestShift(start: Nesting, shift: int, text: string)
    ensures Nest(start.(depth := start.depth + shift), text) ==
            Nest(start, text).(depth := Nest(start, text).depth + shift)
  {
    if text != "" {
      NestShift(start, shift, text[..|text| - 1]);
    }
  }

  lemma BalancedJoin(a: string, b: string)
    requires Balanced(a) && Balanced(b)
    ensures Balanced(a + "," + b)
  {
    var text, front := a + "," + b, a + ",";
    NestAppend(Outside, a, ",");
    assert Nest(Outside, ",") == NextNesting(Nest(Outside, ""), ',') == Outside by {
      assert ","[..0] == "";
    }
    NestAppend(Outside, front, b);
    forall k | 0 <= k <= |text| ensures Nest(Outside, text[..k]).depth >= 0 {
      if k <= |a| {
        assert text[..k] == a[..k];
      } else {
        assert text[..k] == front + b[..k - |front|];
        NestAppend(Outside, front, b[..k - |front|]);
      }
    }
  }

  lemma {:induction false} ArgumentsAreBalanced(args: seq<string>)
    requires |args| > 0 && forall arg :: arg in args ==> Argument(arg)
    ensures Balanced(Join(args, ','))
  {
    assert args[0] in args;
    if |args| > 1 {
      ArgumentsAreBalanced(args[1..]);
      BalancedJoin(args[0], Join(args[1..], ','));
      assert args[0] + [','] == args[0] + ",";
    }
  }

  /** A balanced text followed by a closing parenthesis is closed there and not before. */
  lemma BalancedCloses(body: string, rest: string)
    requires Balanced(body)
    ensures FirstClose(body + ")" + rest, |body|)
  {
    var text, inside := body + ")" + rest, Nesting(Unquoted, 1);
    forall k | 0 <= k < |body| ensures !ClosesAt(text, k) {
      assert text[..k + 1] == body[..k + 1];
      NestShift(Outside, 1, body[..k + 1]);
    }
    assert text[..|body|] == body;
    NestShift(Outside, 1, body);
    NestStep(inside, text, |body|);
  }

  /** Well-cut pieces, the last one not blank, joined by commas are cut apart again, trimmed. */
  lemma {:induction false} SplitUndoesJoin(args: seq<string>)
    requires |args| > 0 && !IsBlank(args[|args| - 1])
    requires WellCut(args[..|args| - 1], args[|args| - 1])
    ensures Arguments(Join(args, ',')) == TrimAll(args)
  {
    var front, last := args[..|args| - 1], args[|args| - 1];
    SplitLast(args);
    CutOfJoin(front, last);
    LastArgument(Join(args, ','), front, last);
  }

  /** A blank piece behind the last comma is no argument; blank ones before it are. */
  lemma {:induction false} BlankLastIsDropped(args: seq<string>, blank: string)
    requires |args| > 0 && IsBlank(blank) && WellCut(args, blank)
    ensures Arguments(Join(args, ',') + "," + blank) == TrimAll(args)
  {
    CutOfJoin(args, blank);
    JoinAppend(args, [blank], ',');
    assert Join(args, ',') + [','] + Join([blank], ',') == Join(args, ',') + "," + blank;
  }

  lemma LastArgument(source: string, pieces: seq<string>, current: string)
    requires Cut(source) == Cutting(pieces, current) && !IsBlank(current)
    ensures Arguments(source) == TrimAll(pieces + [current])
  {
    var all := pieces + [current];
    assert all[..|all| - 1] == pieces;
  }

  lemma ArgumentsAreWellCut(args: seq<string>)
    requires |args| > 0 && forall arg :: arg in args ==> Argument(arg)
    ensures WellCut(args[..|args| - 1], args[|args| - 1])
  {
    var front, last := args[..|args| - 1], args[|args| - 1];
    assert last in args;
    forall piece | piece in front ensures Whole(piece) && Walk(piece) == Top {
      assert piece in args;
    }
  }

  /** A call with this text between its parentheses. */
  function Call(prefix: string, body: string, rest: string): string
  {
    prefix + "(" + body + ")" + rest
  }

  lemma BodyIsFound(prefix: string, body: string, rest: string)
    requires Balanced(body)
    ensures |Call(prefix, body, rest)| >= |prefix| + 2 + |body|
    ensures FirstClose(Call(prefix, body, rest)[|prefix| + 1..], |body|)
    ensures Call(prefix, body, rest)[|prefix| + 1..|prefix| + 1 + |body|] == body
  {
    BalancedCloses(body, rest);
    assert Call(prefix, body, rest)[|prefix| + 1..] == body + ")" + rest;
  }

  /** Wherever a printed call stands, the scanner finds its parenthesis and gives its arguments back. */
  lemma CallReadsBack(prefix: string, args: seq<string>, rest: string)
    requires |args| > 0 && !IsBlank(args[|args| - 1])
    requires forall arg :: arg in args ==> Argument(arg)
    ensures var body := Join(args, ',');
      var source := Call(prefix, body, rest);
      var close := |prefix| + 1 + |body|;
      && close < |source|
      && FirstClose(source[|prefix| + 1..], |body|)
      && source[|prefix| + 1..close] == body
      && Arguments(body) == TrimAll(args)
  {
    ArgumentsAreBalanced(args);
    BodyIsFound(prefix, Join(args, ','), rest);
    ArgumentsAreWellCut(args);
    SplitUndoesJoin(args);
  }
}
