/** Escaping text for HTML and marking inline code between backticks. */
module InlineMarkup {
  import opened Collections
  import opened Text

  // ----- escaping -----

  function EscapeChar(c: char): string
  {
    if c == '&' then "&amp;"
    else if c == '<' then "&lt;"
    else if c == '>' then "&gt;"
    else if c == '"' then "&quot;"
    else [c]
  }

  function Escape(s: string): string
  {
    if s == "" then "" else EscapeChar(s[0]) + Escape(s[1..])
  }

  function Unescape(s: string): string
  {
    if s == "" then ""
    else if "&amp;" <= s then "&" + Unescape(s[5..])
    else if "&lt;" <= s then "<" + Unescape(s[4..])
    else if "&gt;" <= s then ">" + Unescape(s[4..])
    else if "&quot;" <= s then "\"" + Unescape(s[6..])
    else [s[0]] + Unescape(s[1..])
  }

  /** Unescaping undoes escaping. */
  lemma {:induction false} UnescapeUndoesEscape(s: string)
    ensures Unescape(Escape(s)) == s
  {
    if s != "" {
      var rest := Escape(s[1..]);
      UnescapeUndoesEscape(s[1..]);
      UnescapeStep(s[0], rest);
    }
  }

  lemma UnescapeStep(c: char, rest: string)
    ensures Unescape(EscapeChar(c) + rest) == [c] + Unescape(rest)
  {
    var s := EscapeChar(c) + rest;
    assert s[0] == EscapeChar(c)[0];
    assert s[|EscapeChar(c)|..] == rest;
    if c == '<' || c == '>' {
      assert s[1] == EscapeChar(c)[1];
    } else if c == '"' {
      assert s[1] == 'q';
    }
  }

  lemma {:induction false} EscapeHasNoTags(s: string)
    ensures '<' !in Escape(s) && '>' !in Escape(s) && '"' !in Escape(s)
  {
    if s != "" {
      EscapeHasNoTags(s[1..]);
    }
  }

  method HtmlEscaped(value: string) returns (escaped: string)
    ensures escaped == Escape(value)
  {
    escaped := "";
    for i := 0 to |value|
      invariant escaped + Escape(value[i..]) == Escape(value)
    {
      assert value[i..][0] == value[i] && value[i..][1..] == value[i + 1..];
      ConcatenationAssociates(escaped, EscapeChar(value[i]), Escape(value[i + 1..]));
      escaped := escaped + EscapeChar(value[i]);
    }
  }

  // ----- inline code -----

  /** Every other piece between backticks is marked as code. */
  function MarkPieces(pieces: seq<string>, code: bool): string
  {
    if pieces == [] then ""
    else (if code then "<code>" + pieces[0] + "</code>" else pieces[0]) + MarkPieces(pieces[1..], !code)
  }

  function RenderInline(value: string): string
  {
    var pieces := Split(Escape(value), '`');
    if |pieces| > 1 then MarkPieces(pieces, false) else Escape(value)
  }

  /** What is left of HTML without its tags. */
  function StripTags(html: string, inTag: bool): string
  {
    if html == "" then ""
    else if inTag then StripTags(html[1..], html[0] != '>')
    else if html[0] == '<' then StripTags(html[1..], true)
    else [html[0]] + StripTags(html[1..], false)
  }

  /** Tags are opened and closed in turn, and none is left open. */
  function OpenCode(html: string, open: bool): Option<bool>
  {
    if html == "" then Some(open)
    else if "<code>" <= html then if open then None else OpenCode(html[6..], true)
    else if "</code>" <= html then if open then OpenCode(html[7..], false) else None
    else OpenCode(html[1..], open)
  }

  function Without(s: string, c: char): string
  {
    if s == "" then "" else if s[0] == c then Without(s[1..], c) else [s[0]] + Without(s[1..], c)
  }

  lemma {:induction false} StripPlain(text: string, rest: string)
    requires '<' !in text
    ensures StripTags(text + rest, false) == text + StripTags(rest, false)
  {
    if text == "" {
      assert text + rest == rest;
    } else {
      assert (text + rest)[1..] == text[1..] + rest;
      StripPlain(text[1..], rest);
    }
  }

  lemma {:induction false} StripTag(name: string, rest: string)
    requires '>' !in name
    ensures StripTags(name + ">" + rest, true) == StripTags(rest, false)
  {
    var all := name + ">" + rest;
    if name == "" {
      assert all[1..] == rest;
    } else {
      assert all[1..] == name[1..] + ">" + rest;
      StripTag(name[1..], rest);
    }
  }

  lemma StripMarked(name: string, rest: string)
    requires '>' !in name
    ensures StripTags("<" + name + ">" + rest, false) == StripTags(rest, false)
  {
    assert ("<" + name + ">" + rest)[1..] == name + ">" + rest;
    StripTag(name, rest);
  }

  lemma CodeTags()
    ensures "<code>" == "<" + "code" + ">" && "</code>" == "<" + "/code" + ">"
  {
  }

  lemma MarkFirst(first: string, code: bool, rest: string)
    requires '<' !in first
    ensures StripTags((if code then "<code>" + first + "</code>" else first) + rest, false)
            == first + StripTags(rest, false)
  {
    if code {
      StripMarked("/code", rest);
      StripPlain(first, "</code>" + rest);
      StripMarked("code", first + ("</code>" + rest));
      CodeTags();
      assert "<code>" + first + "</code>" + rest == "<" + "code" + ">" + (first + ("</code>" + rest));
    } else {
      StripPlain(first, rest);
    }
  }

  /** The text of the pieces survives, in order, whichever of them are code. */
  lemma {:induction false} StripPieces(pieces: seq<string>, code: bool, after: string)
    requires forall piece :: piece in pieces ==> '<' !in piece
    ensures StripTags(MarkPieces(pieces, code) + after, false) == Concat(pieces) + StripTags(after, false)
  {
    if pieces == [] {
      assert "" + after == after;
    } else {
      var rest := MarkPieces(pieces[1..], !code);
      assert pieces[0] in pieces;
      StripPieces(pieces[1..], !code, after);
      MarkFirst(pieces[0], code, rest + after);
      var first := if code then "<code>" + pieces[0] + "</code>" else pieces[0];
      ConcatenationAssociates(first, rest, after);
      ConcatenationAssociates(pieces[0], Concat(pieces[1..]), StripTags(after, false));
    }
  }

  lemma {:induction false} ConcatSplit(s: string, c: char)
    ensures Concat(Split(s, c)) == Without(s, c)
  {
    if s != "" {
      ConcatSplit(s[1..], c);
      var rest := Split(s[1..], c);
      if s[0] == c {
        assert ([""] + rest)[1..] == rest;
      } else {
        var parts := [[s[0]] + rest[0]] + rest[1..];
        assert parts[1..] == rest[1..];
      }
    } else {
      assert Concat([""]) == "" + Concat([""][1..]);
      assert [""][1..] == [];
    }
  }

  lemma {:induction false} SplitKeepsOut(s: string, c: char, other: char)
    requires other !in s
    ensures forall part :: part in Split(s, c) ==> other !in part
  {
    if s != "" {
      SplitKeepsOut(s[1..], c, other);
    }
  }

  lemma {:induction false} WithoutAppend(a: string, b: string, c: char)
    ensures Without(a + b, c) == Without(a, c) + Without(b, c)
  {
    if a == "" {
      assert a + b == b;
    } else {
      assert (a + b)[1..] == a[1..] + b;
      WithoutAppend(a[1..], b, c);
    }
  }

  lemma {:induction false} WithoutNothing(s: string, c: char)
    requires c !in s
    ensures Without(s, c) == s
  {
    if s != "" {
      WithoutNothing(s[1..], c);
    }
  }

  lemma WithoutEntity(c: char)
    ensures Without(EscapeChar(c), '`') == if c == '`' then "" else EscapeChar(c)
  {
    if c != '`' {
      WithoutNothing(EscapeChar(c), '`');
    }
  }

  lemma {:induction false} EscapeWithout(s: string)
    ensures Without(Escape(s), '`') == Escape(Without(s, '`'))
  {
    if s != "" {
      EscapeWithout(s[1..]);
      WithoutAppend(EscapeChar(s[0]), Escape(s[1..]), '`');
      WithoutEntity(s[0]);
      assert ([s[0]] + Without(s[1..], '`'))[1..] == Without(s[1..], '`');
    }
  }

  // ----- what a reader sees -----

  /** The text of HTML that starts outside tags: without its tags, and unescaped. */
  function Seen(html: string): string
  {
    Unescape(StripTags(html, false))
  }

  lemma {:induction false} UnescapeEscaped(text: string, rest: string)
    ensures Unescape(Escape(text) + rest) == text + Unescape(rest)
  {
    if text == "" {
      assert "" + rest == rest;
    } else {
      UnescapeEscaped(text[1..], rest);
      UnescapeFirst(text[0], Escape(text[1..]), rest);
      ConcatenationAssociates([text[0]], text[1..], Unescape(rest));
      assert [text[0]] + text[1..] == text;
    }
  }

  lemma {:induction false} UnescapeFirst(c: char, escaped: string, rest: string)
    ensures Unescape(EscapeChar(c) + escaped + rest) == [c] + Unescape(escaped + rest)
  {
    ConcatenationAssociates(EscapeChar(c), escaped, rest);
    UnescapeStep(c, escaped + rest);
  }

  lemma {:induction false} SeenEscaped(text: string, rest: string)
    ensures Seen(Escape(text) + rest) == text + Seen(rest)
  {
    EscapeHasNoTags(text);
    StripPlain(Escape(text), rest);
    UnescapeEscaped(text, StripTags(rest, false));
  }

  lemma {:induction false} SeenTag(name: string, rest: string)
    requires '>' !in name
    ensures Seen("<" + name + ">" + rest) == Seen(rest)
  {
    StripMarked(name, rest);
  }

  /** Inline markup reads as the source without its backticks. */
  lemma {:induction false} SeenInline(value: string, rest: string)
    ensures Seen(RenderInline(value) + rest) == Without(value, '`') + Seen(rest)
  {
    var escaped := Escape(value);
    EscapeHasNoTags(value);
    SplitKeepsOut(escaped, '`', '<');
    ConcatSplit(escaped, '`');
    EscapeWithout(value);
    InlineIsMarked(value);
    StripPieces(Split(escaped, '`'), false, rest);
    UnescapeEscaped(Without(value, '`'), StripTags(rest, false));
  }

  /** The text of inline markup, as a browser shows it, is the source without its backticks. */
  lemma {:induction false} InlineKeepsText(value: string)
    ensures Seen(RenderInline(value)) == Without(value, '`')
  {
    SeenInline(value, "");
    assert RenderInline(value) + "" == RenderInline(value);
  }

  lemma {:induction false} OpenPlain(text: string, rest: string, open: bool)
    requires '<' !in text
    ensures OpenCode(text + rest, open) == OpenCode(rest, open)
  {
    if text == "" {
      assert text + rest == rest;
    } else {
      assert (text + rest)[0] == text[0] && (text + rest)[1..] == text[1..] + rest;
      assert "<code>"[0] == '<' && "</code>"[0] == '<';
      OpenPlain(text[1..], rest, open);
    }
  }

  lemma OpenTag(rest: string, open: bool)
    ensures OpenCode("<code>" + rest, false) == OpenCode(rest, true)
    ensures OpenCode("</code>" + rest, true) == OpenCode(rest, false)
  {
    assert ("<code>" + rest)[6..] == rest;
    assert ("</code>" + rest)[7..] == rest;
    assert ("</code>" + rest)[1] == '/';
  }

  lemma {:induction false} CodePieceIsBalanced(piece: string, rest: string)
    requires '<' !in piece
    ensures OpenCode("<code>" + piece + "</code>" + rest, false) == OpenCode(rest, false)
  {
    OpenTag(piece + ("</code>" + rest), false);
    OpenPlain(piece, "</code>" + rest, true);
    OpenTag(rest, true);
    ConcatenationAssociates("<code>" + piece, "</code>", rest);
    ConcatenationAssociates("<code>", piece, "</code>" + rest);
  }

  lemma {:induction false} PiecesAreBalanced(pieces: seq<string>, code: bool)
    requires forall piece :: piece in pieces ==> '<' !in piece
    ensures OpenCode(MarkPieces(pieces, code), false) == Some(false)
  {
    if pieces != [] {
      assert pieces[0] in pieces;
      PiecesAreBalanced(pieces[1..], !code);
      if code {
        CodePieceIsBalanced(pieces[0], MarkPieces(pieces[1..], !code));
      } else {
        OpenPlain(pieces[0], MarkPieces(pieces[1..], !code), false);
      }
    }
  }

  /** However many backticks there are, code tags are opened and closed in turn. */
  lemma InlineTagsAreBalanced(value: string)
    ensures OpenCode(RenderInline(value), false) == Some(false)
  {
    var escaped := Escape(value);
    EscapeHasNoTags(value);
    SplitKeepsOut(escaped, '`', '<');
    PiecesAreBalanced(Split(escaped, '`'), false);
    OpenPlain(escaped, "", false);
    assert escaped + "" == escaped;
  }

  // ----- which texts render alike -----

  function Count(s: string, c: char): nat
  {
    if s == "" then 0 else (if s[0] == c then 1 else 0) + Count(s[1..], c)
  }

  /** The text with its last backtick closed. */
  function Closed(s: string): string
  {
    if Count(s, '`') % 2 == 0 then s else s + "`"
  }

  lemma {:induction false} SplitCount(s: string, c: char)
    ensures |Split(s, c)| == Count(s, c) + 1
  {
    if s != "" {
      SplitCount(s[1..], c);
    }
  }

  lemma {:induction false} CountAppend(a: string, b: string, c: char)
    ensures Count(a + b, c) == Count(a, c) + Count(b, c)
  {
    if a == "" {
      assert a + b == b;
    } else {
      assert (a + b)[1..] == a[1..] + b;
      CountAppend(a[1..], b, c);
    }
  }

  lemma {:induction false} CountNothing(s: string, c: char)
    requires c !in s
    ensures Count(s, c) == 0
  {
    if s != "" {
      CountNothing(s[1..], c);
    }
  }

  lemma {:induction false} EscapeKeepsCount(s: string)
    ensures Count(Escape(s), '`') == Count(s, '`')
  {
    if s != "" {
      EscapeKeepsCount(s[1..]);
      CountAppend(EscapeChar(s[0]), Escape(s[1..]), '`');
      if s[0] != '`' {
        CountNothing(EscapeChar(s[0]), '`');
      } else {
        assert Count("`", '`') == 1 + Count("", '`');
      }
    }
  }

  lemma {:induction false} EscapeAppend(a: string, b: string)
    ensures Escape(a + b) == Escape(a) + Escape(b)
  {
    if a == "" {
      assert a + b == b;
    } else {
      assert (a + b)[1..] == a[1..] + b;
      EscapeAppend(a[1..], b);
    }
  }

  lemma {:induction false} SplitSnoc(s: string, c: char)
    ensures Split(s + [c], c) == Split(s, c) + [""]
  {
    var parts := Split(s, c) + [""];
    JoinAppend(Split(s, c), [""], c);
    assert Join(parts, c) == s + [c];
    SplitJoin(parts, c);
  }

  lemma {:induction false} InlineIsMarked(value: string)
    ensures RenderInline(value) == MarkPieces(Split(Escape(value), '`'), false)
  {
    var pieces := Split(Escape(value), '`');
    if |pieces| == 1 {
      assert pieces == [pieces[0]] && Join(pieces, '`') == pieces[0];
      assert MarkPieces(pieces, false) == pieces[0] + MarkPieces(pieces[1..], true);
    }
  }

  lemma SplitFirst(text: string, rest: string)
    requires '`' !in text
    ensures Split(text + "`" + rest, '`') == [text] + Split(rest, '`')
  {
    var pieces := [text] + Split(rest, '`');
    assert pieces[1..] == Split(rest, '`');
    assert Join(pieces, '`') == text + "`" + rest;
    SplitJoin(pieces, '`');
  }

  lemma {:induction false} EscapeKeepsBackticksOut(text: string)
    requires '`' !in text
    ensures '`' !in Escape(text)
  {
    if text != "" {
      EscapeKeepsBackticksOut(text[1..]);
      assert text[0] != '`' && '`' !in EscapeChar(text[0]);
    }
  }

  lemma {:induction false} EscapePair(text: string, rest: string)
    ensures Escape(text + "`" + rest) == Escape(text) + "`" + Escape(rest)
  {
    EscapeAppend(text + "`", rest);
    EscapeSnoc(text, '`');
  }

  /** Text without a backtick is only escaped. */
  lemma {:induction false} InlineText(text: string)
    requires '`' !in text
    ensures RenderInline(text) == Escape(text)
  {
    InlineIsMarked(text);
    EscapeKeepsBackticksOut(text);
    SplitJoin([Escape(text)], '`');
    assert Join([Escape(text)], '`') == Escape(text);
  }

  /** What the first backtick opens is code, to the end if no other closes it. */
  lemma {:induction false} InlineOpenCode(text: string, code: string)
    requires '`' !in text && '`' !in code
    ensures RenderInline(text + "`" + code) == Escape(text) + "<code>" + Escape(code) + "</code>"
  {
    EscapeKeepsBackticksOut(text);
    EscapeKeepsBackticksOut(code);
    SplitPlain(Escape(code));
    InlineIsMarked(text + "`" + code);
    EscapePair(text, code);
    SplitFirst(Escape(text), Escape(code));
    MarkTwo(Escape(text), Escape(code), []);
    assert [Escape(code)] + [] == [Escape(code)];
    assert MarkPieces([], false) == "";
  }

  /** What two backticks enclose is code; the text before them is text, and what follows is rendered by itself. */
  lemma {:induction false} InlineCode(text: string, code: string, rest: string)
    requires '`' !in text && '`' !in code
    ensures RenderInline(text + "`" + (code + "`" + rest)) ==
            Escape(text) + "<code>" + Escape(code) + "</code>" + RenderInline(rest)
  {
    EscapeKeepsBackticksOut(text);
    EscapeKeepsBackticksOut(code);
    InlineIsMarked(text + "`" + (code + "`" + rest));
    EscapePair(text, code + "`" + rest);
    EscapePair(code, rest);
    SplitFirst(Escape(text), Escape(code + "`" + rest));
    SplitFirst(Escape(code), Escape(rest));
    InlineIsMarked(rest);
    MarkTwo(Escape(text), Escape(code), Split(Escape(rest), '`'));
  }

  lemma {:induction false} SplitPlain(text: string)
    requires '`' !in text
    ensures Split(text, '`') == [text]
  {
    SplitJoin([text], '`');
    assert Join([text], '`') == text;
  }

  lemma {:induction false} MarkTwo(text: string, code: string, rest: seq<string>)
    ensures MarkPieces([text] + ([code] + rest), false) ==
            text + "<code>" + code + "</code>" + MarkPieces(rest, false)
  {
    var pieces, marked := [text] + ([code] + rest), "<code>" + code + "</code>";
    assert pieces[1..] == [code] + rest && ([code] + rest)[1..] == rest;
    assert MarkPieces([code] + rest, true) == marked + MarkPieces(rest, false);
    ConcatenationAssociates(text, marked, MarkPieces(rest, false));
    ConcatenationAssociates(text, "<code>" + code, "</code>");
    ConcatenationAssociates(text, "<code>", code);
  }

  /** An empty piece outside code adds nothing. */
  lemma {:induction false} EmptyPieceAddsNothing(pieces: seq<string>, code: bool)
    requires code <==> |pieces| % 2 == 1
    ensures MarkPieces(pieces + [""], code) == MarkPieces(pieces, code)
  {
    if pieces != [] {
      assert (pieces + [""])[1..] == pieces[1..] + [""];
      EmptyPieceAddsNothing(pieces[1..], !code);
    } else {
      assert [] + [""] == [""] && [""][1..] == [];
    }
  }

  lemma {:induction false} EscapeSnoc(s: string, c: char)
    requires EscapeChar(c) == [c]
    ensures Escape(s + [c]) == Escape(s) + [c]
  {
    EscapeAppend(s, [c]);
    assert [c][1..] == "";
  }

  /** Closing the last backtick adds an empty piece. */
  lemma {:induction false} ClosedPieces(value: string)
    requires Count(value, '`') % 2 == 1
    ensures Split(Escape(Closed(value)), '`') == Split(Escape(value), '`') + [""]
  {
    EscapeSnoc(value, '`');
    SplitSnoc(Escape(value), '`');
    assert Closed(value) == value + ['`'];
  }

  lemma {:induction false} PieceCount(value: string)
    ensures |Split(Escape(value), '`')| == Count(value, '`') + 1
  {
    SplitCount(Escape(value), '`');
    EscapeKeepsCount(value);
  }

  /** A closed text has a piece more than pairs of backticks, and so an odd number of pieces. */
  lemma {:induction false} ClosedIsOdd(value: string)
    ensures |Split(Escape(Closed(value)), '`')| % 2 == 1
  {
    PieceCount(value);
    if Count(value, '`') % 2 == 1 {
      ClosedPieces(value);
    }
  }

  lemma {:induction false} ClosingChangesNothing(value: string)
    ensures RenderInline(Closed(value)) == RenderInline(value)
  {
    if Count(value, '`') % 2 == 1 {
      var pieces := Split(Escape(value), '`');
      PieceCount(value);
      ClosedPieces(value);
      EmptyPieceAddsNothing(pieces, false);
      InlineIsMarked(value);
      InlineIsMarked(Closed(value));
    }
  }

  predicate StartsWithTag(html: string)
  {
    html == "" || html[0] == '<'
  }

  lemma {:induction false} TagIsMet(a: string, x: string, b: string, y: string)
    requires |a| < |b| && StartsWithTag(x) && a + x == b + y
    ensures b[|a|] == '<'
  {
    assert |a + x| == |b + y|;
    assert (a + x)[|a|] == (b + y)[|a|];
  }

  lemma {:induction false} NotShorter(a: string, x: string, b: string, y: string)
    requires '<' !in b && StartsWithTag(x) && a + x == b + y
    ensures |a| >= |b|
  {
    if |a| < |b| {
      TagIsMet(a, x, b, y);
    }
  }

  lemma {:induction false} SameText(a: string, x: string, b: string, y: string)
    requires '<' !in a && '<' !in b && StartsWithTag(x) && StartsWithTag(y) && a + x == b + y
    ensures a == b && x == y
  {
    NotShorter(a, x, b, y);
    NotShorter(b, y, a, x);
    SameEnds(a, x, b, y);
  }

  lemma {:induction false} SameEnds(a: string, x: string, b: string, y: string)
    requires |a| == |b| && a + x == b + y
    ensures a == b && x == y
  {
    assert a == (a + x)[..|a|] && b == (b + y)[..|b|];
    assert x == (a + x)[|a|..] && y == (b + y)[|b|..];
  }

  /** What follows the first piece. */
  function AfterFirst(pieces: seq<string>): string
  {
    if |pieces| < 2 then "" else "<code>" + (pieces[1] + ("</code>" + MarkPieces(pieces[2..], false)))
  }

  lemma {:induction false} MarkedInTurn(pieces: seq<string>)
    requires |pieces| % 2 == 1
    ensures MarkPieces(pieces, false) == pieces[0] + AfterFirst(pieces)
  {
    if |pieces| > 1 {
      assert pieces[1..][1..] == pieces[2..];
    } else {
      assert pieces[1..] == [];
    }
  }

  /** The code piece and what follows it can be read off what follows the first piece. */
  lemma {:induction false} SameCode(a: seq<string>, b: seq<string>)
    requires |a| > 1 && |b| > 1 && '<' !in a[1] && '<' !in b[1] && AfterFirst(a) == AfterFirst(b)
    ensures a[1] == b[1] && MarkPieces(a[2..], false) == MarkPieces(b[2..], false)
  {
    var restA, restB := MarkPieces(a[2..], false), MarkPieces(b[2..], false);
    SameEnds("<code>", a[1] + ("</code>" + restA), "<code>", b[1] + ("</code>" + restB));
    SameText(a[1], "</code>" + restA, b[1], "</code>" + restB);
    SameEnds("</code>", restA, "</code>", restB);
  }

  lemma {:induction false} SameFirst(a: seq<string>, b: seq<string>)
    requires |a| % 2 == 1 && |b| % 2 == 1 && MarkPieces(a, false) == MarkPieces(b, false)
    requires '<' !in a[0] && '<' !in b[0]
    ensures a[0] == b[0] && AfterFirst(a) == AfterFirst(b) && (|a| > 1 <==> |b| > 1)
  {
    MarkedInTurn(a);
    MarkedInTurn(b);
    SameText(a[0], AfterFirst(a), b[0], AfterFirst(b));
  }

  predicate FreeOfTags(pieces: seq<string>)
  {
    forall i :: 0 <= i < |pieces| ==> '<' !in pieces[i]
  }

  /** Tags and texts take turns, so the pieces can be read off the result. */
  lemma {:induction false} MarkedPiecesAreUnique(a: seq<string>, b: seq<string>)
    requires |a| % 2 == 1 && |b| % 2 == 1 && MarkPieces(a, false) == MarkPieces(b, false)
    requires FreeOfTags(a) && FreeOfTags(b)
    ensures a == b
  {
    SameFirst(a, b);
    if |a| > 1 {
      SameCode(a, b);
      MarkedPiecesAreUnique(a[2..], b[2..]);
    }
  }

  /** Two texts render alike exactly when they differ at most in closing a last, unclosed backtick. */
  lemma {:induction false} RenderAlikeExactlyWhen(a: string, b: string)
    ensures RenderInline(a) == RenderInline(b) <==> Closed(a) == Closed(b)
  {
    ClosingChangesNothing(a);
    ClosingChangesNothing(b);
    ClosedIsOdd(a);
    ClosedIsOdd(b);
    if RenderInline(a) == RenderInline(b) {
      var x, y := Escape(Closed(a)), Escape(Closed(b));
      InlineIsMarked(Closed(a));
      InlineIsMarked(Closed(b));
      EscapeHasNoTags(Closed(a));
      EscapeHasNoTags(Closed(b));
      SplitKeepsOut(x, '`', '<');
      SplitKeepsOut(y, '`', '<');
      MarkedPiecesAreUnique(Split(x, '`'), Split(y, '`'));
      assert x == Join(Split(x, '`'), '`') == y;
      UnescapeUndoesEscape(Closed(a));
      UnescapeUndoesEscape(Closed(b));
    }
  }

  /** A lone backtick and two of them are different texts that render alike. */
  lemma BackticksAreNotRecovered()
    ensures "`" != "``" && RenderInline("`") == RenderInline("``")
  {
    assert "`"[1..] == "" && "``"[1..] == "`";
    assert Count("", '`') == 0 && Count("`", '`') == 1 && Count("``", '`') == 2;
    RenderAlikeExactlyWhen("`", "``");
  }
}
