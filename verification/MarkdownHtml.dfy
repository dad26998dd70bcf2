/**
  Turning Markdown review notes into HTML, line by line. How a line is trimmed and which
  list or heading pattern it matches are given as functions.
*/
module MarkdownHtml {
  import opened Collections
  import opened Text
  import opened InlineMarkup

  /** A heading opens with one to six hashes. */
  type Level = n: int | 1 <= n <= 6 witness 1

  datatype Kind =
    | Heading(level: Level, text: string)
    | Ordered(number: string, text: string)
    | Bullet(text: string)
    | Plain

  /** How lines are trimmed and what patterns they match. */
  datatype Patterns = Patterns(trim: string -> string, kind: string -> Kind)

  datatype Block =
    | Paragraph(lines: seq<string>)
    | Code(lines: seq<string>)
    | Spacer
    | Title(level: Level, text: string)
    | Rule
    | OrderedItem(number: string, text: string)
    | BulletItem(text: string)
    | Continuation(text: string)

  // ----- the HTML of a block -----

  /** A piece of HTML: a tag, fixed text of the page, or text of the notes with or without inline markup. */
  datatype Part = Tag(name: string) | Fixed(text: string) | Markup(text: string) | Literal(text: string)

  function Digit(level: Level): char { (level + '0' as int) as char }

  function Dashes(n: nat): string { seq(n, _ => '\U{2500}') }

  const HEADING_RULE_LENGTH := 85

  /** The lines of a block with a character between them. */
  function Between(lines: seq<Part>, separator: char): seq<Part>
  {
    if |lines| <= 1 then lines else [lines[0], Fixed([separator])] + Between(lines[1..], separator)
  }

  function Markups(lines: seq<string>): (parts: seq<Part>)
    ensures |parts| == |lines|
  {
    seq(|lines|, i requires 0 <= i < |lines| => Markup(lines[i]))
  }

  function Literals(lines: seq<string>): (parts: seq<Part>)
    ensures |parts| == |lines|
  {
    seq(|lines|, i requires 0 <= i < |lines| => Literal(lines[i]))
  }

  function Wrapped(tag: string, attributes: string, inner: seq<Part>): seq<Part>
  {
    [Tag(tag + attributes)] + inner + [Tag("/" + tag)]
  }

  function PartsOf(block: Block): seq<Part>
  {
    match block
    case Paragraph(lines) => Wrapped("p", "", Between(Markups(lines), ' '))
    case Code(lines) => Wrapped("pre", "", Wrapped("code", "", Between(Literals(lines), '\n')))
    case Spacer => Wrapped("p", " class=\"section-spacer\"", [Fixed("&nbsp;")])
    case Title(level, text) => Wrapped("h" + [Digit(level)], "", [Markup(text)])
    case Rule => Wrapped("p", " class=\"heading-rule\"", [Fixed(Dashes(HEADING_RULE_LENGTH))])
    case OrderedItem(number, text) => ItemParts([Literal(number), Fixed(".")], text)
    case BulletItem(text) => ItemParts([Fixed("&bull;")], text)
    case Continuation(text) => Wrapped("p", " class=\"list-continuation\"", [Markup(text)])
  }

  function ItemParts(marker: seq<Part>, text: string): seq<Part>
  {
    Wrapped("p", " class=\"list-item\"",
            Wrapped("span", " class=\"marker\"", marker) + [Fixed(" "), Markup(text)])
  }

  function RenderPart(part: Part): string
  {
    match part
    case Tag(name) => "<" + name + ">"
    case Fixed(text) => text
    case Markup(text) => RenderInline(text)
    case Literal(text) => Escape(text)
  }

  function RenderAll(parts: seq<Part>): string
  {
    if parts == [] then "" else RenderPart(parts[0]) + RenderAll(parts[1..])
  }

  /** The parts of the whole page, one block a line. */
  function PageParts(body: seq<Block>): seq<Part>
  {
    if body == [] then []
    else if |body| == 1 then PartsOf(body[0])
    else PageParts(body[..|body| - 1]) + [Fixed("\n")] + PartsOf(body[|body| - 1])
  }

  // ----- what a reader sees of a page -----

  function SeenPart(part: Part): string
  {
    match part
    case Tag(_) => ""
    case Fixed(text) => text
    case Markup(text) => Without(text, '`')
    case Literal(text) => text
  }

  function SeenParts(parts: seq<Part>): string
  {
    if parts == [] then "" else SeenPart(parts[0]) + SeenParts(parts[1..])
  }

  /** Tags are closed, and fixed text reads as itself. */
  predicate ProperPart(part: Part)
  {
    match part
    case Tag(name) => '>' !in name
    case Fixed(text) => '<' !in text && ('&' !in text || text == "&nbsp;" || text == "&bull;")
    case _ => true
  }

  predicate Proper(parts: seq<Part>)
  {
    forall part :: part in parts ==> ProperPart(part)
  }

  lemma {:induction false} UnescapePlain(text: string, rest: string)
    requires '&' !in text
    ensures Unescape(text + rest) == text + Unescape(rest)
  {
    if text == "" {
      assert text + rest == rest;
    } else {
      assert (text + rest)[0] == text[0] && (text + rest)[1..] == text[1..] + rest;
      UnescapePlain(text[1..], rest);
      ConcatenationAssociates([text[0]], text[1..], Unescape(rest));
      assert [text[0]] + text[1..] == text;
    }
  }

  /** An entity that is not one of the four escapes stays as it is. */
  lemma {:induction false} UnescapeEntity(name: string, rest: string)
    requires name == "nbsp;" || name == "bull;"
    ensures Unescape("&" + name + rest) == "&" + name + Unescape(rest)
  {
    var all := "&" + name + rest;
    assert all[1] == name[0] && all[1..] == name + rest;
    UnescapePlain(name, rest);
    ConcatenationAssociates("&", name, Unescape(rest));
  }

  lemma {:induction false} FixedReads(text: string, rest: string)
    requires ProperPart(Fixed(text))
    ensures Seen(text + rest) == text + Seen(rest)
  {
    StripPlain(text, rest);
    if '&' !in text {
      UnescapePlain(text, StripTags(rest, false));
    } else {
      assert text == "&" + text[1..];
      UnescapeEntity(text[1..], StripTags(rest, false));
    }
  }

  lemma {:induction false} PartReads(part: Part, rest: string)
    requires ProperPart(part)
    ensures Seen(RenderPart(part) + rest) == SeenPart(part) + Seen(rest)
  {
    match part
    case Tag(name) => SeenTag(name, rest);
    case Fixed(text) => FixedReads(text, rest);
    case Markup(text) => SeenInline(text, rest);
    case Literal(text) => SeenEscaped(text, rest);
  }

  lemma {:induction false} PartsRead(parts: seq<Part>)
    requires Proper(parts)
    ensures Seen(RenderAll(parts)) == SeenParts(parts)
  {
    if parts != [] {
      assert parts[0] in parts;
      PartReads(parts[0], RenderAll(parts[1..]));
      PartsRead(parts[1..]);
    }
  }

  // ----- the lines -----

  /** The variables of the conversion. */
  datatype Doc = Doc(
    body: seq<Block>, paragraph: seq<string>, inCode: bool, codeLines: seq<string>, previousListItem: bool)

  const Empty := Doc([], [], false, [], false)

  function FlushParagraph(d: Doc): Doc
  {
    if d.paragraph == [] then d
    else d.(body := d.body + [Paragraph(d.paragraph)], paragraph := [], previousListItem := false)
  }

  function FlushCode(d: Doc): Doc
  {
    if d.codeLines == [] then d
    else d.(body := d.body + [Code(d.codeLines)], codeLines := [], previousListItem := false)
  }

  function Emit(d: Doc, blocks: seq<Block>, listItem: bool): Doc
  {
    var flushed := FlushParagraph(d);
    flushed.(body := flushed.body + blocks, previousListItem := listItem)
  }

  function TitleBlocks(level: Level, text: string): seq<Block>
  {
    (if level == 2 then [Spacer, Spacer] else []) + [Title(level, text)] + (if level <= 2 then [Rule] else [])
  }

  predicate IsFence(line: string) { "```" <= line }

  function FeedPlain(d: Doc, rawLine: string, line: string): Doc
  {
    if d.previousListItem && "   " <= rawLine then d.(body := d.body + [Continuation(line)])
    else d.(paragraph := d.paragraph + [line], previousListItem := false)
  }

  function FeedKind(d: Doc, kind: Kind, rawLine: string, line: string): Doc
  {
    match kind
    case Heading(level, text) => Emit(d, TitleBlocks(level, text), false)
    case Ordered(number, text) => Emit(d, [OrderedItem(number, text)], true)
    case Bullet(text) => Emit(d, [BulletItem(text)], true)
    case Plain => FeedPlain(d, rawLine, line)
  }

  function Feed(p: Patterns, d: Doc, rawLine: string): Doc
  {
    var line := p.trim(rawLine);
    if IsFence(line) then
      if d.inCode then FlushCode(d).(inCode := false)
      else FlushParagraph(d).(inCode := true, previousListItem := false)
    else if d.inCode then d.(codeLines := d.codeLines + [rawLine])
    else if line == "" then FlushParagraph(d).(previousListItem := false)
    else FeedKind(d, p.kind(line), rawLine, line)
  }

  function FeedAll(p: Patterns, lines: seq<string>, i: nat): Doc
    requires i <= |lines|
  {
    if i == 0 then Empty else Feed(p, FeedAll(p, lines, i - 1), lines[i - 1])
  }

  function Finish(d: Doc): seq<Block>
  {
    FlushParagraph(if d.inCode then FlushCode(d) else d).body
  }

  // ----- nothing is lost -----

  function KindPayload(kind: Kind, line: string): seq<Part>
  {
    match kind
    case Heading(_, text) => [Markup(text)]
    case Ordered(number, text) => [Literal(number), Markup(text)]
    case Bullet(text) => [Markup(text)]
    case Plain => [Markup(line)]
  }

  /** What of a line must show in the page: code and numbers as they are, all else with inline markup. */
  function Payload(p: Patterns, inCode: bool, rawLine: string): seq<Part>
  {
    var line := p.trim(rawLine);
    if IsFence(line) then []
    else if inCode then [Literal(rawLine)]
    else if line == "" then []
    else KindPayload(p.kind(line), line)
  }

  /** Inside a code block after an odd number of fences. */
  function InCode(p: Patterns, lines: seq<string>, i: nat): bool
    requires i <= |lines|
  {
    if i == 0 then false
    else if IsFence(p.trim(lines[i - 1])) then !InCode(p, lines, i - 1)
    else InCode(p, lines, i - 1)
  }

  function Payloads(p: Patterns, lines: seq<string>, i: nat): seq<Part>
    requires i <= |lines|
  {
    if i == 0 then [] else Payloads(p, lines, i - 1) + Payload(p, InCode(p, lines, i - 1), lines[i - 1])
  }

  function Shown(block: Block): seq<Part>
  {
    match block
    case Paragraph(lines) => Markups(lines)
    case Code(lines) => Literals(lines)
    case Spacer => []
    case Title(_, text) => [Markup(text)]
    case Rule => []
    case OrderedItem(number, text) => [Literal(number), Markup(text)]
    case BulletItem(text) => [Markup(text)]
    case Continuation(text) => [Markup(text)]
  }

  function ShownAll(body: seq<Block>): seq<Part>
  {
    if body == [] then [] else ShownAll(body[..|body| - 1]) + Shown(body[|body| - 1])
  }

  /** At most one of paragraph and code lines is under way, and a list item is followed by neither. */
  predicate DocInv(d: Doc)
  {
    && (d.inCode ==> d.paragraph == [] && !d.previousListItem)
    && (!d.inCode ==> d.codeLines == [])
    && (d.previousListItem ==> d.paragraph == [] && d.codeLines == [])
  }

  function Pending(d: Doc): seq<Part> { ShownAll(d.body) + Markups(d.paragraph) + Literals(d.codeLines) }

  lemma {:induction false} FlushKeepsPending(d: Doc)
    requires DocInv(d)
    ensures Pending(FlushParagraph(d)) == Pending(d) && FlushParagraph(d).paragraph == []
    ensures Pending(FlushCode(d)) == Pending(d) && FlushCode(d).codeLines == []
  {
  }

  lemma {:induction false} TitleShows(body: seq<Block>, level: Level, text: string)
    ensures ShownAll(body + TitleBlocks(level, text)) == ShownAll(body) + [Markup(text)]
  {
    var spaced := if level == 2 then body + [Spacer] + [Spacer] else body;
    assert ShownAll(body + [Spacer] + [Spacer]) == ShownAll(body);
    assert body + TitleBlocks(level, text) ==
           if level <= 2 then spaced + [Title(level, text)] + [Rule] else spaced + [Title(level, text)];
  }

  lemma {:induction false} EmitKeepsPayload(d: Doc, blocks: seq<Block>, shown: seq<Part>, listItem: bool)
    requires DocInv(d) && !d.inCode
    requires ShownAll(FlushParagraph(d).body + blocks) == ShownAll(FlushParagraph(d).body) + shown
    ensures DocInv(Emit(d, blocks, listItem)) && !Emit(d, blocks, listItem).inCode
    ensures Pending(Emit(d, blocks, listItem)) == Pending(d) + shown
  {
    FlushKeepsPending(d);
    var flushed, after := FlushParagraph(d), Emit(d, blocks, listItem);
    assert flushed.paragraph == flushed.codeLines == after.paragraph == after.codeLines == [];
    assert Pending(flushed) == ShownAll(flushed.body);
    assert Pending(after) == ShownAll(after.body);
  }

  lemma {:induction false} PlainKeepsPayload(d: Doc, rawLine: string, line: string)
    requires DocInv(d) && !d.inCode
    ensures DocInv(FeedPlain(d, rawLine, line)) && !FeedPlain(d, rawLine, line).inCode
    ensures Pending(FeedPlain(d, rawLine, line)) == Pending(d) + [Markup(line)]
  {
    assert d.codeLines == [];
  }

  lemma {:induction false} KindKeepsPayload(d: Doc, kind: Kind, rawLine: string, line: string)
    requires DocInv(d) && !d.inCode
    ensures DocInv(FeedKind(d, kind, rawLine, line)) && !FeedKind(d, kind, rawLine, line).inCode
    ensures Pending(FeedKind(d, kind, rawLine, line)) == Pending(d) + KindPayload(kind, line)
  {
    var body := FlushParagraph(d).body;
    match kind {
      case Heading(level, text) =>
        TitleShows(body, level, text);
        EmitKeepsPayload(d, TitleBlocks(level, text), [Markup(text)], false);
      case Ordered(number, text) =>
        EmitKeepsPayload(d, [OrderedItem(number, text)], [Literal(number), Markup(text)], true);
      case Bullet(text) =>
        EmitKeepsPayload(d, [BulletItem(text)], [Markup(text)], true);
      case Plain =>
        PlainKeepsPayload(d, rawLine, line);
    }
  }

  lemma {:induction false} FeedKeepsPayload(p: Patterns, d: Doc, rawLine: string)
    requires DocInv(d)
    ensures DocInv(Feed(p, d, rawLine))
    ensures Feed(p, d, rawLine).inCode == if IsFence(p.trim(rawLine)) then !d.inCode else d.inCode
    ensures Pending(Feed(p, d, rawLine)) == Pending(d) + Payload(p, d.inCode, rawLine)
  {
    var line := p.trim(rawLine);
    if !IsFence(line) && !d.inCode && line != "" {
      KindKeepsPayload(d, p.kind(line), rawLine, line);
    } else {
      FlushKeepsPending(d);
    }
  }

  /** The lines read so far are all pending or shown, and the code flag follows the fences. */
  ghost predicate Faithful(p: Patterns, d: Doc, lines: seq<string>, i: nat)
    requires i <= |lines|
  {
    DocInv(d) && d.inCode == InCode(p, lines, i) && Pending(d) == Payloads(p, lines, i)
  }

  lemma {:induction false} NextLineFaithful(p: Patterns, d: Doc, lines: seq<string>, i: nat)
    requires i < |lines| && Faithful(p, d, lines, i)
    ensures Faithful(p, Feed(p, d, lines[i]), lines, i + 1)
  {
    FeedKeepsPayload(p, d, lines[i]);
  }

  lemma {:induction false} FeedAllKeepsPayload(p: Patterns, lines: seq<string>, i: nat)
    requires i <= |lines|
    ensures Faithful(p, FeedAll(p, lines, i), lines, i)
  {
    if i > 0 {
      var before, k := FeedAll(p, lines, i - 1), i - 1;
      FeedAllKeepsPayload(p, lines, k);
      NextLineFaithful(p, before, lines, k);
      var after := FeedAll(p, lines, i);
      assert after == Feed(p, before, lines[k]);
      assert Faithful(p, after, lines, k + 1);
    }
  }

  /** Every line's payload is shown once, in source order, and nothing else is. */
  lemma {:induction false} NothingIsLost(p: Patterns, lines: seq<string>)
    ensures ShownAll(Finish(FeedAll(p, lines, |lines|))) == Payloads(p, lines, |lines|)
  {
    FeedAllKeepsPayload(p, lines, |lines|);
    FinishShowsPending(FeedAll(p, lines, |lines|));
  }

  lemma {:induction false} FinishShowsPending(d: Doc)
    requires DocInv(d)
    ensures ShownAll(Finish(d)) == Pending(d)
  {
    FlushKeepsPending(d);
    if d.inCode {
      NothingPending(FlushCode(d));
    } else {
      NothingPending(FlushParagraph(d));
    }
  }

  lemma {:induction false} NothingPending(d: Doc)
    requires d.paragraph == [] && d.codeLines == []
    ensures Pending(d) == ShownAll(d.body) && FlushParagraph(d) == d
  {
  }

  // ----- the page -----

  function PayloadsOf(parts: seq<Part>): seq<Part>
  {
    if parts == [] then []
    else (if IsPayload(parts[0]) then [parts[0]] else []) + PayloadsOf(parts[1..])
  }

  predicate IsPayload(part: Part) { part.Markup? || part.Literal? }

  lemma {:induction false} PayloadsAppend(a: seq<Part>, b: seq<Part>)
    ensures PayloadsOf(a + b) == PayloadsOf(a) + PayloadsOf(b)
  {
    if a == [] {
      assert a + b == b;
    } else {
      assert (a + b)[1..] == a[1..] + b;
      PayloadsAppend(a[1..], b);
      ConcatenationAssociates(if IsPayload(a[0]) then [a[0]] else [], PayloadsOf(a[1..]), PayloadsOf(b));
    }
  }

  lemma {:induction false} BetweenPayloads(lines: seq<Part>, separator: char)
    requires forall i :: 0 <= i < |lines| ==> IsPayload(lines[i])
    ensures PayloadsOf(Between(lines, separator)) == lines
  {
    if |lines| > 1 {
      var rest := Between(lines[1..], separator);
      BetweenPayloads(lines[1..], separator);
      assert ([lines[0], Fixed([separator])] + rest)[1..] == [Fixed([separator])] + rest;
      assert ([Fixed([separator])] + rest)[1..] == rest;
    } else if |lines| == 1 {
      assert lines[1..] == [];
    }
  }

  lemma {:induction false} OnePayload(part: Part)
    ensures PayloadsOf([part]) == if IsPayload(part) then [part] else []
  {
    assert [part][1..] == [];
  }

  lemma {:induction false} WrappedPayloads(tag: string, attributes: string, inner: seq<Part>)
    ensures PayloadsOf(Wrapped(tag, attributes, inner)) == PayloadsOf(inner)
  {
    OnePayload(Tag(tag + attributes));
    OnePayload(Tag("/" + tag));
    PayloadsAppend([Tag(tag + attributes)] + inner, [Tag("/" + tag)]);
    PayloadsAppend([Tag(tag + attributes)], inner);
  }

  lemma {:induction false} ItemPayloads(marker: seq<Part>, text: string)
    ensures PayloadsOf(ItemParts(marker, text)) == PayloadsOf(marker) + [Markup(text)]
  {
    var span := Wrapped("span", " class=\"marker\"", marker);
    WrappedPayloads("p", " class=\"list-item\"", span + [Fixed(" "), Markup(text)]);
    PayloadsAppend(span, [Fixed(" "), Markup(text)]);
    WrappedPayloads("span", " class=\"marker\"", marker);
    OnePayload(Fixed(" "));
    OnePayload(Markup(text));
  }

  lemma {:induction false} BlockPayloads(block: Block)
    ensures PayloadsOf(PartsOf(block)) == Shown(block)
  {
    match block
    case Paragraph(lines) =>
      BetweenPayloads(Markups(lines), ' ');
      WrappedPayloads("p", "", Between(Markups(lines), ' '));
    case Code(lines) =>
      BetweenPayloads(Literals(lines), '\n');
      WrappedPayloads("code", "", Between(Literals(lines), '\n'));
      WrappedPayloads("pre", "", Wrapped("code", "", Between(Literals(lines), '\n')));
    case Spacer =>
      OnePayload(Fixed("&nbsp;"));
      WrappedPayloads("p", " class=\"section-spacer\"", [Fixed("&nbsp;")]);
    case Title(level, text) =>
      OnePayload(Markup(text));
      WrappedPayloads("h" + [Digit(level)], "", [Markup(text)]);
    case Rule =>
      OnePayload(Fixed(Dashes(HEADING_RULE_LENGTH)));
      WrappedPayloads("p", " class=\"heading-rule\"", [Fixed(Dashes(HEADING_RULE_LENGTH))]);
    case OrderedItem(number, text) =>
      OnePayload(Literal(number));
      OnePayload(Fixed("."));
      ItemPayloads([Literal(number), Fixed(".")], text);
    case BulletItem(text) =>
      OnePayload(Fixed("&bull;"));
      ItemPayloads([Fixed("&bull;")], text);
    case Continuation(text) =>
      OnePayload(Markup(text));
      WrappedPayloads("p", " class=\"list-continuation\"", [Markup(text)]);
  }

  lemma {:induction false} PagePayloads(body: seq<Block>)
    ensures PayloadsOf(PageParts(body)) == ShownAll(body)
  {
    if body != [] {
      var front, last := body[..|body| - 1], body[|body| - 1];
      PagePayloads(front);
      BlockPayloads(last);
      if |body| > 1 {
        PayloadsAppend(PageParts(front) + [Fixed("\n")], PartsOf(last));
        PayloadsAppend(PageParts(front), [Fixed("\n")]);
        assert [Fixed("\n")][1..] == [];
      } else {
        assert front == [];
      }
    }
  }

  lemma {:induction false} BetweenIsProper(lines: seq<Part>, separator: char)
    requires Proper(lines) && separator != '<' && separator != '&'
    ensures Proper(Between(lines, separator))
  {
    if |lines| > 1 {
      assert forall part :: part in lines[1..] ==> part in lines;
      BetweenIsProper(lines[1..], separator);
    }
  }

  lemma {:induction false} WrappedIsProper(tag: string, attributes: string, inner: seq<Part>)
    requires Proper(inner) && '>' !in tag && '>' !in attributes
    ensures Proper(Wrapped(tag, attributes, inner))
  {
  }

  lemma {:induction false} ItemIsProper(marker: seq<Part>, text: string)
    requires Proper(marker)
    ensures Proper(ItemParts(marker, text))
  {
    WrappedIsProper("span", " class=\"marker\"", marker);
    WrappedIsProper("p", " class=\"list-item\"",
                    Wrapped("span", " class=\"marker\"", marker) + [Fixed(" "), Markup(text)]);
  }

  lemma {:induction false} BlockIsProper(block: Block)
    ensures Proper(PartsOf(block))
  {
    match block
    case Paragraph(lines) =>
      BetweenIsProper(Markups(lines), ' ');
      WrappedIsProper("p", "", Between(Markups(lines), ' '));
    case Code(lines) =>
      BetweenIsProper(Literals(lines), '\n');
      WrappedIsProper("code", "", Between(Literals(lines), '\n'));
      WrappedIsProper("pre", "", Wrapped("code", "", Between(Literals(lines), '\n')));
    case Spacer => WrappedIsProper("p", " class=\"section-spacer\"", [Fixed("&nbsp;")]);
    case Title(level, text) => WrappedIsProper("h" + [Digit(level)], "", [Markup(text)]);
    case Rule =>
      WrappedIsProper("p", " class=\"heading-rule\"", [Fixed(Dashes(HEADING_RULE_LENGTH))]);
    case OrderedItem(number, text) => ItemIsProper([Literal(number), Fixed(".")], text);
    case BulletItem(text) => ItemIsProper([Fixed("&bull;")], text);
    case Continuation(text) => WrappedIsProper("p", " class=\"list-continuation\"", [Markup(text)]);
  }

  lemma {:induction false} PageIsProper(body: seq<Block>)
    ensures Proper(PageParts(body))
  {
    if body != [] {
      PageIsProper(body[..|body| - 1]);
      BlockIsProper(body[|body| - 1]);
    }
  }

  function RenderBlock(block: Block): string { RenderAll(PartsOf(block)) }

  function RenderBody(body: seq<Block>): (html: seq<string>)
    ensures |html| == |body|
  {
    seq(|body|, i requires 0 <= i < |body| => RenderBlock(body[i]))
  }

  /** The blocks of the page, a line each. */
  function PageHtml(body: seq<Block>): string { Join(RenderBody(body), '\n') }

  lemma {:induction false} RenderAppend(a: seq<Part>, b: seq<Part>)
    ensures RenderAll(a + b) == RenderAll(a) + RenderAll(b)
  {
    if a == [] {
      assert a + b == b;
    } else {
      assert (a + b)[1..] == a[1..] + b;
      RenderAppend(a[1..], b);
      ConcatenationAssociates(RenderPart(a[0]), RenderAll(a[1..]), RenderAll(b));
    }
  }

  lemma {:induction false} RenderMore(body: seq<Block>, more: seq<Block>)
    ensures RenderBody(body + more) == RenderBody(body) + RenderBody(more)
  {
    var all := RenderBody(body) + RenderBody(more);
    forall i | 0 <= i < |body + more| ensures RenderBody(body + more)[i] == all[i] {
      assert (body + more)[i] == if i < |body| then body[i] else more[i - |body|];
    }
  }

  lemma {:induction false} RenderNextLine(before: seq<Part>, block: Block)
    ensures RenderAll(before + [Fixed("\n")] + PartsOf(block)) == RenderAll(before) + ['\n'] + RenderBlock(block)
  {
    RenderAppend(before + [Fixed("\n")], PartsOf(block));
    RenderAppend(before, [Fixed("\n")]);
  }

  lemma {:induction false} PageHtmlSnoc(front: seq<Block>, last: Block)
    ensures PageHtml(front + [last]) == if front == [] then RenderBlock(last)
                                       else PageHtml(front) + ['\n'] + RenderBlock(last)
  {
    RenderMore(front, [last]);
    assert RenderBody([last]) == [RenderBlock(last)];
    if front == [] {
      assert [] + [last] == [last];
    } else {
      JoinAppend(RenderBody(front), [RenderBlock(last)], '\n');
    }
  }

  lemma {:induction false} PageIsRendered(body: seq<Block>)
    ensures PageHtml(body) == RenderAll(PageParts(body))
  {
    if body != [] {
      var front, last := body[..|body| - 1], body[|body| - 1];
      SplitLast(body);
      PageIsRendered(front);
      PageHtmlSnoc(front, last);
      RenderNextLine(PageParts(front), last);
    }
  }

  /** The page reads as its parts, and their payloads are those of the lines. */
  ghost predicate Reads(html: string, parts: seq<Part>, payloads: seq<Part>)
  {
    Seen(html) == SeenParts(parts) && PayloadsOf(parts) == payloads
  }

  /**
    What a reader sees of the page is fixed text and, once each and in source order, the
    payload of every line, inline markup without its backticks.
  */
  lemma {:induction false} PageShowsEverything(p: Patterns, lines: seq<string>)
    ensures var body := Finish(FeedAll(p, lines, |lines|));
      Reads(PageHtml(body), PageParts(body), Payloads(p, lines, |lines|))
  {
    var body := Finish(FeedAll(p, lines, |lines|));
    PageIsRendered(body);
    PageIsProper(body);
    PartsRead(PageParts(body));
    PagePayloads(body);
    NothingIsLost(p, lines);
  }

  // ----- the conversion as the script runs it -----

  lemma {:induction false} WrappedHtml(tag: string, attributes: string, inner: seq<Part>)
    ensures RenderAll(Wrapped(tag, attributes, inner)) ==
            "<" + (tag + attributes) + ">" + RenderAll(inner) + ("<" + ("/" + tag) + ">")
  {
    RenderAppend([Tag(tag + attributes)] + inner, [Tag("/" + tag)]);
    RenderAppend([Tag(tag + attributes)], inner);
  }

  function Inlines(lines: seq<string>): (html: seq<string>)
    ensures |html| == |lines|
  {
    seq(|lines|, i requires 0 <= i < |lines| => RenderInline(lines[i]))
  }

  lemma {:induction false} JoinedInlines(lines: seq<string>)
    ensures RenderAll(Between(Markups(lines), ' ')) == Join(Inlines(lines), ' ')
  {
    if |lines| > 1 {
      JoinedInlines(lines[1..]);
      assert Markups(lines)[1..] == Markups(lines[1..]) && Inlines(lines)[1..] == Inlines(lines[1..]);
    } else if |lines| == 1 {
      assert Markups(lines) == [Markup(lines[0])];
    }
  }

  /** A paragraph's lines are rendered one by one and joined. */
  lemma {:induction false} ParagraphHtml(lines: seq<string>)
    ensures RenderBlock(Paragraph(lines)) == "<p>" + Join(Inlines(lines), ' ') + "</p>"
  {
    JoinedInlines(lines);
    WrappedHtml("p", "", Between(Markups(lines), ' '));
    assert "<" + ("p" + "") + ">" == "<p>" && "<" + ("/" + "p") + ">" == "</p>";
  }

  lemma {:induction false} JoinedLiterals(lines: seq<string>)
    ensures RenderAll(Between(Literals(lines), '\n')) == Escape(Join(lines, '\n'))
  {
    if |lines| > 1 {
      var rest := Join(lines[1..], '\n');
      JoinedLiterals(lines[1..]);
      assert Literals(lines)[1..] == Literals(lines[1..]);
      EscapeAppend(lines[0] + ['\n'], rest);
      EscapeSnoc(lines[0], '\n');
    } else if |lines| == 1 {
      assert Literals(lines) == [Literal(lines[0])];
    }
  }

  /** A code block's lines may be joined before they are escaped. */
  lemma {:induction false} CodeHtml(lines: seq<string>)
    ensures RenderBlock(Code(lines)) == "<pre><code>" + Escape(Join(lines, '\n')) + "</code></pre>"
  {
    var text := Escape(Join(lines, '\n'));
    JoinedLiterals(lines);
    WrappedHtml("code", "", Between(Literals(lines), '\n'));
    WrappedHtml("pre", "", Wrapped("code", "", Between(Literals(lines), '\n')));
    CodeFrame();
    Nested("<pre>", "<code>", text, "</code>", "</pre>");
  }

  lemma {:induction false} CodeFrame()
    ensures "<" + ("code" + "") + ">" == "<code>" && "<" + ("/" + "code") + ">" == "</code>"
    ensures "<" + ("pre" + "") + ">" == "<pre>" && "<" + ("/" + "pre") + ">" == "</pre>"
    ensures "<pre>" + "<code>" == "<pre><code>" && "</code>" + "</pre>" == "</code></pre>"
  {
  }

  lemma {:induction false} Nested(a: string, b: string, text: string, c: string, d: string)
    ensures a + (b + text + c) + d == (a + b) + text + (c + d)
  {
    ConcatenationAssociates(a, b, text);
    ConcatenationAssociates(a, b + text, c);
    ConcatenationAssociates(a + b + text, c, d);
  }

  /** The paragraph under way becomes HTML. */
  method FlushParagraphHtml(body0: seq<string>, paragraph: seq<string>, ghost d: Doc) returns (body: seq<string>)
    requires body0 == RenderBody(d.body) && paragraph == d.paragraph
    ensures body == RenderBody(FlushParagraph(d).body)
  {
    if paragraph == [] {
      return body0;
    }
    ParagraphHtml(paragraph);
    RenderMore(d.body, [Paragraph(paragraph)]);
    body := body0 + ["<p>" + Join(Inlines(paragraph), ' ') + "</p>"];
  }

  /** The code block under way becomes HTML. */
  method FlushCodeHtml(body0: seq<string>, codeLines: seq<string>, ghost d: Doc) returns (body: seq<string>)
    requires body0 == RenderBody(d.body) && codeLines == d.codeLines
    ensures body == RenderBody(FlushCode(d).body)
  {
    if codeLines == [] {
      return body0;
    }
    CodeHtml(codeLines);
    RenderMore(d.body, [Code(codeLines)]);
    body := body0 + ["<pre><code>" + Escape(Join(codeLines, '\n')) + "</code></pre>"];
  }

  method HeadingHtml(level: Level, text: string) returns (html: seq<string>)
    ensures html == RenderBody(TitleBlocks(level, text))
  {
    html := [];
    if level == 2 {
      html := [RenderBlock(Spacer), RenderBlock(Spacer)];
    }
    html := html + [RenderBlock(Title(level, text))];
    if level <= 2 {
      html := html + [RenderBlock(Rule)];
    }
  }

  /** A line outside code blocks that is neither blank nor a fence. */
  method TextLineHtml(p: Patterns, body0: seq<string>, ghost d: Doc, rawLine: string, line: string)
      returns (body: seq<string>, listItem: bool)
    requires body0 == RenderBody(FlushParagraph(d).body) && p.kind(line) != Plain
    ensures body == RenderBody(FeedKind(d, p.kind(line), rawLine, line).body)
    ensures listItem == FeedKind(d, p.kind(line), rawLine, line).previousListItem
    ensures FeedKind(d, p.kind(line), rawLine, line).paragraph == []
  {
    ghost var flushed := FlushParagraph(d).body;
    match p.kind(line) {
      case Heading(level, text) =>
        var html := HeadingHtml(level, text);
        RenderMore(flushed, TitleBlocks(level, text));
        body, listItem := body0 + html, false;
      case Ordered(number, text) =>
        RenderMore(flushed, [OrderedItem(number, text)]);
        body, listItem := body0 + [RenderBlock(OrderedItem(number, text))], true;
      case Bullet(text) =>
        RenderMore(flushed, [BulletItem(text)]);
        body, listItem := body0 + [RenderBlock(BulletItem(text))], true;
    }
  }

  /** The variables hold what they should. */
  ghost predicate Holds(d: Doc, body: seq<string>, paragraph: seq<string>, inCode: bool, codeLines: seq<string>,
                        previousListItem: bool)
  {
    && body == RenderBody(d.body) && paragraph == d.paragraph && inCode == d.inCode
    && codeLines == d.codeLines && previousListItem == d.previousListItem
  }

  /** The fixed text before and after the page's blocks. */
  datatype Frame = Frame(before: string, after: string)

  /** The conversion. */
  method MarkdownToHtml(p: Patterns, frame: Frame, lines: seq<string>) returns (html: string, ghost parts: seq<Part>)
    ensures html == frame.before + PageHtml(Finish(FeedAll(p, lines, |lines|))) + frame.after
    ensures Reads(PageHtml(Finish(FeedAll(p, lines, |lines|))), parts, Payloads(p, lines, |lines|))
  {
    var body, paragraph, codeLines: seq<string> := [], [], [];
    var inCode, previousListItem := false, false;
    for i := 0 to |lines|
      invariant Holds(FeedAll(p, lines, i), body, paragraph, inCode, codeLines, previousListItem)
    {
      ghost var d := FeedAll(p, lines, i);
      var rawLine := lines[i];
      var line := p.trim(rawLine);
      if IsFence(line) {
        if inCode {
          body := FlushCodeHtml(body, codeLines, d);
          previousListItem := previousListItem && codeLines == [];
          codeLines := [];
          inCode := false;
        } else {
          body := FlushParagraphHtml(body, paragraph, d);
          paragraph := [];
          inCode := true;
          previousListItem := false;
        }
        continue;
      }
      if inCode {
        codeLines := codeLines + [rawLine];
        continue;
      }
      if line == "" {
        body := FlushParagraphHtml(body, paragraph, d);
        paragraph := [];
        previousListItem := false;
        continue;
      }
      if p.kind(line) != Plain {
        body := FlushParagraphHtml(body, paragraph, d);
        paragraph := [];
        body, previousListItem := TextLineHtml(p, body, d, rawLine, line);
        continue;
      }
      if previousListItem && "   " <= rawLine {
        RenderMore(d.body, [Continuation(line)]);
        body := body + [RenderBlock(Continuation(line))];
      } else {
        paragraph := paragraph + [line];
        previousListItem := false;
      }
    }
    ghost var d := FeedAll(p, lines, |lines|);
    if inCode {
      body := FlushCodeHtml(body, codeLines, d);
      d := FlushCode(d);
    }
    body := FlushParagraphHtml(body, paragraph, d);
    html := frame.before + Join(body, '\n') + frame.after;
    parts := PageParts(Finish(FeedAll(p, lines, |lines|)));
    PageShowsEverything(p, lines);
  }
}
