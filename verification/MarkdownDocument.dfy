/**
  Documents as an author writes them - paragraphs, code blocks, headings and list items
  with continuation lines - and the blocks and the HTML each of them becomes.
*/
module MarkdownDocument {
  import opened Collections
  import opened Text
  import opened InlineMarkup
  import opened MarkdownHtml

  datatype Section =
    | Para(lines: seq<string>)
    | CodeBlock(open: string, lines: seq<string>, close: string)
    | HeadingLine(line: string)
    | ItemLine(line: string, more: seq<string>)

  /** A section and the blank lines after it. */
  datatype Spaced = Spaced(section: Section, blanks: seq<string>)

  /** Blank lines, the sections, and at the end perhaps a code block that is never closed. */
  datatype Document = Document(lead: seq<string>, sections: seq<Spaced>, unclosed: Option<Unclosed>)

  datatype Unclosed = Unclosed(open: string, lines: seq<string>)

  predicate IsFenceLine(p: Patterns, raw: string)
  {
    var line := p.trim(raw);
    |line| >= 3 && line[0] == line[1] == line[2] == '`'
  }

  /** Neither blank nor a fence; the kind says the rest. */
  predicate IsLineOf(p: Patterns, raw: string)
  {
    p.trim(raw) != "" && !IsFenceLine(p, raw)
  }

  predicate IsTextLine(p: Patterns, raw: string)
  {
    IsLineOf(p, raw) && p.kind(p.trim(raw)) == Plain
  }

  predicate Indented(raw: string)
  {
    |raw| >= 3 && raw[0] == raw[1] == raw[2] == ' '
  }

  predicate WellFormed(p: Patterns, s: Section)
  {
    match s
    case Para(lines) => lines != [] && forall raw :: raw in lines ==> IsTextLine(p, raw)
    case CodeBlock(open, lines, close) =>
      IsFenceLine(p, open) && IsFenceLine(p, close) && forall raw :: raw in lines ==> !IsFenceLine(p, raw)
    case HeadingLine(line) => IsLineOf(p, line) && p.kind(p.trim(line)).Heading?
    case ItemLine(line, more) =>
      && IsLineOf(p, line) && (p.kind(p.trim(line)).Ordered? || p.kind(p.trim(line)).Bullet?)
      && forall raw :: raw in more ==> IsTextLine(p, raw) && Indented(raw)
  }

  /** What the next line finds: nothing under way, a paragraph under way, or a list item just above. */
  datatype Place = Fresh | InParagraph | InList

  function PlaceAfter(s: Spaced): Place
  {
    if s.blanks != [] then Fresh
    else match s.section case Para(_) => InParagraph case ItemLine(_, _) => InList case _ => Fresh
  }

  /** A paragraph needs a blank line to part it from another one, or an indented one from a list item. */
  predicate MayStand(s: Section, place: Place)
  {
    s.Para? && s.lines != [] ==> place != InParagraph && (place == InList ==> !Indented(s.lines[0]))
  }

  predicate AreBlank(p: Patterns, lines: seq<string>)
  {
    forall raw :: raw in lines ==> p.trim(raw) == ""
  }

  predicate IsSpaced(p: Patterns, s: Spaced)
  {
    WellFormed(p, s.section) && AreBlank(p, s.blanks)
  }

  predicate AllStand(p: Patterns, sections: seq<Spaced>)
  {
    forall i :: 0 <= i < |sections| ==> StandsAt(p, sections, i)
  }

  predicate StandsAt(p: Patterns, sections: seq<Spaced>, i: nat)
    requires i < |sections|
  {
    IsSpaced(p, sections[i]) && MayStand(sections[i].section, if i == 0 then Fresh else PlaceAfter(sections[i - 1]))
  }

  predicate IsDocument(p: Patterns, doc: Document)
  {
    && AreBlank(p, doc.lead) && AllStand(p, doc.sections)
    && (doc.unclosed.Some? ==>
          && IsFenceLine(p, doc.unclosed.value.open)
          && forall raw :: raw in doc.unclosed.value.lines ==> !IsFenceLine(p, raw))
  }

  // ----- the lines of a document -----

  function LinesOf(s: Section): seq<string>
  {
    match s
    case Para(lines) => lines
    case CodeBlock(open, lines, close) => [open] + lines + [close]
    case HeadingLine(line) => [line]
    case ItemLine(line, more) => [line] + more
  }

  function LinesOfAll(sections: seq<Spaced>): seq<string>
  {
    if sections == [] then []
    else
      var last := sections[|sections| - 1];
      LinesOfAll(sections[..|sections| - 1]) + (LinesOf(last.section) + last.blanks)
  }

  function Tail(unclosed: Option<Unclosed>): seq<string>
  {
    match unclosed case Some(block) => [block.open] + block.lines case None => []
  }

  function Write(doc: Document): seq<string>
  {
    doc.lead + LinesOfAll(doc.sections) + Tail(doc.unclosed)
  }

  // ----- the blocks of a document -----

  function Trimmed(p: Patterns, lines: seq<string>): (trimmed: seq<string>)
    ensures |trimmed| == |lines|
  {
    seq(|lines|, i requires 0 <= i < |lines| => p.trim(lines[i]))
  }

  function Continuations(p: Patterns, lines: seq<string>): (blocks: seq<Block>)
    ensures |blocks| == |lines|
  {
    seq(|lines|, i requires 0 <= i < |lines| => Continuation(p.trim(lines[i])))
  }

  function HeadingBlocks(level: Level, text: string): seq<Block>
  {
    if level == 1 then [Title(level, text), Rule]
    else if level == 2 then [Spacer, Spacer, Title(level, text), Rule]
    else [Title(level, text)]
  }

  function CodeBlocks(lines: seq<string>): seq<Block>
  {
    if lines == [] then [] else [Code(lines)]
  }

  /** What a section becomes. */
  function BlocksOf(p: Patterns, s: Section): seq<Block>
  {
    match s
    case Para(lines) => [Paragraph(Trimmed(p, lines))]
    case CodeBlock(_, lines, _) => CodeBlocks(lines)
    case HeadingLine(line) =>
      (match p.kind(p.trim(line)) case Heading(level, text) => HeadingBlocks(level, text) case _ => [])
    case ItemLine(line, more) =>
      (match p.kind(p.trim(line))
       case Ordered(number, text) => [OrderedItem(number, text)]
       case Bullet(text) => [BulletItem(text)]
       case _ => []) + Continuations(p, more)
  }

  function BlocksOfAll(p: Patterns, sections: seq<Spaced>): seq<Block>
  {
    if sections == [] then []
    else BlocksOfAll(p, sections[..|sections| - 1]) + BlocksOf(p, sections[|sections| - 1].section)
  }

  function Blocks(p: Patterns, doc: Document): seq<Block>
  {
    BlocksOfAll(p, doc.sections) + if doc.unclosed.Some? then CodeBlocks(doc.unclosed.value.lines) else []
  }

  // ----- reading a document -----

  function FeedLines(p: Patterns, d: Doc, lines: seq<string>): Doc
  {
    if lines == [] then d else Feed(p, FeedLines(p, d, lines[..|lines| - 1]), lines[|lines| - 1])
  }

  lemma {:induction false} FeedSnoc(p: Patterns, d: Doc, lines: seq<string>, last: string)
    ensures FeedLines(p, d, lines + [last]) == Feed(p, FeedLines(p, d, lines), last)
  {
    assert (lines + [last])[..|lines + [last]| - 1] == lines;
  }

  lemma {:induction false} FeedAppend(p: Patterns, d: Doc, a: seq<string>, b: seq<string>)
    ensures FeedLines(p, d, a + b) == FeedLines(p, FeedLines(p, d, a), b)
  {
    if b == [] {
      assert a + b == a;
    } else {
      var front, last := b[..|b| - 1], b[|b| - 1];
      FeedAppend(p, d, a, front);
      FeedSnoc(p, d, a + front, last);
      FeedSnoc(p, FeedLines(p, d, a), front, last);
      SplitLast(b);
      ConcatenationAssociates(a, front, [last]);
    }
  }

  lemma {:induction false} FeedAllIsFed(p: Patterns, lines: seq<string>, i: nat)
    requires i <= |lines|
    ensures FeedAll(p, lines, i) == FeedLines(p, Empty, lines[..i])
  {
    if i > 0 {
      FeedAllIsFed(p, lines, i - 1);
      assert lines[..i][..i - 1] == lines[..i - 1];
    }
  }

  lemma {:induction false} FenceIsSeen(p: Patterns, raw: string)
    ensures IsFence(p.trim(raw)) <==> IsFenceLine(p, raw)
  {
    var line := p.trim(raw);
    if |line| >= 3 {
      assert line[..3] == [line[0], line[1], line[2]];
    }
  }

  lemma {:induction false} IndentIsSeen(raw: string)
    ensures "   " <= raw <==> Indented(raw)
  {
    if |raw| >= 3 {
      assert raw[..3] == [raw[0], raw[1], raw[2]];
    }
  }

  /** Outside code, at this place, with these blocks done and the paragraph under way flushed. */
  predicate At(d: Doc, place: Place, done: seq<Block>)
  {
    && !d.inCode && d.codeLines == [] && FlushParagraph(d).body == done
    && (place != InParagraph ==> d.paragraph == [])
    && (place != InList ==> !d.previousListItem)
  }

  lemma {:induction false} BlanksFed(p: Patterns, d: Doc, place: Place, done: seq<Block>, blanks: seq<string>)
    requires At(d, place, done) && AreBlank(p, blanks)
    ensures At(FeedLines(p, d, blanks), if blanks == [] then place else Fresh, done)
  {
    if blanks != [] {
      var front, last := blanks[..|blanks| - 1], blanks[|blanks| - 1];
      BlanksFed(p, d, place, done, front);
      assert last in blanks;
      FenceIsSeen(p, last);
    }
  }

  /** Lines of a paragraph, none of them taken for the continuation of a list item. */
  lemma {:induction false} ParaFed(p: Patterns, d: Doc, lines: seq<string>)
    requires !d.inCode && lines != [] && forall raw :: raw in lines ==> IsTextLine(p, raw)
    requires !(d.previousListItem && Indented(lines[0]))
    ensures FeedLines(p, d, lines) == d.(paragraph := d.paragraph + Trimmed(p, lines), previousListItem := false)
  {
    var front, last := lines[..|lines| - 1], lines[|lines| - 1];
    assert last in lines;
    FenceIsSeen(p, last);
    IndentIsSeen(last);
    if front != [] {
      ParaFed(p, d, front);
      assert Trimmed(p, lines) == Trimmed(p, front) + [p.trim(last)];
    } else {
      assert Trimmed(p, lines) == [p.trim(last)];
    }
  }

  lemma {:induction false} CodeLinesFed(p: Patterns, d: Doc, lines: seq<string>)
    requires d.inCode && forall raw :: raw in lines ==> !IsFenceLine(p, raw)
    ensures FeedLines(p, d, lines) == d.(codeLines := d.codeLines + lines)
  {
    if lines != [] {
      var front, last := lines[..|lines| - 1], lines[|lines| - 1];
      CodeLinesFed(p, d, front);
      assert last in lines;
      FenceIsSeen(p, last);
      SplitLast(lines);
    }
  }

  lemma {:induction false} OneFed(p: Patterns, d: Doc, raw: string)
    ensures FeedLines(p, d, [raw]) == Feed(p, d, raw)
  {
    assert [raw][..0] == [];
  }

  /** A fence and what follows it, up to a closing fence. */
  lemma {:induction false} OpenCodeFed(p: Patterns, d: Doc, place: Place, done: seq<Block>, open: string,
                                       lines: seq<string>)
    requires At(d, place, done) && IsFenceLine(p, open) && forall raw :: raw in lines ==> !IsFenceLine(p, raw)
    ensures FeedLines(p, d, [open] + lines) == Doc(done, [], true, lines, false)
  {
    FenceIsSeen(p, open);
    OneFed(p, d, open);
    FeedAppend(p, d, [open], lines);
    CodeLinesFed(p, Feed(p, d, open), lines);
    assert [] + lines == lines;
  }

  lemma {:induction false} MoreFed(p: Patterns, d: Doc, done: seq<Block>, more: seq<string>)
    requires At(d, InList, done) && d.previousListItem
    requires forall raw :: raw in more ==> IsTextLine(p, raw) && Indented(raw)
    ensures At(FeedLines(p, d, more), InList, done + Continuations(p, more))
    ensures FeedLines(p, d, more).previousListItem
  {
    if more == [] {
      assert done + [] == done;
    } else {
      var front, last := more[..|more| - 1], more[|more| - 1];
      MoreFed(p, d, done, front);
      assert last in more;
      FenceIsSeen(p, last);
      IndentIsSeen(last);
      assert Continuations(p, more) == Continuations(p, front) + [Continuation(p.trim(last))];
      assert done + Continuations(p, more) == done + Continuations(p, front) + [Continuation(p.trim(last))];
    }
  }

  lemma {:induction false} HeadingFed(p: Patterns, d: Doc, place: Place, done: seq<Block>, line: string)
    requires At(d, place, done) && WellFormed(p, HeadingLine(line))
    ensures At(FeedLines(p, d, [line]), Fresh, done + BlocksOf(p, HeadingLine(line)))
  {
    OneFed(p, d, line);
    FenceIsSeen(p, line);
    var kind := p.kind(p.trim(line));
    assert TitleBlocks(kind.level, kind.text) == HeadingBlocks(kind.level, kind.text);
  }

  lemma {:induction false} FirstItemFed(p: Patterns, d: Doc, place: Place, done: seq<Block>, line: string)
    requires At(d, place, done) && WellFormed(p, ItemLine(line, []))
    ensures At(FeedLines(p, d, [line]), InList, done + BlocksOf(p, ItemLine(line, [])))
    ensures FeedLines(p, d, [line]).previousListItem
  {
    OneFed(p, d, line);
    FenceIsSeen(p, line);
    assert Continuations(p, []) == [];
  }

  lemma {:induction false} ItemFed(p: Patterns, d: Doc, place: Place, done: seq<Block>, line: string,
                                   more: seq<string>)
    requires At(d, place, done) && WellFormed(p, ItemLine(line, more))
    ensures At(FeedLines(p, d, [line] + more), InList, done + BlocksOf(p, ItemLine(line, more)))
  {
    var item := BlocksOf(p, ItemLine(line, []));
    ItemBlocks(p, line, more, done);
    FirstItemFed(p, d, place, done, line);
    MoreFed(p, FeedLines(p, d, [line]), done + item, more);
    FeedAppend(p, d, [line], more);
  }

  lemma {:induction false} ItemBlocks(p: Patterns, line: string, more: seq<string>, done: seq<Block>)
    ensures done + BlocksOf(p, ItemLine(line, [])) + Continuations(p, more) ==
            done + BlocksOf(p, ItemLine(line, more))
  {
    var item := BlocksOf(p, ItemLine(line, []));
    assert Continuations(p, []) == [];
    assert BlocksOf(p, ItemLine(line, more)) == item + Continuations(p, more);
    ConcatenationAssociates(done, item, Continuations(p, more));
  }

  lemma {:induction false} CodeFed(p: Patterns, d: Doc, place: Place, done: seq<Block>, open: string,
                                   lines: seq<string>, close: string)
    requires At(d, place, done) && WellFormed(p, CodeBlock(open, lines, close))
    ensures At(FeedLines(p, d, [open] + lines + [close]), Fresh, done + CodeBlocks(lines))
  {
    OpenCodeFed(p, d, place, done, open, lines);
    FeedAppend(p, d, [open] + lines, [close]);
    OneFed(p, FeedLines(p, d, [open] + lines), close);
    FenceIsSeen(p, close);
  }

  lemma {:induction false} SectionFed(p: Patterns, d: Doc, place: Place, done: seq<Block>, s: Section)
    requires At(d, place, done) && WellFormed(p, s) && MayStand(s, place)
    ensures At(FeedLines(p, d, LinesOf(s)), PlaceAfter(Spaced(s, [])), done + BlocksOf(p, s))
  {
    match s {
      case Para(lines) =>
        ParaFed(p, d, lines);
        assert d.paragraph == [] && [] + Trimmed(p, lines) == Trimmed(p, lines);
      case CodeBlock(open, lines, close) =>
        CodeFed(p, d, place, done, open, lines, close);
      case HeadingLine(line) =>
        HeadingFed(p, d, place, done, line);
      case ItemLine(line, more) =>
        ItemFed(p, d, place, done, line, more);
    }
  }

  lemma FrontStands(p: Patterns, sections: seq<Spaced>)
    requires AllStand(p, sections) && sections != []
    ensures AllStand(p, sections[..|sections| - 1])
  {
    var front := sections[..|sections| - 1];
    forall i | 0 <= i < |front| ensures StandsAt(p, front, i) {
      assert StandsAt(p, sections, i);
    }
  }

  function LastPlace(sections: seq<Spaced>): Place
  {
    if sections == [] then Fresh else PlaceAfter(sections[|sections| - 1])
  }

  lemma {:induction false} SectionsFed(p: Patterns, d: Doc, sections: seq<Spaced>)
    requires At(d, Fresh, []) && AllStand(p, sections)
    ensures At(FeedLines(p, d, LinesOfAll(sections)), LastPlace(sections), BlocksOfAll(p, sections))
  {
    if sections != [] {
      var front, last := sections[..|sections| - 1], sections[|sections| - 1];
      FrontStands(p, sections);
      SectionsFed(p, d, front);
      assert StandsAt(p, sections, |front|);
      SpacedFed(p, FeedLines(p, d, LinesOfAll(front)), LastPlace(front), BlocksOfAll(p, front), last);
      FeedAppend(p, d, LinesOfAll(front), LinesOf(last.section) + last.blanks);
    }
  }

  /** A section with its blank lines. */
  lemma {:induction false} SpacedFed(p: Patterns, d: Doc, place: Place, done: seq<Block>, s: Spaced)
    requires At(d, place, done) && IsSpaced(p, s) && MayStand(s.section, place)
    ensures At(FeedLines(p, d, LinesOf(s.section) + s.blanks), PlaceAfter(s), done + BlocksOf(p, s.section))
  {
    var after := FeedLines(p, d, LinesOf(s.section));
    SectionFed(p, d, place, done, s.section);
    BlanksFed(p, after, PlaceAfter(Spaced(s.section, [])), done + BlocksOf(p, s.section), s.blanks);
    FeedAppend(p, d, LinesOf(s.section), s.blanks);
  }

  /** A written document is read back: its blocks are those of its sections, in order and no others. */
  lemma {:induction false} DocumentReadsBack(p: Patterns, doc: Document)
    requires IsDocument(p, doc)
    ensures Finish(FeedAll(p, Write(doc), |Write(doc)|)) == Blocks(p, doc)
  {
    var lines := LinesOfAll(doc.sections);
    var started := FeedLines(p, Empty, doc.lead);
    var before := FeedLines(p, started, lines);
    BlanksFed(p, Empty, Fresh, [], doc.lead);
    SectionsFed(p, started, doc.sections);
    FeedAllIsFed(p, Write(doc), |Write(doc)|);
    assert Write(doc)[..|Write(doc)|] == Write(doc);
    FeedAppend(p, Empty, doc.lead, lines);
    FeedAppend(p, Empty, doc.lead + lines, Tail(doc.unclosed));
    match doc.unclosed {
      case Some(block) =>
        OpenCodeFed(p, before, LastPlace(doc.sections), BlocksOfAll(p, doc.sections), block.open, block.lines);
      case None =>
        assert Blocks(p, doc) == BlocksOfAll(p, doc.sections);
    }
  }

  // ----- every text is a document -----

  /** One more section, with no blank line after it yet. */
  lemma {:induction false} AddSection(p: Patterns, doc: Document, s: Section) returns (longer: Document)
    requires IsDocument(p, doc) && doc.unclosed.None? && WellFormed(p, s) && MayStand(s, LastPlace(doc.sections))
    ensures IsDocument(p, longer) && longer.unclosed.None?
    ensures Write(longer) == Write(doc) + LinesOf(s)
  {
    var sections := doc.sections + [Spaced(s, [])];
    longer := doc.(sections := sections);
    forall i | 0 <= i < |sections| ensures StandsAt(p, sections, i) {
      if i < |doc.sections| {
        assert StandsAt(p, doc.sections, i);
      }
    }
    assert sections[..|sections| - 1] == doc.sections;
    assert LinesOf(s) + [] == LinesOf(s);
  }

  /** The last section changed, and the lines it now stands for. */
  lemma {:induction false} ChangeLast(p: Patterns, doc: Document, s: Spaced, line: string) returns (longer: Document)
    requires IsDocument(p, doc) && doc.unclosed.None? && doc.sections != [] && IsSpaced(p, s)
    requires MayStand(s.section, LastPlace(doc.sections[..|doc.sections| - 1]))
    requires var last := doc.sections[|doc.sections| - 1];
      LinesOf(s.section) + s.blanks == LinesOf(last.section) + last.blanks + [line]
    ensures IsDocument(p, longer) && longer.unclosed.None?
    ensures Write(longer) == Write(doc) + [line]
  {
    var n := |doc.sections| - 1;
    var sections := doc.sections[..n] + [s];
    longer := doc.(sections := sections);
    forall i | 0 <= i < |sections| ensures StandsAt(p, sections, i) {
      assert StandsAt(p, doc.sections, i);
    }
    assert sections[..|sections| - 1] == doc.sections[..n];
  }

  lemma {:induction false} AddBlank(p: Patterns, doc: Document, line: string) returns (longer: Document)
    requires IsDocument(p, doc) && doc.unclosed.None? && p.trim(line) == ""
    ensures IsDocument(p, longer) && longer.unclosed.None? && Write(longer) == Write(doc) + [line]
  {
    if doc.sections == [] {
      longer := doc.(lead := doc.lead + [line]);
    } else {
      var n := |doc.sections| - 1;
      var last := doc.sections[n];
      assert StandsAt(p, doc.sections, n);
      assert LinesOf(last.section) + (last.blanks + [line]) == LinesOf(last.section) + last.blanks + [line];
      longer := ChangeLast(p, doc, last.(blanks := last.blanks + [line]), line);
    }
  }

  /** A text line continues a paragraph or a list item, or starts a paragraph. */
  lemma {:induction false} AddText(p: Patterns, doc: Document, line: string) returns (longer: Document)
    requires IsDocument(p, doc) && doc.unclosed.None? && IsTextLine(p, line)
    ensures IsDocument(p, longer) && longer.unclosed.None? && Write(longer) == Write(doc) + [line]
  {
    var place := LastPlace(doc.sections);
    if place == Fresh || (place == InList && !Indented(line)) {
      longer := AddSection(p, doc, Para([line]));
    } else {
      var n := |doc.sections| - 1;
      var last := doc.sections[n];
      assert StandsAt(p, doc.sections, n);
      match last.section {
        case Para(lines) =>
          longer := ChangeLast(p, doc, Spaced(Para(lines + [line]), []), line);
        case ItemLine(item, more) =>
          assert [item] + (more + [line]) == [item] + more + [line];
          longer := ChangeLast(p, doc, Spaced(ItemLine(item, more + [line]), []), line);
      }
    }
  }

  lemma {:induction false} AddLine(p: Patterns, doc: Document, line: string) returns (longer: Document)
    requires IsDocument(p, doc)
    ensures IsDocument(p, longer) && Write(longer) == Write(doc) + [line]
  {
    match doc.unclosed {
      case Some(block) =>
        longer := AddToCode(p, doc, block, line);
      case None =>
        if p.trim(line) == "" {
          longer := AddBlank(p, doc, line);
        } else if IsFenceLine(p, line) {
          longer := doc.(unclosed := Some(Unclosed(line, [])));
        } else {
          match p.kind(p.trim(line)) {
            case Heading(_, _) => longer := AddSection(p, doc, HeadingLine(line));
            case Ordered(_, _) => longer := AddItem(p, doc, line);
            case Bullet(_) => longer := AddItem(p, doc, line);
            case Plain => longer := AddText(p, doc, line);
          }
        }
    }
  }

  lemma {:induction false} AddItem(p: Patterns, doc: Document, line: string) returns (longer: Document)
    requires IsDocument(p, doc) && doc.unclosed.None? && WellFormed(p, ItemLine(line, []))
    ensures IsDocument(p, longer) && Write(longer) == Write(doc) + [line]
  {
    longer := AddSection(p, doc, ItemLine(line, []));
    assert [line] + [] == [line];
  }

  /** The next line of an open code block closes it or belongs to it. */
  lemma {:induction false} AddToCode(p: Patterns, doc: Document, block: Unclosed, line: string)
      returns (longer: Document)
    requires IsDocument(p, doc) && doc.unclosed == Some(block)
    ensures IsDocument(p, longer) && Write(longer) == Write(doc) + [line]
  {
    if IsFenceLine(p, line) {
      var closed := doc.(unclosed := None);
      longer := AddSection(p, closed, CodeBlock(block.open, block.lines, line));
      assert Write(closed) + ([block.open] + block.lines + [line]) == Write(doc) + [line];
    } else {
      longer := doc.(unclosed := Some(block.(lines := block.lines + [line])));
      assert [block.open] + (block.lines + [line]) == [block.open] + block.lines + [line];
    }
  }

  /** Every text is a document, so that what it becomes is what its sections become. */
  lemma {:induction false} EveryTextIsADocument(p: Patterns, lines: seq<string>) returns (doc: Document)
    ensures IsDocument(p, doc) && Write(doc) == lines
    ensures Finish(FeedAll(p, lines, |lines|)) == Blocks(p, doc)
  {
    doc := AsDocument(p, lines);
    DocumentReadsBack(p, doc);
  }

  lemma {:induction false} AsDocument(p: Patterns, lines: seq<string>) returns (doc: Document)
    ensures IsDocument(p, doc) && Write(doc) == lines
  {
    if lines == [] {
      doc := Document([], [], None);
    } else {
      var front := AsDocument(p, lines[..|lines| - 1]);
      doc := AddLine(p, front, lines[|lines| - 1]);
      SplitLast(lines);
    }
  }

  // ----- the HTML of a block -----

  lemma {:induction false} OnePart(part: Part)
    ensures RenderAll([part]) == RenderPart(part)
  {
    assert [part][1..] == [];
  }

  lemma {:induction false} TwoParts(first: Part, second: Part)
    ensures RenderAll([first, second]) == RenderPart(first) + RenderPart(second)
  {
    assert [first, second][1..] == [second];
    OnePart(second);
  }

  /** An element with its text, and a class if it has one. */
  function Element(tag: string, class_: string, inner: string): string
  {
    "<" + (tag + if class_ == "" then "" else " class=\"" + class_ + "\"") + ">" + inner + ("<" + ("/" + tag) + ">")
  }

  lemma {:induction false} ElementHtml(tag: string, class_: string, attributes: string, inner: seq<Part>)
    requires attributes == if class_ == "" then "" else " class=\"" + class_ + "\""
    ensures RenderAll(Wrapped(tag, attributes, inner)) == Element(tag, class_, RenderAll(inner))
  {
    WrappedHtml(tag, attributes, inner);
  }

  /** The classes of the page, as attributes. */
  lemma {:induction false} Classes()
    ensures " class=\"section-spacer\"" == " class=\"" + "section-spacer" + "\""
    ensures " class=\"heading-rule\"" == " class=\"" + "heading-rule" + "\""
    ensures " class=\"list-item\"" == " class=\"" + "list-item" + "\""
    ensures " class=\"list-continuation\"" == " class=\"" + "list-continuation" + "\""
    ensures " class=\"marker\"" == " class=\"" + "marker" + "\""
  {
  }

  /** Paragraphs and code blocks: the lines joined, with inline markup or only escaped. */
  lemma {:induction false} TextHtml(lines: seq<string>)
    ensures RenderBlock(Paragraph(lines)) == Element("p", "", Join(Inlines(lines), ' '))
    ensures RenderBlock(Code(lines)) == Element("pre", "", Element("code", "", Escape(Join(lines, '\n'))))
  {
    JoinedInlines(lines);
    ElementHtml("p", "", "", Between(Markups(lines), ' '));
    JoinedLiterals(lines);
    ElementHtml("code", "", "", Between(Literals(lines), '\n'));
    ElementHtml("pre", "", "", Wrapped("code", "", Between(Literals(lines), '\n')));
  }

  /** The heading's level names its tag. */
  lemma {:induction false} TitleHtml(level: Level, text: string)
    ensures RenderBlock(Title(level, text)) == Element("h" + ["123456"[level - 1]], "", RenderInline(text))
  {
    assert Digit(level) == "123456"[level - 1];
    OnePart(Markup(text));
    ElementHtml("h" + [Digit(level)], "", "", [Markup(text)]);
  }

  lemma {:induction false} MarkedHtml(marker: seq<Part>, text: string)
    ensures RenderAll(ItemParts(marker, text)) ==
            Element("p", "list-item", Element("span", "marker", RenderAll(marker)) + (" " + RenderInline(text)))
  {
    var span := Wrapped("span", " class=\"marker\"", marker);
    Classes();
    ElementHtml("span", "marker", " class=\"marker\"", marker);
    TwoParts(Fixed(" "), Markup(text));
    RenderAppend(span, [Fixed(" "), Markup(text)]);
    ElementHtml("p", "list-item", " class=\"list-item\"", span + [Fixed(" "), Markup(text)]);
  }

  /** List items show their marker, and like their continuations their text with inline markup. */
  lemma {:induction false} ItemHtml(number: string, text: string)
    ensures RenderBlock(OrderedItem(number, text)) ==
            Element("p", "list-item", Element("span", "marker", Escape(number) + ".") + (" " + RenderInline(text)))
    ensures RenderBlock(BulletItem(text)) ==
            Element("p", "list-item", Element("span", "marker", "&bull;") + (" " + RenderInline(text)))
    ensures RenderBlock(Continuation(text)) == Element("p", "list-continuation", RenderInline(text))
  {
    TwoParts(Literal(number), Fixed("."));
    MarkedHtml([Literal(number), Fixed(".")], text);
    OnePart(Fixed("&bull;"));
    MarkedHtml([Fixed("&bull;")], text);
    OnePart(Markup(text));
    Classes();
    ElementHtml("p", "list-continuation", " class=\"list-continuation\"", [Markup(text)]);
  }

  /** The spacer above a second-level heading, and the rule of 85 dashes below the first two levels. */
  lemma {:induction false} DecorationHtml() returns (dashes: string)
    ensures |dashes| == 85 && forall dash :: dash in dashes ==> dash == '\U{2500}'
    ensures RenderBlock(Rule) == Element("p", "heading-rule", dashes)
    ensures RenderBlock(Spacer) == Element("p", "section-spacer", "&nbsp;")
  {
    dashes := Dashes(HEADING_RULE_LENGTH);
    Classes();
    OnePart(Fixed(dashes));
    ElementHtml("p", "heading-rule", " class=\"heading-rule\"", [Fixed(dashes)]);
    OnePart(Fixed("&nbsp;"));
    ElementHtml("p", "section-spacer", " class=\"section-spacer\"", [Fixed("&nbsp;")]);
  }
}
