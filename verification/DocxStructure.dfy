/** The structure of a DOCX document (`extract_docx_structure`): contents entries and
    headings read from styled paragraphs, ids, and the links between them. */
module DocxStructure {
  import opened ContentsLine
  import opened Decimal
  import opened HeadingIds
  import opened Options
  import opened Sequences
  import opened Text
  import opened Titles
  import ContentsLinking

  type Mark = ContentsLinking.Mark

  datatype Paragraph = Paragraph(text: string, style: string)

  datatype TocEntry = TocEntry(level: nat, title: string, number: Option<string>, page: Option<nat>, nodeId: Option<string>)

  datatype StructureNode = StructureNode(id: string, level: nat, text: string, number: Option<string>)

  datatype DocumentStructure = DocumentStructure(nodes: seq<StructureNode>, toc: seq<TocEntry>, tocParagraphs: set<nat>)

  // ----- Styles -----

  /** The level in a trimmed name, whatever its case. */
  function LevelIn(core: string, word: string): Option<nat> {
    var name := LowerAll(core);
    if !StartsWith(name, word) then None
    else
      var digit := LStrip(name[|word|..]);
      if |digit| == 1 && '1' <= digit[0] <= '9' then Some(digit[0] as int - '0' as int) else None
  }

  /** The level in a style's name such as "Heading 3" or "toc3": the word, white space, one
      digit from 1 to 9, and nothing else. */
  function StyleLevel(style: string, word: string): Option<nat> {
    LevelIn(Strip(style), word)
  }

  /** Between `lo` and `hi` stand the word in any case, white space, and the digit `n`; around
      them there is white space only. */
  predicate NamesLevelAt(style: string, word: string, n: nat, lo: nat, hi: nat) {
    && 1 <= n <= 9 && lo + |word| < hi <= |style|
    && (forall p | 0 <= p < |style| && !(lo <= p < hi) :: IsSpace(style[p]))
    && (forall p | lo <= p < lo + |word| :: LowerOf(word[p - lo], style[p]))
    && (forall p | lo + |word| <= p < hi - 1 :: IsSpace(style[p]))
    && style[hi - 1] as int == '0' as int + n
  }

  ghost predicate NamesLevel(style: string, word: string, n: nat) {
    exists lo: nat, hi: nat :: NamesLevelAt(style, word, n, lo, hi)
  }

  lemma LowerKeeps(c: char)
    ensures IsSpace(Lower(c)) <==> IsSpace(c)
    ensures '1' <= Lower(c) <= '9' || '1' <= c <= '9' ==> Lower(c) == c
    ensures forall d :: LowerOf(d, c) <==> d == Lower(c)
  {
    LowerIsLowerOf(c);
  }

  /** White space, then one digit. */
  lemma {:induction false} DigitLeft(s: string)
    ensures |LStrip(s)| == 1 <==> s != "" && !IsSpace(s[|s| - 1]) && forall p | 0 <= p < |s| - 1 :: IsSpace(s[p])
    ensures |LStrip(s)| == 1 ==> LStrip(s)[0] == s[|s| - 1]
  {
    hide IsSpace;
    var n := LStripSuffix(s);
  }

  lemma LevelEnds(style: string, word: string, n: nat, lo: nat, hi: nat)
    requires word != "" && (forall c | c in word :: !IsSpace(c)) && NamesLevelAt(style, word, n, lo, hi)
    ensures lo < hi <= |style| && !IsSpace(style[lo]) && !IsSpace(style[hi - 1])
    ensures forall p | 0 <= p < |style| && !(lo <= p < hi) :: IsSpace(style[p])
  {
    assert word[0] in word && LowerOf(word[0], style[lo]);
    LowerKeeps(style[lo]);
  }

  lemma LevelInIff(core: string, word: string, n: nat)
    requires Trimmed(core)
    ensures LevelIn(core, word) == Some(n) <==> NamesLevelAt(core, word, n, 0, |core|)
  {
    var name := LowerAll(core);
    forall p | 0 <= p < |core|
      ensures IsSpace(name[p]) <==> IsSpace(core[p])
      ensures '1' <= name[p] <= '9' || '1' <= core[p] <= '9' ==> name[p] == core[p]
      ensures forall d :: LowerOf(d, core[p]) <==> d == name[p]
    {
      LowerKeeps(core[p]);
    }
    hide LStrip, IsSpace, Lower, LowerOf;
    if word <= name {
      DigitLeft(name[|word|..]);
    }
  }

  lemma AroundName(style: string, word: string, n: nat, lo: nat, hi: nat)
    requires lo <= hi <= |style| && forall p | 0 <= p < |style| && !(lo <= p < hi) :: IsSpace(style[p])
    ensures NamesLevelAt(style[lo..hi], word, n, 0, hi - lo) <==> NamesLevelAt(style, word, n, lo, hi)
  {
    hide IsSpace, LowerOf;
    var core := style[lo..hi];
    if lo + |word| < hi {
      assert forall p | 0 <= p < |core| :: core[p] == style[lo + p];
      assert forall p | lo <= p < hi :: style[p] == core[p - lo];
    }
  }

  /** A style gives a level exactly when it is the word and the level, whatever the case and
      the white space. */
  lemma StyleLevelIff(style: string, word: string, n: nat)
    requires word != "" && forall c | c in word :: !IsSpace(c)
    ensures StyleLevel(style, word) == Some(n) <==> NamesLevel(style, word, n)
  {
    StripTrims(style);
    var lo, hi := StripMiddle(style);
    hide LevelIn, Strip, NamesLevelAt, IsSpace;
    LevelInIff(style[lo..hi], word, n);
    AroundName(style, word, n, lo, hi);
    forall l: nat, h: nat | NamesLevelAt(style, word, n, l, h) ensures l == lo && h == hi {
      LevelEnds(style, word, n, l, h);
    }
  }

  // ----- What a document declares -----

  /** The contents lines, with their levels: paragraphs in a contents style. */
  function TocLines(ps: seq<Paragraph>): seq<(nat, Line)> {
    if ps == [] then []
    else TocLines(ps[..|ps| - 1]) + TocLineOf(ps[|ps| - 1])
  }

  function TocLineOf(p: Paragraph): (lines: seq<(nat, Line)>)
    ensures |lines| <= 1
  {
    var text := Strip(p.text);
    var level := StyleLevel(p.style, "toc");
    if text == "" || level.None? || ParseTocLine(text).title == "" then []
    else [(level.value, ParseTocLine(text))]
  }

  /** The headings, with their levels: paragraphs in a heading style. */
  function Headings(ps: seq<Paragraph>): seq<(nat, string)> {
    if ps == [] then []
    else Headings(ps[..|ps| - 1]) + HeadingOf(ps[|ps| - 1])
  }

  function HeadingOf(p: Paragraph): (headings: seq<(nat, string)>)
    ensures |headings| <= 1
  {
    var text := Strip(p.text);
    if text == "" || StyleLevel(p.style, "toc").Some? || StyleLevel(p.style, "heading").None? then []
    else [(StyleLevel(p.style, "heading").value, text)]
  }

  predicate IsTocParagraph(p: Paragraph) {
    Strip(p.text) != "" && StyleLevel(p.style, "toc").Some?
  }

  /** The positions of the contents page's paragraphs. */
  function TocParagraphs(ps: seq<Paragraph>): set<nat> {
    if ps == [] then {}
    else TocParagraphs(ps[..|ps| - 1]) + (if IsTocParagraph(ps[|ps| - 1]) then {|ps| - 1} else {})
  }

  function EntryOf(line: (nat, Line)): TocEntry {
    TocEntry(line.0, line.1.title, line.1.number, line.1.page, None)
  }

  function EntriesOf(lines: seq<(nat, Line)>): (entries: seq<TocEntry>)
    ensures |entries| == |lines| && forall i | 0 <= i < |lines| :: entries[i] == EntryOf(lines[i])
  {
    seq(|lines|, i requires 0 <= i < |lines| => EntryOf(lines[i]))
  }

  function HeadingTexts(hs: seq<(nat, string)>): seq<string> {
    seq(|hs|, i requires 0 <= i < |hs| => hs[i].1)
  }

  /** The entries and nodes as read, before linking. */
  predicate Reads(ps: seq<Paragraph>, toc: seq<TocEntry>, nodes: seq<StructureNode>, tocParagraphs: set<nat>) {
    && |toc| == |TocLines(ps)|
    && (forall a | 0 <= a < |toc| :: toc[a] == EntryOf(TocLines(ps)[a]))
    && |nodes| == |Headings(ps)|
    && (forall h | 0 <= h < |nodes| ::
         nodes[h] == StructureNode(IdAt(Bases(HeadingTexts(Headings(ps))), h), Headings(ps)[h].0, Headings(ps)[h].1, None))
    && tocParagraphs == TocParagraphs(ps)
  }

  // ----- Reading -----

  function BasesOf(ps: seq<Paragraph>): seq<string> {
    Bases(HeadingTexts(Headings(ps)))
  }

  lemma TextsStep(hs: seq<(nat, string)>, h: (nat, string))
    ensures Bases(HeadingTexts(hs + [h])) == Bases(HeadingTexts(hs)) + [Base(h.1)]
  {
    assert HeadingTexts(hs + [h]) == HeadingTexts(hs) + [h.1];
  }

  /** A paragraph that is no heading may add a contents entry. */
  lemma ReadsNoHeading(ps: seq<Paragraph>, p: Paragraph, toc: seq<TocEntry>, nodes: seq<StructureNode>, tocParagraphs: set<nat>)
    requires Reads(ps, toc, nodes, tocParagraphs) && HeadingOf(p) == []
    ensures var line := TocLineOf(p);
      Reads(ps + [p], toc + EntriesOf(line), nodes,
            tocParagraphs + (if IsTocParagraph(p) then {|ps|} else {}))
    ensures BasesOf(ps + [p]) == BasesOf(ps)
  {
    hide TocLineOf, HeadingOf, IdAt, Bases, EntryOf, IsTocParagraph;
    assert (ps + [p])[..|ps|] == ps;
    assert Headings(ps + [p]) == Headings(ps);
  }

  /** A heading adds a node, numbered by the occurrences of its base so far. */
  lemma ReadsHeading(ps: seq<Paragraph>, p: Paragraph, toc: seq<TocEntry>, nodes: seq<StructureNode>, tocParagraphs: set<nat>)
    requires Reads(ps, toc, nodes, tocParagraphs)
    requires |HeadingOf(p)| == 1 && TocLineOf(p) == [] && !IsTocParagraph(p)
    ensures var h := HeadingOf(p)[0];
      Reads(ps + [p], toc,
            nodes + [StructureNode(Numbered(Base(h.1), Count(BasesOf(ps), Base(h.1)) + 1), h.0, h.1, None)], tocParagraphs)
    ensures BasesOf(ps + [p]) == BasesOf(ps) + [Base(HeadingOf(p)[0].1)]
  {
    hide TocLineOf, HeadingOf, IdAt, Bases, EntryOf, IsTocParagraph, Numbered, Base;
    var h := HeadingOf(p)[0];
    assert (ps + [p])[..|ps|] == ps;
    assert TocLines(ps + [p]) == TocLines(ps);
    assert Headings(ps + [p]) == Headings(ps) + [h];
    TextsStep(Headings(ps), h);
    IdsPrefix(BasesOf(ps), Base(h.1));
    BasesLength(HeadingTexts(Headings(ps)));
  }

  lemma BasesLength(texts: seq<string>)
    ensures |Bases(texts)| == |texts|
  {
  }

  /** The paragraph loop: entries, nodes and contents paragraphs, with the ids handed
      out as headings are met. */
  method ReadParagraphs(ps: seq<Paragraph>) returns (toc: seq<TocEntry>, nodes: seq<StructureNode>, tocParagraphs: set<nat>)
    ensures Reads(ps, toc, nodes, tocParagraphs)
  {
    hide Base, Numbered, ParseTocLine, StyleLevel, Strip, Counts, Reads, BasesOf, Count;
    toc, nodes, tocParagraphs := [], [], {};
    var seenIds: map<string, nat> := map[];
    NothingRead();
    for index := 0 to |ps|
      invariant Reads(ps[..index], toc, nodes, tocParagraphs)
      invariant Counts(seenIds, BasesOf(ps[..index]))
    {
      var p := ps[index];
      ghost var before := ps[..index];
      assert ps[..index + 1] == before + [p];
      var text := Strip(p.text);
      if text == "" {
        ReadsNoHeading(before, p, toc, nodes, tocParagraphs);
        assert toc + [] == toc && tocParagraphs + {} == tocParagraphs;
        continue;
      }
      var tocLevel := StyleLevel(p.style, "toc");
      if tocLevel.Some? {
        ReadsNoHeading(before, p, toc, nodes, tocParagraphs);
        var line := ParseTocLine(text);
        if line.title != "" {
          OneEntry((tocLevel.value, line));
          toc := toc + [TocEntry(tocLevel.value, line.title, line.number, line.page, None)];
        } else {
          assert toc + [] == toc;
        }
        tocParagraphs := tocParagraphs + {index};
        continue;
      }
      var level := StyleLevel(p.style, "heading");
      if level.None? {
        ReadsNoHeading(before, p, toc, nodes, tocParagraphs);
        assert toc + [] == toc && tocParagraphs + {} == tocParagraphs;
        continue;
      }
      ReadsHeading(before, p, toc, nodes, tocParagraphs);
      CountsStep(seenIds, BasesOf(before), Base(text));
      CountsAt(seenIds, BasesOf(before), Base(text));
      var id;
      id, seenIds := StableId(text, seenIds);
      nodes := nodes + [StructureNode(id, level.value, text, None)];
    }
    assert ps[..|ps|] == ps;
  }

  lemma OneEntry(line: (nat, Line))
    ensures EntriesOf([line]) == [TocEntry(line.0, line.1.title, line.1.number, line.1.page, None)]
  {
  }

  lemma NothingRead()
    ensures Reads([], [], [], {}) && Counts(map[], BasesOf([]))
  {
  }

  // ----- What is read, in terms of the paragraphs -----

  ghost predicate IsStyled(p: Paragraph, word: string) {
    Strip(p.text) != "" && exists n: nat :: NamesLevel(p.style, word, n)
  }

  ghost predicate Ascending(at: seq<nat>, limit: nat) {
    && (forall i | 0 <= i < |at| :: at[i] < limit)
    && forall i, j | 0 <= i < j < |at| :: at[i] < at[j]
  }

  /** The headings are the stripped texts of the paragraphs in a heading style, in order, and
      of all of them that are not blank. */
  ghost predicate HeadingsFrom(ps: seq<Paragraph>, hs: seq<(nat, string)>, at: seq<nat>) {
    && |at| == |hs| && Ascending(at, |ps|)
    && (forall i | 0 <= i < |at| ::
         hs[i].1 != "" && hs[i].1 == Strip(ps[at[i]].text) && NamesLevel(ps[at[i]].style, "heading", hs[i].0))
    && forall k | 0 <= k < |ps| && IsStyled(ps[k], "heading") :: k in at
  }

  /** The contents lines are the parsed paragraphs in a contents style, in order, and all of
      them that have a title. */
  ghost predicate LinesFrom(ps: seq<Paragraph>, lines: seq<(nat, Line)>, at: seq<nat>) {
    && |at| == |lines| && Ascending(at, |ps|)
    && (forall i | 0 <= i < |at| ::
         && IsStyled(ps[at[i]], "toc") && NamesLevel(ps[at[i]].style, "toc", lines[i].0)
         && lines[i].1 == ParseTocLine(Strip(ps[at[i]].text)) && lines[i].1.title != "")
    && forall k | 0 <= k < |ps| && IsStyled(ps[k], "toc") && ParseTocLine(Strip(ps[k].text)).title != "" :: k in at
  }

  lemma WordsOfStyles()
    ensures forall c | c in "toc" + "heading" :: !IsSpace(c)
  {
  }

  lemma StyleFound(style: string, word: string)
    requires word != "" && forall c | c in word :: !IsSpace(c)
    ensures StyleLevel(style, word).Some? <==> exists n: nat :: NamesLevel(style, word, n)
    ensures StyleLevel(style, word).Some? ==> NamesLevel(style, word, StyleLevel(style, word).value)
  {
    hide StyleLevel, NamesLevel;
    if StyleLevel(style, word).Some? {
      StyleLevelIff(style, word, StyleLevel(style, word).value);
    }
    forall n: nat ensures NamesLevel(style, word, n) ==> StyleLevel(style, word) == Some(n) {
      StyleLevelIff(style, word, n);
    }
  }

  lemma FirstOfWord(name: string, word: string)
    requires word != "" && StartsWith(name, word)
    ensures name != "" && name[0] == word[0]
  {
  }

  lemma NotBoth(style: string)
    ensures StyleLevel(style, "toc").None? || StyleLevel(style, "heading").None?
  {
    var name := LowerAll(Strip(style));
    if StartsWith(name, "toc") && StartsWith(name, "heading") {
      FirstOfWord(name, "toc");
      FirstOfWord(name, "heading");
    }
  }

  lemma StyledIff(p: Paragraph)
    ensures IsTocParagraph(p) <==> IsStyled(p, "toc")
    ensures HeadingOf(p) != [] <==> IsStyled(p, "heading")
    ensures HeadingOf(p) != [] ==>
      |HeadingOf(p)| == 1 && HeadingOf(p)[0].1 == Strip(p.text) && NamesLevel(p.style, "heading", HeadingOf(p)[0].0)
    ensures TocLineOf(p) != [] <==> IsStyled(p, "toc") && ParseTocLine(Strip(p.text)).title != ""
    ensures TocLineOf(p) != [] ==>
      && |TocLineOf(p)| == 1 && TocLineOf(p)[0].1 == ParseTocLine(Strip(p.text))
      && NamesLevel(p.style, "toc", TocLineOf(p)[0].0)
  {
    WordsOfStyles();
    hide StyleLevel, NamesLevel, ParseTocLine, Strip;
    StyleFound(p.style, "toc");
    StyleFound(p.style, "heading");
    NotBoth(p.style);
  }

  function FirstOf<T>(found: seq<T>): Option<T> {
    if found == [] then None else Some(found[0])
  }

  lemma {:induction false} HeadingsAreFound(ps: seq<Paragraph>)
    ensures Headings(ps) == FilterMap(p => FirstOf(HeadingOf(p)), ps)
  {
    if ps != [] {
      var before, p := ps[..|ps| - 1], ps[|ps| - 1];
      hide HeadingOf, FilterMap;
      HeadingsAreFound(before);
      assert before + [p] == ps;
      FilterMapAppend(p => FirstOf(HeadingOf(p)), before, p);
    } else {
      FilterMapOne(p => FirstOf(HeadingOf(p)), Paragraph("", ""));
    }
  }

  lemma {:induction false} TocLinesAreFound(ps: seq<Paragraph>)
    ensures TocLines(ps) == FilterMap(p => FirstOf(TocLineOf(p)), ps)
  {
    if ps != [] {
      var before, p := ps[..|ps| - 1], ps[|ps| - 1];
      hide TocLineOf, FilterMap;
      TocLinesAreFound(before);
      assert before + [p] == ps;
      FilterMapAppend(p => FirstOf(TocLineOf(p)), before, p);
    } else {
      FilterMapOne(p => FirstOf(TocLineOf(p)), Paragraph("", ""));
    }
  }

  lemma {:induction false} TocParagraphsAreFound(ps: seq<Paragraph>)
    ensures forall k :: k in TocParagraphs(ps) <==> 0 <= k < |ps| && IsTocParagraph(ps[k])
  {
    if ps != [] {
      var before := ps[..|ps| - 1];
      TocParagraphsAreFound(before);
      hide IsTocParagraph;
      assert forall k | 0 <= k < |before| :: before[k] == ps[k];
    }
  }

  /** What the paragraph loop collects. */
  lemma ReadsTheStyled(ps: seq<Paragraph>) returns (headingsAt: seq<nat>, linesAt: seq<nat>)
    ensures HeadingsFrom(ps, Headings(ps), headingsAt) && LinesFrom(ps, TocLines(ps), linesAt)
    ensures forall k :: k in TocParagraphs(ps) <==> 0 <= k < |ps| && IsStyled(ps[k], "toc")
  {
    HeadingsAreFound(ps);
    TocLinesAreFound(ps);
    TocParagraphsAreFound(ps);
    headingsAt := FilterMapPositions(p => FirstOf(HeadingOf(p)), ps);
    linesAt := FilterMapPositions(p => FirstOf(TocLineOf(p)), ps);
    hide TocLineOf, HeadingOf, IsTocParagraph, IsStyled, NamesLevel, Strip, ParseTocLine, FilterMap, Headings, TocLines, TocParagraphs;
    forall k | 0 <= k < |ps|
      ensures IsTocParagraph(ps[k]) <==> IsStyled(ps[k], "toc")
      ensures HeadingOf(ps[k]) != [] <==> IsStyled(ps[k], "heading")
      ensures TocLineOf(ps[k]) != [] <==> IsStyled(ps[k], "toc") && ParseTocLine(Strip(ps[k].text)).title != ""
    {
      StyledIff(ps[k]);
    }
    forall i | 0 <= i < |headingsAt| ensures var h := Headings(ps)[i]; var p := ps[headingsAt[i]];
      h.1 != "" && h.1 == Strip(p.text) && NamesLevel(p.style, "heading", h.0)
    {
      StyledIff(ps[headingsAt[i]]);
      assert IsStyled(ps[headingsAt[i]], "heading") by { assert HeadingOf(ps[headingsAt[i]]) != []; }
      StyledIsNotBlank(ps[headingsAt[i]], "heading");
    }
    forall i | 0 <= i < |linesAt| ensures var line := TocLines(ps)[i]; var p := ps[linesAt[i]];
      IsStyled(p, "toc") && NamesLevel(p.style, "toc", line.0) && line.1 == ParseTocLine(Strip(p.text)) && line.1.title != ""
    {
      StyledIff(ps[linesAt[i]]);
    }
  }

  lemma StyledIsNotBlank(p: Paragraph, word: string)
    requires IsStyled(p, word)
    ensures Strip(p.text) != ""
  {
  }

  // ----- Linking -----

  function NodeMarks(nodes: seq<StructureNode>): seq<Mark> {
    seq(|nodes|, h requires 0 <= h < |nodes| => ContentsLinking.Mark(NormalizeTitle(nodes[h].text), nodes[h].level))
  }

  function EntryMarks(toc: seq<TocEntry>): seq<Mark> {
    seq(|toc|, a requires 0 <= a < |toc| => ContentsLinking.Mark(NormalizeTitle(toc[a].title), toc[a].level))
  }

  /** A number that Python counts as true: present and not empty. */
  predicate Truthy(number: Option<string>) {
    number.Some? && number.value != ""
  }

  /** The first `n` entries carry the id of the heading they are linked to; those
      headings take the entry's number unless they had one; the rest is unchanged. */
  predicate Applied(toc: seq<TocEntry>, nodes: seq<StructureNode>, links: seq<Option<nat>>,
                    toc': seq<TocEntry>, nodes': seq<StructureNode>, n: nat)
    requires n <= |links| == |toc| && forall a | 0 <= a < |links| && links[a].Some? :: links[a].value < |nodes|
  {
    && |toc'| == |toc| && |nodes'| == |nodes|
    && (forall a | 0 <= a < |toc| ::
         toc'[a] == if a < n && links[a].Some? then toc[a].(nodeId := Some(nodes[links[a].value].id)) else toc[a])
    && (forall a | 0 <= a < n && links[a].Some? ::
         nodes'[links[a].value] == nodes[links[a].value].(
           number := if Truthy(toc[a].number) && !Truthy(nodes[links[a].value].number) then toc[a].number else nodes[links[a].value].number))
    && (forall h | 0 <= h < |nodes| && Some(h) !in links[..n] :: nodes'[h] == nodes[h])
  }

  /** The links of the greedy walk, all applied. */
  ghost predicate LinkedBy(toc: seq<TocEntry>, nodes: seq<StructureNode>, links: seq<Option<nat>>,
                           toc': seq<TocEntry>, nodes': seq<StructureNode>)
  {
    && |links| == |toc| && ContentsLinking.Linked(NodeMarks(nodes), EntryMarks(toc), links)
    && (forall a | 0 <= a < |links| && links[a].Some? :: links[a].value < |nodes|)
    && Applied(toc, nodes, links, toc', nodes', |toc|)
  }

  /** The heading has the entry's title and comes after every heading that an earlier entry
      with this title is linked to. */
  ghost predicate IsFree(toc: seq<TocEntry>, nodes: seq<StructureNode>, links: seq<Option<nat>>, a: nat, h: nat)
    requires a < |toc| && a <= |links| && h < |nodes|
  {
    && SameTitle(toc[a].title, nodes[h].text)
    && forall b | 0 <= b < a && SameTitle(toc[b].title, toc[a].title) && links[b].Some? :: links[b].value < h
  }

  /** The first free heading of the entry's level, without one the first free heading. */
  ghost predicate TakesFirstFree(toc: seq<TocEntry>, nodes: seq<StructureNode>, links: seq<Option<nat>>, a: nat)
    requires a < |toc| && a < |links|
  {
    match links[a]
    case None => forall h | 0 <= h < |nodes| :: !IsFree(toc, nodes, links, a, h)
    case Some(h) =>
      && h < |nodes| && IsFree(toc, nodes, links, a, h)
      && (nodes[h].level == toc[a].level
          ==> forall g | 0 <= g < h && IsFree(toc, nodes, links, a, g) :: nodes[g].level != toc[a].level)
      && (nodes[h].level != toc[a].level
          ==> && (forall g | 0 <= g < |nodes| && IsFree(toc, nodes, links, a, g) :: nodes[g].level != toc[a].level)
              && (forall g | 0 <= g < h :: !IsFree(toc, nodes, links, a, g)))
  }

  /** Every entry takes the first free heading of its title and points at it by its id. */
  ghost predicate LinkedByTitle(toc: seq<TocEntry>, nodes: seq<StructureNode>, links: seq<Option<nat>>) {
    && |links| == |toc|
    && (forall a | 0 <= a < |toc| :: TakesFirstFree(toc, nodes, links, a))
    && forall a | 0 <= a < |toc| && links[a].Some? && links[a].value < |nodes| :: toc[a].nodeId == Some(nodes[links[a].value].id)
  }

  lemma FreeByTitle(toc: seq<TocEntry>, nodes: seq<StructureNode>, links: seq<Option<nat>>, a: nat, h: nat)
    requires a < |toc| && a <= |links| && h < |nodes|
    ensures ContentsLinking.IsFree(NodeMarks(nodes), EntryMarks(toc), links, a, h) <==> IsFree(toc, nodes, links, a, h)
  {
    TitlesMatchIff(toc[a].title, nodes[h].text);
    forall b | 0 <= b < a
      ensures EntryMarks(toc)[b].key == EntryMarks(toc)[a].key <==> SameTitle(toc[b].title, toc[a].title)
    {
      TitlesMatchIff(toc[b].title, toc[a].title);
    }
    hide SameTitle, NormalizeTitle;
  }

  /** The links hold for the titles and texts that are handed back. */
  lemma LinkedTitlesMatch(toc: seq<TocEntry>, nodes: seq<StructureNode>, links: seq<Option<nat>>,
                          toc': seq<TocEntry>, nodes': seq<StructureNode>)
    requires LinkedBy(toc, nodes, links, toc', nodes')
    ensures LinkedByTitle(toc', nodes', links)
  {
    UnchangedByLinking(toc, nodes, links, toc', nodes');
    var hs, es := NodeMarks(nodes'), EntryMarks(toc');
    assert hs == NodeMarks(nodes) && es == EntryMarks(toc);
    hide ContentsLinking.Linked, ContentsLinking.TakesFirstFree, TakesFirstFree, NormalizeTitle, NodeMarks, EntryMarks;
    forall a | 0 <= a < |toc'| ensures TakesFirstFree(toc', nodes', links, a) {
      ContentsLinking.LinksTakeFirstFree(hs, es, links, a);
      FirstFreeByTitle(toc', nodes', links, a);
    }
  }

  lemma FirstFreeByTitle(toc: seq<TocEntry>, nodes: seq<StructureNode>, links: seq<Option<nat>>, a: nat)
    requires a < |toc| && a < |links|
    requires ContentsLinking.TakesFirstFree(NodeMarks(nodes), EntryMarks(toc), links, a)
    ensures TakesFirstFree(toc, nodes, links, a)
  {
    hide ContentsLinking.IsFree, IsFree, NormalizeTitle;
    forall h | 0 <= h < |nodes|
      ensures ContentsLinking.IsFree(NodeMarks(nodes), EntryMarks(toc), links, a, h) <==> IsFree(toc, nodes, links, a, h)
    {
      FreeByTitle(toc, nodes, links, a, h);
    }
  }

  lemma UnchangedByLinking(toc: seq<TocEntry>, nodes: seq<StructureNode>, links: seq<Option<nat>>,
                           toc': seq<TocEntry>, nodes': seq<StructureNode>)
    requires LinkedBy(toc, nodes, links, toc', nodes')
    ensures |toc'| == |toc| && forall a | 0 <= a < |toc| :: toc'[a].title == toc[a].title && toc'[a].level == toc[a].level
    ensures |nodes'| == |nodes| && forall h | 0 <= h < |nodes| ::
      nodes'[h].id == nodes[h].id && nodes'[h].text == nodes[h].text && nodes'[h].level == nodes[h].level
  {
    hide ContentsLinking.Linked;
    forall h | 0 <= h < |nodes|
      ensures nodes'[h].id == nodes[h].id && nodes'[h].text == nodes[h].text && nodes'[h].level == nodes[h].level
    {
      if Some(h) in links {
        var a :| 0 <= a < |links| && links[a] == Some(h);
        assert nodes'[links[a].value].text == nodes[links[a].value].text;
      } else {
        assert links[..|toc|] == links;
      }
    }
  }

  /** `_link_toc_to_nodes` on entries and nodes. */
  method LinkTocToNodes(toc: seq<TocEntry>, nodes: seq<StructureNode>)
    returns (toc': seq<TocEntry>, nodes': seq<StructureNode>)
    ensures exists links :: LinkedBy(toc, nodes, links, toc', nodes') && LinkedByTitle(toc', nodes', links)
  {
    hide NormalizeTitle;
    var found := ContentsLinking.Link(NodeMarks(nodes), EntryMarks(toc));
    ghost var links := found;
    ContentsLinking.LinksAreInjective(NodeMarks(nodes), EntryMarks(toc), links);
    toc', nodes' := toc, nodes;
    for a := 0 to |toc|
      invariant Applied(toc, nodes, links, toc', nodes', a)
    {
      assert links[..a + 1] == links[..a] + [links[a]];
      if found[a].Some? {
        var h := found[a].value;
        assert Some(h) !in links[..a];
        toc' := toc'[a := toc'[a].(nodeId := Some(nodes'[h].id))];
        if Truthy(toc'[a].number) && !Truthy(nodes'[h].number) {
          nodes' := nodes'[h := nodes'[h].(number := toc'[a].number)];
        }
      }
    }
    assert LinkedBy(toc, nodes, links, toc', nodes');
    LinkedTitlesMatch(toc, nodes, links, toc', nodes');
  }

  /** `extract_docx_structure` on the paragraphs of a readable document. */
  method ExtractDocxStructure(ps: seq<Paragraph>) returns (structure: DocumentStructure)
    ensures exists toc, nodes, links ::
              && Reads(ps, toc, nodes, structure.tocParagraphs)
              && LinkedBy(toc, nodes, links, structure.toc, structure.nodes)
              && LinkedByTitle(structure.toc, structure.nodes, links)
  {
    hide Reads, LinkedBy, LinkedByTitle;
    var toc, nodes, tocParagraphs := ReadParagraphs(ps);
    var linkedToc, linkedNodes := LinkTocToNodes(toc, nodes);
    structure := DocumentStructure(linkedNodes, linkedToc, tocParagraphs);
  }

  // ----- A generated contents page is recovered -----

  /** The text of the contents paragraphs, with their levels. */
  function ContentsTexts(ps: seq<Paragraph>): seq<(nat, string)> {
    if ps == [] then []
    else ContentsTexts(ps[..|ps| - 1]) + ContentsTextOf(ps[|ps| - 1])
  }

  function ContentsTextOf(p: Paragraph): seq<(nat, string)> {
    if IsTocParagraph(p) then [(StyleLevel(p.style, "toc").value, Strip(p.text))] else []
  }

  /** Word generated the contents page of this document down to level `limit`: its
      paragraphs print, in order, one line for every heading of at most that level,
      under that heading's title and level. `src` names the headings. */
  predicate Generated(ps: seq<Paragraph>, lines: seq<Line>, src: seq<nat>, limit: nat) {
    var hs := Headings(ps);
    && |lines| == |src| == |ContentsTexts(ps)|
    && (forall a | 0 <= a < |src| ::
         && src[a] < |hs| && hs[src[a]].0 <= limit
         && Printable(lines[a]) && Unambiguous(lines[a]) && lines[a].title == hs[src[a]].1
         && ContentsTexts(ps)[a] == (hs[src[a]].0, PrintTocLine(lines[a])))
    && (forall a, b | 0 <= a < b < |src| :: src[a] < src[b])
    && (forall h | 0 <= h < |hs| && hs[h].0 <= limit :: h in src)
  }

  lemma {:induction false} TocLinesFromTexts(ps: seq<Paragraph>, lines: seq<Line>)
    requires |lines| == |ContentsTexts(ps)|
    requires forall a | 0 <= a < |lines| ::
      Printable(lines[a]) && Unambiguous(lines[a]) && ContentsTexts(ps)[a].1 == PrintTocLine(lines[a])
    ensures |TocLines(ps)| == |lines|
    ensures forall a | 0 <= a < |lines| :: TocLines(ps)[a] == (ContentsTexts(ps)[a].0, lines[a])
  {
    hide ParseTocLine, PrintTocLine, Strip, StyleLevel, Unambiguous;
    if ps != [] {
      var n, p := |ps| - 1, ps[|ps| - 1];
      if IsTocParagraph(p) {
        var k := |lines| - 1;
        ParsePrint(lines[k]);
        assert lines[k].title != "";
        assert TocLineOf(p) == [(StyleLevel(p.style, "toc").value, lines[k])];
        TocLinesFromTexts(ps[..n], lines[..k]);
      } else {
        TocLinesFromTexts(ps[..n], lines);
      }
    }
  }

  /** The entries read are the lines printed, and each is linked to its heading. */
  lemma {:induction false} GeneratedLinks(ps: seq<Paragraph>, lines: seq<Line>, src: seq<nat>, limit: nat,
                       toc: seq<TocEntry>, nodes: seq<StructureNode>, tocParagraphs: set<nat>, links: seq<Option<nat>>)
    requires Generated(ps, lines, src, limit) && Reads(ps, toc, nodes, tocParagraphs)
    requires |links| == |toc| && ContentsLinking.Linked(NodeMarks(nodes), EntryMarks(toc), links)
    ensures |toc| == |lines|
    ensures forall a | 0 <= a < |lines| :: toc[a] == EntryOf((Headings(ps)[src[a]].0, lines[a])) && links[a] == Some(src[a])
  {
    hide NormalizeTitle, PrintTocLine, Unambiguous, IdAt, Bases, Headings, TocLines, ContentsTexts, ContentsLinking.Linked;
    TocLinesFromTexts(ps, lines);
    var hs, es := NodeMarks(nodes), EntryMarks(toc);
    forall a | 0 <= a < |src| ensures src[a] < |hs| && hs[src[a]] == es[a] && es[a].level <= limit {
      assert toc[a] == EntryOf(TocLines(ps)[a]);
      assert nodes[src[a]].text == Headings(ps)[src[a]].1;
    }
    forall h | 0 <= h < |hs| && hs[h].level <= limit ensures h in src {
      assert Headings(ps)[h].0 <= limit;
    }
    ContentsLinking.ExactRecovery(hs, es, links, src, limit);
  }

  /** Reading a document with a generated contents page: every entry comes back with
      the number, title and page it was printed from, points at its own heading, and
      gives that heading its number, whatever titles repeat. */
  lemma {:induction false} GeneratedContentsRecovered(ps: seq<Paragraph>, lines: seq<Line>, src: seq<nat>, limit: nat,
                                   toc: seq<TocEntry>, nodes: seq<StructureNode>, links: seq<Option<nat>>, structure: DocumentStructure)
    requires Generated(ps, lines, src, limit)
    requires Reads(ps, toc, nodes, structure.tocParagraphs)
    requires LinkedBy(toc, nodes, links, structure.toc, structure.nodes)
    ensures |structure.toc| == |lines| && |structure.nodes| == |Headings(ps)|
    ensures forall a | 0 <= a < |lines| ::
      structure.toc[a] == TocEntry(Headings(ps)[src[a]].0, lines[a].title, lines[a].number, lines[a].page,
                                   Some(structure.nodes[src[a]].id))
    ensures forall a | 0 <= a < |lines| && lines[a].number.Some? :: structure.nodes[src[a]].number == lines[a].number
  {
    hide Unambiguous, IdAt, Bases, ContentsLinking.Linked, Headings, PrintTocLine, ContentsTexts, TocLines, NodeMarks, EntryMarks;
    GeneratedLinks(ps, lines, src, limit, toc, nodes, structure.tocParagraphs, links);
    forall a | 0 <= a < |lines|
      ensures structure.nodes[src[a]] == nodes[src[a]].(number := if Truthy(toc[a].number) then toc[a].number else None)
      ensures structure.toc[a] == TocEntry(Headings(ps)[src[a]].0, lines[a].title, lines[a].number, lines[a].page,
                                           Some(structure.nodes[src[a]].id))
      ensures lines[a].number.Some? ==> structure.nodes[src[a]].number == lines[a].number
    {
      assert links[a] == Some(src[a]);
      assert nodes[src[a]].number == None;
      if lines[a].number.Some? {
        assert IsNumber(lines[a].number.value);
      }
    }
  }

  /** When the ids are distinct, a heading is the only one an entry's id names. */
  lemma LinksNameOneHeading(ps: seq<Paragraph>, toc: seq<TocEntry>, nodes: seq<StructureNode>, tocParagraphs: set<nat>, g: nat, h: nat)
    requires Reads(ps, toc, nodes, tocParagraphs) && g < |nodes| && h < |nodes|
    requires NoClash(BasesOf(ps))
    ensures nodes[g].id == nodes[h].id <==> g == h
  {
    hide Bases, IdAt;
    DistinctIffNoClash(BasesOf(ps));
    assert |BasesOf(ps)| == |nodes| by { BasesLength(HeadingTexts(Headings(ps))); }
    assert g < h ==> IdAt(BasesOf(ps), g) != IdAt(BasesOf(ps), h);
    assert h < g ==> IdAt(BasesOf(ps), h) != IdAt(BasesOf(ps), g);
  }
}
