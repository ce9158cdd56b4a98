/** The reader's table of contents (`document_toc.py`): from a PDF's outline and
    detected headings, or from the contents page of a DOCX. */
module DocumentToc {
  import opened ContentsLine
  import opened Decimal
  import opened DocxStructure
  import opened HeadingIds
  import opened Options
  import opened Sequences
  import opened StableSort
  import opened Text
  import opened Titles

  datatype OutlineEntry = OutlineEntry(title: string, page: int, level: int)

  datatype LayoutHeading = LayoutHeading(id: string, text: string, page: int, level: int, number: Option<string>)

  datatype Item = Item(id: string, title: string, level: int, page: int, anchorId: Option<string>)

  // ----- Items -----

  function ItemId(index: nat): string {
    "toc-" + Print(index)
  }

  /** The trimmed title behind its number, the level and the page raised to what they must be,
      and the anchor when it is not blank. */
  predicate IsItem(item: Item, index: nat, title: string, level: int, page: int, anchorId: Option<string>, number: Option<string>) {
    && item.id == "toc-" + Print(index)
    && IsStripped(item.title, if number == None || number == Some("") then title else number.value + " " + title)
    && item.level >= 1 && item.level >= level && (item.level == 1 || item.level == level)
    && item.page == (if page > 0 then page else index + 1)
    && (item.anchorId == None ==> anchorId == None || IsStripped("", anchorId.value))
    && (item.anchorId != None ==> anchorId != None && item.anchorId != Some("") && IsStripped(item.anchorId.value, anchorId.value))
  }

  /** `_item`: a missing page becomes the position, a number leads the title. */
  function MakeItem(index: nat, title: string, level: int, page: int, anchorId: Option<string>, number: Option<string>): (item: Item)
    ensures IsItem(item, index, title, level, page, anchorId, number)
  {
    var text := if Truthy(number) then number.value + " " + title else title;
    var anchor := if anchorId.Some? then anchorId.value else "";
    StripIff(Strip(text), text);
    StripIff(Strip(anchor), anchor);
    Item(ItemId(index), Strip(text), if level < 1 then 1 else level, if page > 0 then page else index + 1,
         if Strip(anchor) == "" then None else Some(Strip(anchor)))
  }

  // ----- Anchors -----

  /** Python's `part in whole`. */
  predicate Contains(whole: string, part: string) {
    part <= whole || (whole != "" && Contains(whole[1..], part))
  }

  /** A heading an outline entry may name: within one page, its words the entry's or
      part of them. */
  predicate Names(h: LayoutHeading, title: string, page: int) {
    var words := Normalize(h.text);
    words != "" && -1 <= h.page - page <= 1 && (words == Normalize(title) || Contains(Normalize(title), words))
  }

  /** `part` stands somewhere in `whole`. */
  ghost predicate IsPart(whole: string, part: string) {
    exists i | 0 <= i <= |whole| :: part <= whole[i..]
  }

  lemma PartOfTail(whole: string, part: string)
    requires whole != "" && !(part <= whole)
    ensures IsPart(whole, part) <==> IsPart(whole[1..], part)
  {
    assert whole[0..] == whole;
    forall i | 0 < i <= |whole| ensures whole[i..] == whole[1..][i - 1..] {
    }
    forall i | 0 <= i <= |whole[1..]| ensures whole[1..][i..] == whole[i + 1..] {
    }
  }

  lemma PartInFront(whole: string, part: string)
    requires part <= whole || whole == ""
    ensures IsPart(whole, part) <==> part <= whole
  {
    if part <= whole {
      assert whole[0..] == whole;
    }
  }

  lemma {:induction false} ContainsIff(whole: string, part: string)
    ensures Contains(whole, part) <==> IsPart(whole, part)
  {
    hide IsPart;
    if part <= whole || whole == "" {
      PartInFront(whole, part);
    } else {
      PartOfTail(whole, part);
      ContainsIff(whole[1..], part);
    }
  }

  /** The heading is at most a page away, and its words in lower case, a leading number left
      out and single blanks between them, are some and stand in those of the entry. */
  ghost predicate IsNamed(h: LayoutHeading, title: string, page: int) {
    && page - 1 <= h.page <= page + 1
    && exists c, d :: Unnumbered(h.text, c) && Unnumbered(title, d) && Words(c) != []
         && IsPart(Join(Words(d), " "), Join(Words(c), " "))
  }

  lemma NamesIff(h: LayoutHeading, title: string, page: int)
    ensures Names(h, title, page) <==> IsNamed(h, title, page)
  {
    var part, whole := Normalize(h.text), Normalize(title);
    ContainsIff(whole, part);
    assert part == whole ==> IsPart(whole, part) by { assert whole[0..] == whole; }
    hide Normalize, Unnumbered, Words, IsPart, Contains;
    forall c | Unnumbered(h.text, c) ensures part == Join(Words(c), " ") && (part != "" <==> Words(c) != []) {
      NormalizedIsWords(h.text, c);
      assert Words(c) != [] ==> SlugWord(Words(c)[0]);
    }
    forall d | Unnumbered(title, d) ensures whole == Join(Words(d), " ") {
      NormalizedIsWords(title, d);
    }
    var c := SomethingLeft(h.text);
    var d := SomethingLeft(title);
  }

  /** The id of the first heading an outline entry names. */
  function AnchorFor(headings: seq<LayoutHeading>, title: string, page: int): (r: Option<string>)
    ensures r.Some? ==> r.value != "" && exists i | 0 <= i < |headings| ::
      headings[i].id == r.value && Names(headings[i], title, page) && forall j | 0 <= j < i :: !Names(headings[j], title, page)
    ensures r.None? ==> forall i | 0 <= i < |headings| && Names(headings[i], title, page) ::
      headings[i].id == "" || exists j | 0 <= j < i :: Names(headings[j], title, page)
  {
    if headings == [] then None
    else if Names(headings[0], title, page) then (if headings[0].id == "" then None else Some(headings[0].id))
    else
      var r := AnchorFor(headings[1..], title, page);
      assert forall i | 0 < i < |headings| :: headings[i] == headings[1..][i - 1];
      r
  }

  /** `_anchor_for_outline_entry`. */
  method FindAnchor(headings: seq<LayoutHeading>, title: string, page: int) returns (anchor: Option<string>)
    ensures anchor == AnchorFor(headings, title, page)
  {
    for i := 0 to |headings|
      invariant AnchorFor(headings, title, page) == AnchorFor(headings[i..], title, page)
    {
      assert headings[i..][1..] == headings[i + 1..];
      if Names(headings[i], title, page) {
        return if headings[i].id == "" then None else Some(headings[i].id);
      }
    }
    return None;
  }

  // ----- The PDF contents list -----

  /** The outline entries with a title. */
  function Titled(outline: seq<OutlineEntry>): seq<OutlineEntry> {
    if outline == [] then []
    else
      var last := outline[|outline| - 1];
      Titled(outline[..|outline| - 1]) + (if Strip(last.title) == "" then [] else [last])
  }

  /** The pages titled outline entries claim. */
  function Claimed(outline: seq<OutlineEntry>): set<int> {
    set e | e in Titled(outline) :: e.page
  }

  /** The titled headings on pages nobody claims. */
  function Unclaimed(headings: seq<LayoutHeading>, claimed: set<int>): seq<LayoutHeading> {
    if headings == [] then []
    else
      var last := headings[|headings| - 1];
      Unclaimed(headings[..|headings| - 1], claimed)
      + (if Strip(last.text) == "" || last.page in claimed then [] else [last])
  }

  function OutlineItem(headings: seq<LayoutHeading>, e: OutlineEntry, index: nat): Item {
    MakeItem(index, Strip(e.title), e.level, e.page, AnchorFor(headings, Strip(e.title), e.page), None)
  }

  function HeadingItem(h: LayoutHeading, index: nat): Item {
    MakeItem(index, Strip(h.text), h.level, h.page, Some(h.id), h.number)
  }

  /** The items before sorting: every titled outline entry, then every titled heading
      on an unclaimed page. */
  function Collected(outline: seq<OutlineEntry>, headings: seq<LayoutHeading>): (items: seq<Item>)
    ensures |items| == |Titled(outline)| + |Unclaimed(headings, Claimed(outline))|
  {
    var es, hs := Titled(outline), Unclaimed(headings, Claimed(outline));
    seq(|es|, i requires 0 <= i < |es| => OutlineItem(headings, es[i], i))
    + seq(|hs|, i requires 0 <= i < |hs| => HeadingItem(hs[i], |es| + i))
  }

  /** By page, then level. */
  predicate ItemLe(x: Item, y: Item) {
    x.page < y.page || (x.page == y.page && x.level <= y.level)
  }

  lemma PagesThenLevels()
    ensures Preorder(ItemLe)
  {
  }

  function Renumbered(items: seq<Item>): (r: seq<Item>)
    ensures |r| == |items| && forall i | 0 <= i < |r| :: r[i] == items[i].(id := ItemId(i))
  {
    seq(|items|, i requires 0 <= i < |items| => items[i].(id := ItemId(i)))
  }

  function ItemsOf(headings: seq<LayoutHeading>, titled: seq<OutlineEntry>): (items: seq<Item>)
    ensures |items| == |titled| && forall j | 0 <= j < |items| :: items[j] == OutlineItem(headings, titled[j], j)
  {
    seq(|titled|, j requires 0 <= j < |titled| => OutlineItem(headings, titled[j], j))
  }

  lemma ItemsOfAppend(headings: seq<LayoutHeading>, titled: seq<OutlineEntry>, e: OutlineEntry)
    ensures ItemsOf(headings, titled + [e]) == ItemsOf(headings, titled) + [OutlineItem(headings, e, |titled|)]
  {
    hide OutlineItem;
  }

  lemma TitledNext(outline: seq<OutlineEntry>)
    requires outline != []
    ensures var before, last := outline[..|outline| - 1], outline[|outline| - 1];
            && Titled(outline) == (if Strip(last.title) == "" then Titled(before) else Titled(before) + [last])
            && Claimed(outline) == Claimed(before) + (if Strip(last.title) == "" then {} else {last.page})
  {
    var rest, last := Titled(outline[..|outline| - 1]), outline[|outline| - 1];
    assert forall e :: e in rest + [last] <==> e in rest || e == last;
    assert rest + [] == rest;
    hide Strip;
  }

  /** The loop over the outline: its items, and the pages they claim. */
  method OutlineItems(outline: seq<OutlineEntry>, headings: seq<LayoutHeading>) returns (items: seq<Item>, claimedPages: set<int>)
    ensures claimedPages == Claimed(outline) && |items| == |Titled(outline)|
    ensures forall j | 0 <= j < |items| :: items[j] == OutlineItem(headings, Titled(outline)[j], j)
  {
    items, claimedPages := [], {};
    assert outline[..0] == [];
    for i := 0 to |outline|
      invariant claimedPages == Claimed(outline[..i])
      invariant items == ItemsOf(headings, Titled(outline[..i]))
    {
      hide MakeItem, AnchorFor, Strip, Claimed, Titled, ItemsOf;
      var entry := outline[i];
      assert outline[..i + 1][..i] == outline[..i];
      TitledNext(outline[..i + 1]);
      var title := Strip(entry.title);
      if title == "" {
        continue;
      }
      var anchor := FindAnchor(headings, title, entry.page);
      ItemsOfAppend(headings, Titled(outline[..i]), entry);
      items := items + [MakeItem(|items|, title, entry.level, entry.page, anchor, None)];
      claimedPages := claimedPages + {entry.page};
    }
    assert outline[..|outline|] == outline;
  }

  /** The loop over the headings, which go on after the outline's items. */
  method HeadingItems(headings: seq<LayoutHeading>, claimedPages: set<int>, start: nat) returns (items: seq<Item>)
    ensures |items| == |Unclaimed(headings, claimedPages)|
    ensures forall j | 0 <= j < |items| :: items[j] == HeadingItem(Unclaimed(headings, claimedPages)[j], start + j)
  {
    hide MakeItem, IsItem, Strip;
    items := [];
    for i := 0 to |headings|
      invariant |items| == |Unclaimed(headings[..i], claimedPages)|
      invariant forall j | 0 <= j < |items| :: items[j] == HeadingItem(Unclaimed(headings[..i], claimedPages)[j], start + j)
    {
      var node := headings[i];
      assert headings[..i + 1][..i] == headings[..i];
      var title := Strip(node.text);
      if title == "" || node.page in claimedPages {
        continue;
      }
      items := items + [MakeItem(start + |items|, title, node.level, node.page, Some(node.id), node.number)];
    }
    assert headings[..|headings|] == headings;
  }

  /** `build_toc_from_layout`. */
  method BuildTocFromLayout(outline: seq<OutlineEntry>, headings: seq<LayoutHeading>) returns (items: seq<Item>)
    ensures items == Renumbered(Sorted(Collected(outline, headings), ItemLe))
  {
    hide OutlineItem, HeadingItem, Titled, Unclaimed, Claimed, Sorted;
    var outlineItems, claimedPages := OutlineItems(outline, headings);
    var headingItems := HeadingItems(headings, claimedPages, |outlineItems|);
    items := outlineItems + headingItems;
    assert items == Collected(outline, headings);
    items := Sorted(items, ItemLe);
    ghost var sorted := items;
    for position := 0 to |items|
      invariant |items| == |sorted|
      invariant forall j | 0 <= j < position :: items[j] == sorted[j].(id := ItemId(j))
      invariant forall j | position <= j < |items| :: items[j] == sorted[j]
    {
      items := items[position := items[position].(id := "toc-" + Print(position))];
    }
  }

  // ----- What is collected, in terms of the outline and the headings -----

  predicate IsTitled(title: string) {
    !IsStripped("", title)
  }

  /** Every outline entry with a title, in order. */
  ghost predicate TitledAt(outline: seq<OutlineEntry>, at: seq<nat>) {
    && (forall i | 0 <= i < |at| :: at[i] < |outline| && IsTitled(outline[at[i]].title))
    && (forall i, j | 0 <= i < j < |at| :: at[i] < at[j])
    && forall k | 0 <= k < |outline| && IsTitled(outline[k].title) :: k in at
  }

  /** A heading with a title on a page that no titled outline entry is on. */
  ghost predicate IsUnclaimed(outline: seq<OutlineEntry>, h: LayoutHeading) {
    IsTitled(h.text) && forall e <- outline | IsTitled(e.title) :: e.page != h.page
  }

  /** Every such heading, in order. */
  ghost predicate UnclaimedAt(outline: seq<OutlineEntry>, headings: seq<LayoutHeading>, at: seq<nat>) {
    && (forall i | 0 <= i < |at| :: at[i] < |headings| && IsUnclaimed(outline, headings[at[i]]))
    && (forall i, j | 0 <= i < j < |at| :: at[i] < at[j])
    && forall k | 0 <= k < |headings| && IsUnclaimed(outline, headings[k]) :: k in at
  }

  /** The first heading that the entry names, by its id when it has one. */
  ghost predicate IsAnchor(headings: seq<LayoutHeading>, title: string, page: int, anchor: Option<string>) {
    || (anchor == None && forall h <- headings :: !IsNamed(h, title, page))
    || exists i | 0 <= i < |headings| ::
         && IsNamed(headings[i], title, page) && (forall j | 0 <= j < i :: !IsNamed(headings[j], title, page))
         && anchor == if headings[i].id == "" then None else Some(headings[i].id)
  }

  lemma {:induction false} AnchorIs(headings: seq<LayoutHeading>, title: string, page: int)
    ensures IsAnchor(headings, title, page, AnchorFor(headings, title, page))
  {
    hide Names, IsNamed;
    if headings != [] {
      NamesIff(headings[0], title, page);
      if !Names(headings[0], title, page) {
        var rest := headings[1..];
        AnchorIs(rest, title, page);
        assert forall j | 0 < j < |headings| :: headings[j] == rest[j - 1];
        forall i | 0 <= i < |rest| ensures rest[i] == headings[i + 1] {
        }
      }
    }
  }

  /** The entry's item: its title, level and page, and the heading it names. */
  ghost predicate IsOutlineItem(headings: seq<LayoutHeading>, e: OutlineEntry, item: Item, index: nat) {
    exists anchor ::
      IsAnchor(headings, Strip(e.title), e.page, anchor) && IsItem(item, index, Strip(e.title), e.level, e.page, anchor, None)
  }

  /** The items before sorting: first one for each titled entry, then one for each heading that
      no entry's page claims, counted on. */
  ghost predicate IsCollected(outline: seq<OutlineEntry>, headings: seq<LayoutHeading>, items: seq<Item>, es: seq<nat>, hs: seq<nat>) {
    && TitledAt(outline, es) && UnclaimedAt(outline, headings, hs) && |items| == |es| + |hs|
    && (forall j | 0 <= j < |es| :: IsOutlineItem(headings, outline[es[j]], items[j], j))
    && (forall j | 0 <= j < |hs| ::
         var h := headings[hs[j]]; IsItem(items[|es| + j], |es| + j, Strip(h.text), h.level, h.page, Some(h.id), h.number))
  }

  function IfTitled<T>(x: T, title: string): Option<T> {
    if Strip(title) == "" then None else Some(x)
  }

  lemma {:induction false} TitledAreFound(outline: seq<OutlineEntry>)
    ensures Titled(outline) == FilterMap((e: OutlineEntry) => IfTitled(e, e.title), outline)
  {
    var f := (e: OutlineEntry) => IfTitled(e, e.title);
    if outline != [] {
      var before, last := outline[..|outline| - 1], outline[|outline| - 1];
      TitledAreFound(before);
      hide Strip, FilterMap;
      assert before + [last] == outline;
      FilterMapAppend(f, before, last);
    } else {
      FilterMapOne(f, OutlineEntry("", 0, 0));
    }
  }

  function IfUnclaimed(h: LayoutHeading, claimed: set<int>): Option<LayoutHeading> {
    if Strip(h.text) == "" || h.page in claimed then None else Some(h)
  }

  lemma {:induction false} UnclaimedAreFound(headings: seq<LayoutHeading>, claimed: set<int>)
    ensures Unclaimed(headings, claimed) == FilterMap((h: LayoutHeading) => IfUnclaimed(h, claimed), headings)
  {
    var f := (h: LayoutHeading) => IfUnclaimed(h, claimed);
    if headings != [] {
      var before, last := headings[..|headings| - 1], headings[|headings| - 1];
      UnclaimedAreFound(before, claimed);
      hide Strip, FilterMap;
      assert before + [last] == headings;
      FilterMapAppend(f, before, last);
    } else {
      FilterMapOne(f, LayoutHeading("", "", 0, 0, None));
    }
  }

  lemma BlankIff(text: string)
    ensures Strip(text) != "" <==> IsTitled(text)
  {
    StripIff("", text);
  }

  lemma TitledFrom(outline: seq<OutlineEntry>) returns (es: seq<nat>)
    ensures TitledAt(outline, es) && |es| == |Titled(outline)|
    ensures forall j | 0 <= j < |es| :: Titled(outline)[j] == outline[es[j]]
  {
    TitledAreFound(outline);
    es := FilterMapPositions((e: OutlineEntry) => IfTitled(e, e.title), outline);
    forall text: string ensures Strip(text) != "" <==> IsTitled(text) {
      BlankIff(text);
    }
    hide Strip, IsTitled, FilterMap, Titled;
  }

  lemma ClaimedIff(outline: seq<OutlineEntry>, page: int)
    ensures page !in Claimed(outline) <==> forall e <- outline | IsTitled(e.title) :: e.page != page
  {
    var es := TitledFrom(outline);
    hide IsTitled, Titled;
    assert forall e | e in Titled(outline) :: e in outline && IsTitled(e.title);
    forall e | e in outline && IsTitled(e.title) ensures e in Titled(outline) {
      var k :| 0 <= k < |outline| && outline[k] == e;
      var j :| 0 <= j < |es| && es[j] == k;
      assert Titled(outline)[j] == e;
    }
  }

  lemma UnclaimedFrom(outline: seq<OutlineEntry>, headings: seq<LayoutHeading>) returns (hs: seq<nat>)
    ensures UnclaimedAt(outline, headings, hs) && |hs| == |Unclaimed(headings, Claimed(outline))|
    ensures forall j | 0 <= j < |hs| :: Unclaimed(headings, Claimed(outline))[j] == headings[hs[j]]
  {
    var claimed := Claimed(outline);
    UnclaimedAreFound(headings, claimed);
    hs := FilterMapPositions((h: LayoutHeading) => IfUnclaimed(h, claimed), headings);
    forall k | 0 <= k < |headings| ensures IfUnclaimed(headings[k], claimed)
      == if IsUnclaimed(outline, headings[k]) then Some(headings[k]) else None
    {
      BlankIff(headings[k].text);
      ClaimedIff(outline, headings[k].page);
    }
    hide IsUnclaimed, IfUnclaimed, FilterMap, Unclaimed, Claimed;
  }

  lemma {:induction false} CollectedAt(outline: seq<OutlineEntry>, headings: seq<LayoutHeading>, j: nat)
    requires j < |Collected(outline, headings)|
    ensures var es, hs := Titled(outline), Unclaimed(headings, Claimed(outline));
      Collected(outline, headings)[j] == if j < |es| then OutlineItem(headings, es[j], j) else HeadingItem(hs[j - |es|], j)
  {
    hide OutlineItem, HeadingItem, Titled, Unclaimed, Claimed;
  }

  lemma {:induction false} OutlineItemsAre(outline: seq<OutlineEntry>, headings: seq<LayoutHeading>, es: seq<nat>, j: nat)
    requires |es| == |Titled(outline)| && j < |es| && es[j] < |outline| && Titled(outline)[j] == outline[es[j]]
    ensures IsOutlineItem(headings, outline[es[j]], Collected(outline, headings)[j], j)
  {
    hide Collected, MakeItem, AnchorFor, Titled, Unclaimed, Claimed, IsItem, IsAnchor, Strip;
    CollectedAt(outline, headings, j);
    AnchorIs(headings, Strip(outline[es[j]].title), outline[es[j]].page);
  }

  lemma {:induction false} HeadingItemsAre(outline: seq<OutlineEntry>, headings: seq<LayoutHeading>, n: nat, j: nat, h: LayoutHeading)
    requires n == |Titled(outline)| && j < |Unclaimed(headings, Claimed(outline))|
    requires Unclaimed(headings, Claimed(outline))[j] == h
    ensures IsItem(Collected(outline, headings)[n + j], n + j, Strip(h.text), h.level, h.page, Some(h.id), h.number)
  {
    hide Collected, MakeItem, Titled, Unclaimed, Claimed, IsItem, Strip;
    CollectedAt(outline, headings, n + j);
  }

  /** What the two loops collect. */
  lemma CollectedFrom(outline: seq<OutlineEntry>, headings: seq<LayoutHeading>) returns (es: seq<nat>, hs: seq<nat>)
    ensures IsCollected(outline, headings, Collected(outline, headings), es, hs)
  {
    es := TitledFrom(outline);
    hs := UnclaimedFrom(outline, headings);
    hide Collected, IsOutlineItem, IsItem, IsTitled, IsUnclaimed, Titled, Unclaimed, Claimed;
    forall j | 0 <= j < |es| ensures IsOutlineItem(headings, outline[es[j]], Collected(outline, headings)[j], j) {
      OutlineItemsAre(outline, headings, es, j);
    }
    forall j | 0 <= j < |hs| ensures var h := headings[hs[j]];
      IsItem(Collected(outline, headings)[|es| + j], |es| + j, Strip(h.text), h.level, h.page, Some(h.id), h.number)
    {
      HeadingItemsAre(outline, headings, |es|, j, headings[hs[j]]);
    }
  }

  /** The list holds every titled outline entry and every titled heading on a page no
      such entry claims, each exactly once and nothing else (`order` is a permutation
      of the collected items), by page and level and otherwise as collected, with ids
      counting up and pages and levels of at least one. */
  lemma TocFacts(outline: seq<OutlineEntry>, headings: seq<LayoutHeading>) returns (order: seq<nat>)
    ensures var toc, items := Renumbered(Sorted(Collected(outline, headings), ItemLe)), Collected(outline, headings);
      && |toc| == |order| == |items|
      && (forall i | 0 <= i < |order| :: order[i] < |items| && toc[i] == items[order[i]].(id := ItemId(i)))
      && (forall p | 0 <= p < |items| :: p in order)
      && (forall i, j | 0 <= i < j < |order| :: order[i] != order[j])
      && (forall i, j | 0 <= i < j < |toc| ::
           && (toc[i].page < toc[j].page || (toc[i].page == toc[j].page && toc[i].level <= toc[j].level))
           && (toc[i].page == toc[j].page && toc[i].level == toc[j].level ==> order[i] < order[j]))
      && (forall i | 0 <= i < |toc| :: toc[i].page >= 1 && toc[i].level >= 1)
  {
    hide Order, OutlineItem, HeadingItem, Collected, ItemLe;
    var items := Collected(outline, headings);
    PagesThenLevels();
    OrderFacts(items, ItemLe);
    order := Order(items, ItemLe);
    var toc := Renumbered(Sorted(items, ItemLe));
    forall i, j | 0 <= i < j < |toc|
      ensures toc[i].page < toc[j].page || (toc[i].page == toc[j].page && toc[i].level <= toc[j].level)
      ensures toc[i].page == toc[j].page && toc[i].level == toc[j].level ==> order[i] < order[j]
    {
      assert Before(items, ItemLe, order[i], order[j]);
      SameKeys(toc[i], items[order[i]], toc[j], items[order[j]]);
    }
    ItemsAtLeastOne(outline, headings);
  }

  lemma SameKeys(a: Item, b: Item, c: Item, d: Item)
    requires a.page == b.page && a.level == b.level && c.page == d.page && c.level == d.level
    ensures ItemLe(b, d) ==> a.page < c.page || (a.page == c.page && a.level <= c.level)
    ensures a.page == c.page && a.level == c.level ==> ItemLe(d, b)
  {
  }

  lemma ItemsAtLeastOne(outline: seq<OutlineEntry>, headings: seq<LayoutHeading>)
    ensures forall i | 0 <= i < |Collected(outline, headings)| ::
      Collected(outline, headings)[i].page >= 1 && Collected(outline, headings)[i].level >= 1
  {
    hide AnchorFor, Titled, Unclaimed, Strip;
  }

  // ----- The DOCX contents list -----

  function TitledEntries(toc: seq<TocEntry>): seq<TocEntry> {
    if toc == [] then []
    else
      var last := toc[|toc| - 1];
      TitledEntries(toc[..|toc| - 1]) + (if Strip(last.title) == "" then [] else [last])
  }

  /** Every contents entry with a title, in order. */
  ghost predicate EntriesAt(toc: seq<TocEntry>, at: seq<nat>) {
    && (forall i | 0 <= i < |at| :: at[i] < |toc| && IsTitled(toc[at[i]].title))
    && (forall i, j | 0 <= i < j < |at| :: at[i] < at[j])
    && forall k | 0 <= k < |toc| && IsTitled(toc[k].title) :: k in at
  }

  lemma {:induction false} EntriesAreFound(toc: seq<TocEntry>)
    ensures TitledEntries(toc) == FilterMap((e: TocEntry) => IfTitled(e, e.title), toc)
  {
    var f := (e: TocEntry) => IfTitled(e, e.title);
    if toc != [] {
      var before, last := toc[..|toc| - 1], toc[|toc| - 1];
      EntriesAreFound(before);
      hide Strip, FilterMap;
      assert before + [last] == toc;
      FilterMapAppend(f, before, last);
    } else {
      FilterMapOne(f, TocEntry(0, "", None, None, None));
    }
  }

  lemma EntriesFrom(toc: seq<TocEntry>) returns (at: seq<nat>)
    ensures EntriesAt(toc, at) && |at| == |TitledEntries(toc)|
    ensures forall j | 0 <= j < |at| :: TitledEntries(toc)[j] == toc[at[j]]
  {
    EntriesAreFound(toc);
    at := FilterMapPositions((e: TocEntry) => IfTitled(e, e.title), toc);
    forall text: string ensures Strip(text) != "" <==> IsTitled(text) {
      BlankIff(text);
    }
    hide Strip, IsTitled, FilterMap, TitledEntries;
  }

  /** The item of a contents entry: a page it does not declare counts as none. */
  predicate IsEntryItem(e: TocEntry, item: Item, index: nat) {
    IsItem(item, index, Strip(e.title), e.level, if e.page == None then 0 else e.page.value, e.nodeId, e.number)
  }

  /** A page the contents line declares, or none: 0 stands for none. */
  function PageOf(e: TocEntry): nat {
    if e.page.Some? then e.page.value else 0
  }

  /** `build_toc_from_docx_structure`: one item per titled entry, in order, with ids
      counting up, the declared page or else the position, and the entry's link. */
  method BuildTocFromDocxStructure(toc: seq<TocEntry>) returns (items: seq<Item>)
    ensures exists at: seq<nat> ::
              EntriesAt(toc, at) && |items| == |at| && forall i | 0 <= i < |at| :: IsEntryItem(toc[at[i]], items[i], i)
  {
    hide IsItem, Strip, IsTitled, EntriesAt;
    items := [];
    for i := 0 to |toc|
      invariant |items| == |TitledEntries(toc[..i])|
      invariant forall j | 0 <= j < |items| :: IsEntryItem(TitledEntries(toc[..i])[j], items[j], j)
    {
      var entry := toc[i];
      assert toc[..i + 1][..i] == toc[..i];
      var title := Strip(entry.title);
      if title == "" {
        continue;
      }
      items := items + [MakeItem(|items|, title, entry.level, PageOf(entry), entry.nodeId, entry.number)];
    }
    assert toc[..|toc|] == toc;
    ghost var at := EntriesFrom(toc);
  }
}
