/** Rendering an intermediate document tree to HTML (`ir_to_html`), with the output as
    a list of tags and text. Attribute values and text are kept unescaped. */
module HtmlGenerator {
  import opened Decimal
  import opened Options
  import opened Sequences
  import opened Text

  // ----- Trees -----

  /** A value of an attribute or style dictionary. Floats, lists and dictionaries carry
      the string `str` gives for them. */
  datatype Value =
    | Null
    | Flag(on: bool)
    | Number(n: int)
    | Float(r: real, repr: string)
    | Str(text: string)
    | Items(items: seq<Value>, repr: string)
    | Dict(entries: seq<(string, Value)>, repr: string)

  datatype Kind =
    | Document | Container | Heading | Paragraph | List | ListItem | Table | TableRow | TableCell
    | Image | Slide | Notes | Other(name: string)

  datatype IRNode = IRNode(
    kind: Kind,
    content: seq<Token>,
    styles: seq<(string, Value)>,
    children: seq<IRNode>,
    attributes: seq<(string, Value)>)

  // ----- Markup -----

  /** An attribute; one without a value is a bare name. */
  datatype Attr = Attr(name: string, value: Option<string>)

  datatype Token =
    | Open(tag: string, attrs: seq<Attr>)
    | Close(tag: string)
    | Void(tag: string, attrs: seq<Attr>)
    | Chars(text: string)

  /** Reading tokens with a stack of open tags; fails at a closing tag that does not
      match the innermost open one. */
  function Read(ts: seq<Token>, stack: seq<string>): Option<seq<string>> {
    if ts == [] then Some(stack)
    else
      match ts[0]
      case Open(tag, _) => Read(ts[1..], [tag] + stack)
      case Close(tag) => if stack != [] && stack[0] == tag then Read(ts[1..], stack[1..]) else None
      case Void(_, _) => Read(ts[1..], stack)
      case Chars(_) => Read(ts[1..], stack)
  }

  /** Every tag is closed, in properly nested order. */
  predicate Balanced(ts: seq<Token>) {
    Read(ts, []) == Some([])
  }

  // ----- Python values -----

  predicate Truthy(v: Value) {
    match v
    case Null => false
    case Flag(on) => on
    case Number(n) => n != 0
    case Float(r, _) => r != 0.0
    case Str(text) => text != ""
    case Items(items, _) => items != []
    case Dict(entries, _) => entries != []
  }

  function StrOf(v: Value): string {
    match v
    case Null => "None"
    case Flag(on) => if on then "True" else "False"
    case Number(n) => if n < 0 then "-" + Print(-n) else Print(n)
    case Float(_, repr) => repr
    case Str(text) => text
    case Items(_, repr) => repr
    case Dict(_, repr) => repr
  }

  function Get(d: seq<(string, Value)>, key: string): Value {
    if d == [] then Null else if d[0].0 == key then d[0].1 else Get(d[1..], key)
  }

  /** `str(d.get(key) or default)`. */
  function StrOr(d: seq<(string, Value)>, key: string, default: string): string {
    if Truthy(Get(d, key)) then StrOf(Get(d, key)) else default
  }

  // ----- Classes and attributes -----

  function StrippedStrings(items: seq<Value>): seq<string> {
    if items == [] then []
    else (if Strip(StrOf(items[0])) != "" then [StrOf(items[0])] else []) + StrippedStrings(items[1..])
  }

  function StyleClasses(styles: seq<(string, Value)>, key: string): seq<string> {
    match Get(styles, key)
    case Null => []
    case Str(text) => if Strip(text) != "" then [text] else []
    case Items(items, _) => StrippedStrings(items)
    case other => [StrOf(other)]
  }

  function NonBlank(parts: seq<string>): seq<string> {
    if parts == [] then []
    else (if Strip(parts[0]) != "" then [Strip(parts[0])] else []) + NonBlank(parts[1..])
  }

  function ClassAttr(classes: seq<string>): seq<Attr> {
    var normalized := NonBlank(classes);
    if normalized == [] then [] else [Attr("class", Some(Join(normalized, " ")))]
  }

  function PlainAttrs(attributes: seq<(string, Value)>, reserved: set<string>): seq<Attr> {
    if attributes == [] then []
    else
      var (key, value) := attributes[0];
      (if key in reserved then []
       else match value
         case Null => []
         case Flag(on) => if on then [Attr(key, None)] else []
         case Items(_, _) => []
         case Dict(_, _) => []
         case _ => [Attr(key, Some(StrOf(value)))])
      + PlainAttrs(attributes[1..], reserved)
  }

  function RenderAttrs(attributes: seq<(string, Value)>, classes: seq<string>, reserved: set<string>): seq<Attr> {
    ClassAttr(classes) + PlainAttrs(attributes, reserved)
  }

  function NodeAttrs(n: IRNode, reserved: set<string>): seq<Attr> {
    RenderAttrs(n.attributes, StyleClasses(n.styles, "classes"), reserved)
  }

  // ----- Nodes -----

  function Wrap(tag: string, attrs: seq<Attr>, inner: seq<Token>): seq<Token> {
    [Open(tag, attrs)] + inner + [Close(tag)]
  }

  /** `ir_to_html` on a node. */
  function Render(n: IRNode): seq<Token>
    decreases n, 1
  {
    match n.kind
    case Document =>
      var tag := Strip(StrOr(n.attributes, "tag", ""));
      var inner := n.content + RenderChildren(n.children);
      if tag == "" then inner else Wrap(tag, NodeAttrs(n, {"tag"}), inner)
    case Heading =>
      var level := Clamp(HeadingLevel(n));
      Wrap("h" + Print(level), NodeAttrs(n, {"level"}), n.content)
    case Paragraph => Wrap("p", NodeAttrs(n, {}), n.content)
    case List =>
      Wrap(if Truthy(Get(n.attributes, "ordered")) then "ol" else "ul", NodeAttrs(n, {"ordered"}), RenderChildren(n.children))
    case ListItem => Wrap("li", NodeAttrs(n, {}), n.content + RenderChildren(n.children))
    case Table => RenderTable(n, RowsWhere(n.children, true), RowsWhere(n.children, false))
    case TableRow => Wrap("tr", NodeAttrs(n, {"section"}), RenderChildren(n.children))
    case TableCell =>
      Wrap(if Truthy(Get(n.attributes, "header")) then "th" else "td", NodeAttrs(n, {"header"}),
           n.content + RenderChildren(n.children))
    case Image => RenderImage(n)
    case Slide =>
      Wrap("section", NodeAttrs(n, {"badge_text", "badge_label"}),
           Wrap("span", Badge(n), [Chars(StrOr(n.attributes, "badge_text", ""))]) + RenderChildren(n.children))
    case Notes =>
      Wrap("details", NodeAttrs(n, {"summary", "summary_attributes", "content_attributes"}),
           Wrap("summary", RenderAttrs(DictOf(Get(n.attributes, "summary_attributes")), [], {}),
                [Chars(StrOr(n.attributes, "summary", "Speaker Notes"))])
           + Wrap("div", RenderAttrs(DictOf(Get(n.attributes, "content_attributes")), StyleClasses(n.styles, "content_classes"), {}),
                  RenderChildren(n.children)))
    case _ => RenderContainer(n)
  }

  function RenderContainer(n: IRNode): seq<Token>
    decreases n, 0
  {
    var tag := Strip(StrOr(n.attributes, "tag", "div"));
    Wrap(if tag == "" then "div" else tag, NodeAttrs(n, {"tag"}), n.content + RenderChildren(n.children))
  }

  function RenderChildren(children: seq<IRNode>): seq<Token>
    decreases children, 0
  {
    if children == [] then [] else Render(children[0]) + RenderChildren(children[1..])
  }

  /** The rendered rows whose section is the header, or is not. */
  function RowsWhere(children: seq<IRNode>, header: bool): seq<Token>
    decreases children, 0
  {
    if children == [] then []
    else (if IsHeaderRow(children[0]) == header then Render(children[0]) else []) + RowsWhere(children[1..], header)
  }

  predicate IsHeaderRow(row: IRNode) {
    LowerAll(StrOr(row.attributes, "section", "")) == "thead"
  }

  function WrapperAttrs(n: IRNode): seq<Attr> {
    var found := StyleClasses(n.styles, "wrapper_classes");
    ClassAttr(if found == [] then ["table-wrapper"] else found)
  }

  function RenderTable(n: IRNode, head: seq<Token>, body: seq<Token>): seq<Token> {
    Wrap("div", WrapperAttrs(n),
         Wrap("table", RenderAttrs(n.attributes, StyleClasses(n.styles, "table_classes"), {"section"}),
              Colgroup(n.styles) + Wrap("thead", [], head) + Wrap("tbody", [], body)))
  }

  predicate IsPositive(v: Value) {
    (v.Number? && v.n > 0) || (v.Float? && v.r > 0.0) || (v.Flag? && v.on)
  }

  /** One column per width, or nothing unless every width is a positive number. How a
      width prints as a percentage is not modelled. */
  function Colgroup(styles: seq<(string, Value)>): seq<Token> {
    match Get(styles, "column_widths")
    case Items(items, _) =>
      if items == [] || exists v | v in items :: !IsPositive(v) then [] else Wrap("colgroup", [], Columns(items))
    case _ => []
  }

  function Columns(items: seq<Value>): seq<Token> {
    if items == [] then [] else [Void("col", [Attr("style", Some("width:" + StrOf(items[0])))])] + Columns(items[1..])
  }

  /** Digits, single underscores between them allowed. */
  predicate IsNumeral(s: string) {
    && s != "" && IsDigit(s[0])
    && forall i | 0 < i < |s| :: IsDigit(s[i]) || (s[i] == '_' && i + 1 < |s| && IsDigit(s[i + 1]))
  }

  function WithoutUnderscores(s: string): (r: string)
    requires forall i | 0 <= i < |s| :: IsDigit(s[i]) || s[i] == '_'
    ensures AllDigits(r)
  {
    if s == "" then "" else (if s[0] == '_' then "" else [s[0]]) + WithoutUnderscores(s[1..])
  }

  /** `int(v)`: a float toward zero, a text as a decimal numeral; none where it raises. */
  function IntOf(v: Value): Option<int> {
    match v
    case Number(k) => Some(k)
    case Flag(on) => Some(if on then 1 else 0)
    case Float(r, _) => Some(if r >= 0.0 then r.Floor else -(-r).Floor)
    case Str(text) =>
      var s := Strip(text);
      var signed := s != "" && (s[0] == '-' || s[0] == '+');
      var digits := if signed then s[1..] else s;
      if !IsNumeral(digits) then None
      else
        var k: int := Decimal.Value(WithoutUnderscores(digits));
        Some(if signed && s[0] == '-' then -k else k)
    case _ => None
  }

  /** The heading level before clamping: 1 when absent, zero or empty, or where the source raises. */
  function HeadingLevel(n: IRNode): int {
    var level := Get(n.attributes, "level");
    match if Truthy(level) then IntOf(level) else None
    case Some(k) => k
    case None => 1
  }

  function Clamp(level: int): (k: nat)
    ensures 1 <= k <= 6
  {
    if level < 1 then 1 else if level > 6 then 6 else level
  }

  function Placeholder(n: IRNode): seq<Token> {
    var classes := StyleClasses(n.styles, "placeholder_classes");
    Wrap("div", ClassAttr(if classes == [] then ["extracted-image-placeholder"] else classes),
         [Chars("[Image unavailable: " + StrOr(n.attributes, "alt", "") + "]")])
  }

  function Img(n: IRNode): seq<Token> {
    [Void("img", [Attr("src", Some(StrOf(Get(n.attributes, "src")))), Attr("alt", Some(StrOr(n.attributes, "alt", ""))),
                  Attr("loading", Some(StrOr(n.attributes, "loading", "lazy")))]
                 + SizeAttr(n, "width") + SizeAttr(n, "height"))]
  }

  function Caption(n: IRNode): seq<Token> {
    var caption := StrOr(n.attributes, "caption", "");
    if caption == "" then [] else Wrap("figcaption", ClassAttr(StyleClasses(n.styles, "caption_classes")), [Chars(caption)])
  }

  function RenderImage(n: IRNode): seq<Token> {
    Wrap("figure", NodeAttrs(n, {"alt", "src", "caption", "loading", "missing"}),
         (if Truthy(Get(n.attributes, "missing")) || !Truthy(Get(n.attributes, "src")) then Placeholder(n) else Img(n)) + Caption(n))
  }

  /** Left out where the source raises. */
  function SizeAttr(n: IRNode, key: string): seq<Attr> {
    match IntOf(Get(n.attributes, key))
    case Some(k) => [Attr(key, Some(StrOf(Number(k))))]
    case None => []
  }

  function Badge(n: IRNode): seq<Attr> {
    var classes := StyleClasses(n.styles, "badge_classes");
    var spoken := StrOr(n.attributes, "badge_label", "");
    ClassAttr(if classes == [] then ["slide-badge"] else classes)
    + (if spoken == "" then [] else [Attr("aria-label", Some(spoken))])
  }

  function DictOf(v: Value): seq<(string, Value)> {
    if v.Dict? then v.entries else []
  }

  // ----- Well-formedness -----

  /** Every raw content in the tree is balanced on its own. */
  predicate BalancedContents(n: IRNode)
    decreases n
  {
    Balanced(n.content) && forall c | c in n.children :: BalancedContents(c)
  }

  lemma {:induction false} ReadAppend(a: seq<Token>, b: seq<Token>, stack: seq<string>)
    ensures Read(a + b, stack) == if Read(a, stack).Some? then Read(b, Read(a, stack).value) else None
  {
    if a == [] {
      assert a + b == b;
    } else {
      assert (a + b)[1..] == a[1..] + b;
      match a[0] {
        case Open(tag, _) => ReadAppend(a[1..], b, [tag] + stack);
        case Close(tag) => if stack != [] && stack[0] == tag { ReadAppend(a[1..], b, stack[1..]); }
        case Void(_, _) => ReadAppend(a[1..], b, stack);
        case Chars(_) => ReadAppend(a[1..], b, stack);
      }
    }
  }

  /** What is read inside open tags does not depend on the tags around it. */
  lemma {:induction false} ReadInside(ts: seq<Token>, stack: seq<string>, outer: seq<string>)
    requires Read(ts, stack).Some?
    ensures Read(ts, stack + outer) == Some(Read(ts, stack).value + outer)
  {
    if ts != [] {
      match ts[0] {
        case Open(tag, _) =>
          assert [tag] + (stack + outer) == [tag] + stack + outer;
          ReadInside(ts[1..], [tag] + stack, outer);
        case Close(tag) =>
          assert (stack + outer)[1..] == stack[1..] + outer;
          ReadInside(ts[1..], stack[1..], outer);
        case Void(_, _) => ReadInside(ts[1..], stack, outer);
        case Chars(_) => ReadInside(ts[1..], stack, outer);
      }
    }
  }

  lemma BalancedAppend(a: seq<Token>, b: seq<Token>)
    requires Balanced(a) && Balanced(b)
    ensures Balanced(a + b)
  {
    ReadAppend(a, b, []);
  }

  lemma ReadClose(tag: string)
    ensures Read([Close(tag)], [tag]) == Some([])
  {
    assert [tag][1..] == [] && [Close(tag)][1..] == [];
  }

  lemma {:induction false} ReadOpen(tag: string, attrs: seq<Attr>, rest: seq<Token>)
    ensures Read([Open(tag, attrs)] + rest, []) == Read(rest, [tag])
  {
    assert ([Open(tag, attrs)] + rest)[1..] == rest;
    assert [tag] + [] == [tag];
  }

  lemma BalancedWrap(tag: string, attrs: seq<Attr>, inner: seq<Token>)
    requires Balanced(inner)
    ensures Balanced(Wrap(tag, attrs, inner))
  {
    var ts := Wrap(tag, attrs, inner);
    assert ts[1..] == inner + [Close(tag)];
    ReadInside(inner, [], [tag]);
    assert [] + [tag] == [tag];
    ReadAppend(inner, [Close(tag)], [tag]);
    ReadClose(tag);
    ReadOpen(tag, attrs, inner + [Close(tag)]);
    assert ts == [Open(tag, attrs)] + (inner + [Close(tag)]);
  }

  lemma BalancedChars(text: string)
    ensures Balanced([Chars(text)])
  {
    assert [Chars(text)][1..] == [];
  }

  lemma BalancedVoid(tag: string, attrs: seq<Attr>)
    ensures Balanced([Void(tag, attrs)])
  {
    assert [Void(tag, attrs)][1..] == [];
  }

  lemma {:induction false} BalancedColumns(items: seq<Value>)
    ensures Balanced(Columns(items))
  {
    hide StrOf;
    if items != [] {
      BalancedVoid("col", [Attr("style", Some("width:" + StrOf(items[0])))]);
      BalancedColumns(items[1..]);
      BalancedAppend([Void("col", [Attr("style", Some("width:" + StrOf(items[0])))])], Columns(items[1..]));
    }
  }

  lemma BalancedTable(n: IRNode, head: seq<Token>, body: seq<Token>)
    requires Balanced(head) && Balanced(body)
    ensures Balanced(RenderTable(n, head, body))
  {
    hide StyleClasses, ClassAttr, RenderAttrs, Wrap, Columns, IsPositive;
    var wrapper := StyleClasses(n.styles, "wrapper_classes");
    var attrs := ClassAttr(if wrapper == [] then ["table-wrapper"] else wrapper);
    var tableAttrs := RenderAttrs(n.attributes, StyleClasses(n.styles, "table_classes"), {"section"});
    var cols := Colgroup(n.styles);
    if cols != [] {
      BalancedColumns(Get(n.styles, "column_widths").items);
      BalancedWrap("colgroup", [], Columns(Get(n.styles, "column_widths").items));
    }
    BalancedWrap("thead", [], head);
    BalancedWrap("tbody", [], body);
    BalancedAppend(cols, Wrap("thead", [], head));
    BalancedAppend(cols + Wrap("thead", [], head), Wrap("tbody", [], body));
    var inner := cols + Wrap("thead", [], head) + Wrap("tbody", [], body);
    BalancedWrap("table", tableAttrs, inner);
    BalancedWrap("div", attrs, Wrap("table", tableAttrs, inner));
  }

  lemma BalancedImage(n: IRNode)
    ensures Balanced(RenderImage(n))
  {
    hide StyleClasses, ClassAttr, NodeAttrs, Wrap, StrOr, SizeAttr, StrOf;
    var caption := StrOr(n.attributes, "caption", "");
    var captionAttrs := ClassAttr(StyleClasses(n.styles, "caption_classes"));
    BalancedChars(caption);
    BalancedWrap("figcaption", captionAttrs, [Chars(caption)]);
    var captionHtml := if caption == "" then [] else Wrap("figcaption", captionAttrs, [Chars(caption)]);
    var placeholder := StyleClasses(n.styles, "placeholder_classes");
    var alt := StrOr(n.attributes, "alt", "");
    var missing := [Chars("[Image unavailable: " + alt + "]")];
    var classes := ClassAttr(if placeholder == [] then ["extracted-image-placeholder"] else placeholder);
    BalancedChars("[Image unavailable: " + alt + "]");
    BalancedWrap("div", classes, missing);
    var src := Get(n.attributes, "src");
    var imgAttrs := [Attr("src", Some(StrOf(src))), Attr("alt", Some(alt)), Attr("loading", Some(StrOr(n.attributes, "loading", "lazy")))]
      + SizeAttr(n, "width") + SizeAttr(n, "height");
    BalancedVoid("img", imgAttrs);
    var inner := if Truthy(Get(n.attributes, "missing")) || !Truthy(src) then Wrap("div", classes, missing) else [Void("img", imgAttrs)];
    BalancedAppend(inner, captionHtml);
    BalancedWrap("figure", NodeAttrs(n, {"alt", "src", "caption", "loading", "missing"}), inner + captionHtml);
  }

  lemma {:induction false} BalancedSlide(n: IRNode, inner: seq<Token>)
    requires n.kind.Slide? && Balanced(inner) && inner == RenderChildren(n.children)
    ensures Balanced(Render(n))
  {
    hide NodeAttrs, Badge, StrOr, Wrap, RenderChildren;
    var text := StrOr(n.attributes, "badge_text", "");
    BalancedChars(text);
    BalancedWrap("span", Badge(n), [Chars(text)]);
    BalancedAppend(Wrap("span", Badge(n), [Chars(text)]), inner);
    BalancedWrap("section", NodeAttrs(n, {"badge_text", "badge_label"}), Wrap("span", Badge(n), [Chars(text)]) + inner);
  }

  lemma {:induction false} BalancedNotes(n: IRNode, inner: seq<Token>)
    requires n.kind.Notes? && Balanced(inner) && inner == RenderChildren(n.children)
    ensures Balanced(Render(n))
  {
    hide NodeAttrs, RenderAttrs, DictOf, StyleClasses, StrOr, Wrap, RenderChildren;
    var text := StrOr(n.attributes, "summary", "Speaker Notes");
    var summaryAttrs := RenderAttrs(DictOf(Get(n.attributes, "summary_attributes")), [], {});
    var contentAttrs := RenderAttrs(DictOf(Get(n.attributes, "content_attributes")), StyleClasses(n.styles, "content_classes"), {});
    BalancedChars(text);
    BalancedWrap("summary", summaryAttrs, [Chars(text)]);
    BalancedWrap("div", contentAttrs, inner);
    BalancedAppend(Wrap("summary", summaryAttrs, [Chars(text)]), Wrap("div", contentAttrs, inner));
    BalancedWrap("details", NodeAttrs(n, {"summary", "summary_attributes", "content_attributes"}),
                 Wrap("summary", summaryAttrs, [Chars(text)]) + Wrap("div", contentAttrs, inner));
  }

  /** Every tree with balanced raw contents renders to balanced, properly nested
      markup. */
  lemma {:induction false} RenderIsBalanced(n: IRNode)
    requires BalancedContents(n)
    ensures Balanced(Render(n))
    decreases n, 1
  {
    hide NodeAttrs, RenderAttrs, StrOr, Wrap, RenderChildren, RowsWhere, RenderTable, RenderImage, HeadingLevel, Truthy, Balanced;
    ChildrenAreBalanced(n.children);
    BalancedAppend(n.content, RenderChildren(n.children));
    var inner := n.content + RenderChildren(n.children);
    match n.kind {
      case Document =>
        BalancedWrap(Strip(StrOr(n.attributes, "tag", "")), NodeAttrs(n, {"tag"}), inner);
      case Heading => BalancedWrap("h" + Print(Clamp(HeadingLevel(n))), NodeAttrs(n, {"level"}), n.content);
      case Paragraph => BalancedWrap("p", NodeAttrs(n, {}), n.content);
      case List =>
        BalancedWrap(if Truthy(Get(n.attributes, "ordered")) then "ol" else "ul", NodeAttrs(n, {"ordered"}), RenderChildren(n.children));
      case ListItem => BalancedWrap("li", NodeAttrs(n, {}), inner);
      case Table =>
        RowsAreBalanced(n.children, true);
        RowsAreBalanced(n.children, false);
        BalancedTable(n, RowsWhere(n.children, true), RowsWhere(n.children, false));
      case TableRow => BalancedWrap("tr", NodeAttrs(n, {"section"}), RenderChildren(n.children));
      case TableCell =>
        BalancedWrap(if Truthy(Get(n.attributes, "header")) then "th" else "td", NodeAttrs(n, {"header"}), inner);
      case Image => BalancedImage(n);
      case Slide => BalancedSlide(n, RenderChildren(n.children));
      case Notes => BalancedNotes(n, RenderChildren(n.children));
      case _ =>
        var tag := Strip(StrOr(n.attributes, "tag", "div"));
        BalancedWrap(if tag == "" then "div" else tag, NodeAttrs(n, {"tag"}), inner);
    }
  }

  lemma {:induction false} ChildrenAreBalanced(children: seq<IRNode>)
    requires forall c | c in children :: BalancedContents(c)
    ensures Balanced(RenderChildren(children))
    decreases children, 0
  {
    hide Render;
    if children != [] {
      RenderIsBalanced(children[0]);
      ChildrenAreBalanced(children[1..]);
      BalancedAppend(Render(children[0]), RenderChildren(children[1..]));
    }
  }

  lemma {:induction false} RowsAreBalanced(children: seq<IRNode>, header: bool)
    requires forall c | c in children :: BalancedContents(c)
    ensures Balanced(RowsWhere(children, header))
    decreases children, 0
  {
    hide Render, IsHeaderRow;
    if children != [] {
      RenderIsBalanced(children[0]);
      RowsAreBalanced(children[1..], header);
      BalancedAppend(if IsHeaderRow(children[0]) == header then Render(children[0]) else [], RowsWhere(children[1..], header));
    }
  }

  // ----- Tables -----

  /** The positions, from `from` on, of the rows whose section is the header, or not. */
  function Positions(children: seq<IRNode>, header: bool, from: nat): seq<nat>
    decreases |children| - from
  {
    if from >= |children| then []
    else (if IsHeaderRow(children[from]) == header then [from] else []) + Positions(children, header, from + 1)
  }

  predicate InRange(order: seq<nat>, n: nat) {
    forall j | 0 <= j < |order| :: order[j] < n
  }

  /** The rendered children at these positions. */
  function RenderAt(children: seq<IRNode>, order: seq<nat>): seq<Token>
    requires InRange(order, |children|)
  {
    if order == [] then [] else Render(children[order[0]]) + RenderAt(children, order[1..])
  }

  lemma {:induction false} PositionsMembers(children: seq<IRNode>, header: bool, from: nat, i: nat)
    ensures i in Positions(children, header, from) <==> from <= i < |children| && IsHeaderRow(children[i]) == header
    decreases |children| - from
  {
    hide IsHeaderRow;
    if from < |children| {
      PositionsMembers(children, header, from + 1, i);
    }
  }

  lemma {:induction false} PositionsSorted(children: seq<IRNode>, header: bool, from: nat)
    ensures var ps := Positions(children, header, from);
      InRange(ps, |children|) && forall j, k | 0 <= j < k < |ps| :: ps[j] < ps[k]
    decreases |children| - from
  {
    hide IsHeaderRow;
    if from < |children| {
      PositionsSorted(children, header, from + 1);
      var rest := Positions(children, header, from + 1);
      forall k | 0 <= k < |rest| ensures from < rest[k] {
        PositionsMembers(children, header, from + 1, rest[k]);
      }
    }
  }

  lemma {:induction false} RowsAtPositions(children: seq<IRNode>, header: bool, from: nat)
    requires from <= |children| && InRange(Positions(children, header, from), |children|)
    ensures RowsWhere(children[from..], header) == RenderAt(children, Positions(children, header, from))
    decreases |children| - from
  {
    hide IsHeaderRow, Render;
    if from < |children| {
      PositionsSorted(children, header, from + 1);
      assert children[from..][1..] == children[from + 1..];
      RowsAtPositions(children, header, from + 1);
      var rest := Positions(children, header, from + 1);
      if IsHeaderRow(children[from]) == header {
        assert ([from] + rest)[1..] == rest;
      } else {
        assert [] + rest == rest;
      }
    }
  }

  // ----- What the dictionaries say -----

  /** The dictionary holds this value under the key, or nothing and the value is `Null`. */
  ghost predicate Holds(d: seq<(string, Value)>, key: string, v: Value) {
    || (v == Null && forall i | 0 <= i < |d| :: d[i].0 != key)
    || exists i | 0 <= i < |d| :: d[i] == (key, v) && forall j | 0 <= j < i :: d[j].0 != key
  }

  /** What Python counts as false. */
  predicate IsFalsy(v: Value) {
    || v == Null || v == Flag(false) || v == Number(0) || v == Str("")
    || (v.Float? && v.r == 0.0) || (v.Items? && v.items == []) || (v.Dict? && v.entries == [])
  }

  /** The key has a value that Python counts as true. */
  ghost predicate IsSet(d: seq<(string, Value)>, key: string) {
    exists v :: Holds(d, key, v) && !IsFalsy(v)
  }

  /** The text under the key, or the default where there is nothing that counts as true. */
  ghost predicate Says(d: seq<(string, Value)>, key: string, default: string, text: string) {
    exists v :: Holds(d, key, v) && text == if IsFalsy(v) then default else StrOf(v)
  }

  lemma {:induction false} HoldsIff(d: seq<(string, Value)>, key: string, v: Value)
    ensures Holds(d, key, v) <==> Get(d, key) == v
  {
    if d != [] && d[0].0 != key {
      var t := d[1..];
      HoldsIff(t, key, v);
      assert forall i | 0 <= i < |t| :: t[i] == d[i + 1];
      if i :| 0 <= i < |t| && t[i] == (key, v) && forall j | 0 <= j < i :: t[j].0 != key {
        assert d[i + 1] == (key, v) && forall j | 0 < j < i + 1 :: d[j] == t[j - 1];
      }
      if i :| 0 <= i < |d| && d[i] == (key, v) && forall j | 0 <= j < i :: d[j].0 != key {
        assert t[i - 1] == (key, v);
      }
      if forall i | 0 <= i < |t| :: t[i].0 != key {
        assert forall i | 0 < i < |d| :: d[i] == t[i - 1];
      }
    }
  }

  lemma {:induction false} TruthyIff(d: seq<(string, Value)>, key: string)
    ensures IsSet(d, key) <==> Truthy(Get(d, key))
    ensures Holds(d, key, Get(d, key))
  {
    hide Holds, Get;
    forall v ensures Holds(d, key, v) <==> Get(d, key) == v {
      HoldsIff(d, key, v);
    }
    assert Holds(d, key, Get(d, key));
    assert IsFalsy(Get(d, key)) <==> !Truthy(Get(d, key));
  }

  lemma SaysIff(d: seq<(string, Value)>, key: string, default: string, text: string)
    ensures Says(d, key, default, text) <==> text == StrOr(d, key, default)
  {
    hide Holds, Get, StrOf;
    forall v ensures Holds(d, key, v) <==> Get(d, key) == v {
      HoldsIff(d, key, v);
    }
    assert IsFalsy(Get(d, key)) <==> !Truthy(Get(d, key));
  }

  // ----- Attributes, in terms of the dictionaries -----

  /** Positions in order. */
  predicate Ascending(at: seq<nat>) {
    forall i, j | 0 <= i < j < |at| :: at[i] < at[j]
  }

  predicate IsShown(entry: (string, Value), reserved: set<string>) {
    entry.0 !in reserved && (entry.1 == Flag(true) || entry.1.Number? || entry.1.Float? || entry.1.Str?)
  }

  /** Every entry with a plain value that is not reserved is shown once, in order; `true` as a
      bare name. */
  ghost predicate ShowsEntries(attrs: seq<Attr>, entries: seq<(string, Value)>, reserved: set<string>, at: seq<nat>) {
    && |at| == |attrs| && Ascending(at)
    && (forall i | 0 <= i < |at| ::
         && at[i] < |entries| && IsShown(entries[at[i]], reserved)
         && attrs[i] == Attr(entries[at[i]].0, if entries[at[i]].1.Flag? then None else Some(StrOf(entries[at[i]].1))))
    && forall k | 0 <= k < |entries| && IsShown(entries[k], reserved) :: k in at
  }

  /** The parts that are not blank, stripped, in order. */
  ghost predicate TrimmedParts(names: seq<string>, parts: seq<string>, at: seq<nat>) {
    && |at| == |names| && Ascending(at)
    && (forall i | 0 <= i < |at| :: at[i] < |parts| && names[i] == Strip(parts[at[i]]) && names[i] != "")
    && forall k | 0 <= k < |parts| && Strip(parts[k]) != "" :: k in at
  }

  /** One class attribute with the names that are not blank, none without any. */
  ghost predicate IsClassAttr(attrs: seq<Attr>, parts: seq<string>) {
    exists names: seq<string>, at: seq<nat> :: TrimmedParts(names, parts, at)
      && attrs == if names == [] then [] else [Attr("class", Some(Join(names, " ")))]
  }

  /** The names a style value lists: a list's items, otherwise the value itself. */
  function Listed(v: Value): seq<string> {
    match v
    case Null => []
    case Items(items, _) => Map(StrOf, items)
    case other => [StrOf(other)]
  }

  /** Nothing, a blank text, or a list of blank items. */
  predicate Unset(v: Value) {
    v == Null || ((v.Str? || v.Items?) && forall i | 0 <= i < |Listed(v)| :: Strip(Listed(v)[i]) == "")
  }

  /** The class attribute that a style gives, or the default where it names no class. */
  ghost predicate ClassesOf(attrs: seq<Attr>, styles: seq<(string, Value)>, key: string, default: string) {
    exists v :: Holds(styles, key, v) && IsClassAttr(attrs, if Unset(v) then [default] else Listed(v))
  }

  /** Classes first, then the entries that are shown. */
  ghost predicate AttrsOf(attrs: seq<Attr>, entries: seq<(string, Value)>, styles: seq<(string, Value)>, key: string, reserved: set<string>) {
    exists classes: seq<Attr>, plain: seq<Attr>, at: seq<nat> ::
      attrs == classes + plain && ClassesOf(classes, styles, key, "") && ShowsEntries(plain, entries, reserved, at)
  }

  function ShownAs(entry: (string, Value), reserved: set<string>): Option<Attr> {
    if IsShown(entry, reserved) then Some(Attr(entry.0, if entry.1.Flag? then None else Some(StrOf(entry.1)))) else None
  }

  lemma {:induction false} PlainAttrsAreFound(entries: seq<(string, Value)>, reserved: set<string>)
    ensures PlainAttrs(entries, reserved) == FilterMap(e => ShownAs(e, reserved), entries)
  {
    if entries != [] {
      PlainAttrsAreFound(entries[1..], reserved);
      hide StrOf;
    }
  }

  lemma PlainAttrsShow(entries: seq<(string, Value)>, reserved: set<string>) returns (at: seq<nat>)
    ensures ShowsEntries(PlainAttrs(entries, reserved), entries, reserved, at)
  {
    PlainAttrsAreFound(entries, reserved);
    at := FilterMapPositions(e => ShownAs(e, reserved), entries);
    hide FilterMap, PlainAttrs, IsShown, StrOf;
  }

  function Stripped(part: string): Option<string> {
    if Strip(part) == "" then None else Some(Strip(part))
  }

  lemma {:induction false} NonBlankIsFound(parts: seq<string>)
    ensures NonBlank(parts) == FilterMap(Stripped, parts)
  {
    if parts != [] {
      NonBlankIsFound(parts[1..]);
      hide Strip;
    }
  }

  lemma ClassAttrIs(parts: seq<string>)
    ensures IsClassAttr(ClassAttr(parts), parts)
  {
    NonBlankIsFound(parts);
    var at := FilterMapPositions(Stripped, parts);
    hide FilterMap, NonBlank, Strip, Join;
    assert TrimmedParts(NonBlank(parts), parts, at);
  }

  lemma {:induction false} StrippedStringsAreNonBlank(items: seq<Value>)
    ensures NonBlank(StrippedStrings(items)) == NonBlank(Map(StrOf, items))
    ensures StrippedStrings(items) == [] <==> forall i | 0 <= i < |items| :: Strip(StrOf(items[i])) == ""
  {
    if items != [] {
      StrippedStringsAreNonBlank(items[1..]);
      var texts := Map(StrOf, items);
      hide Strip, StrOf;
      assert texts[1..] == Map(StrOf, items[1..]);
      assert forall i | 0 < i < |items| :: items[i] == items[1..][i - 1];
      if Strip(StrOf(items[0])) != "" {
        assert ([StrOf(items[0])] + StrippedStrings(items[1..]))[1..] == StrippedStrings(items[1..]);
      } else {
        assert [] + StrippedStrings(items[1..]) == StrippedStrings(items[1..]);
      }
    }
  }

  /** What a style's classes come to. */
  lemma {:induction false} StyleClassesAre(styles: seq<(string, Value)>, key: string)
    ensures StyleClasses(styles, key) == [] <==> Unset(Get(styles, key))
    ensures !Unset(Get(styles, key)) ==> ClassAttr(StyleClasses(styles, key)) == ClassAttr(Listed(Get(styles, key)))
  {
    var v := Get(styles, key);
    assert v.Str? ==> StrOf(v) == v.text;
    hide Strip, StrOf;
    if v.Items? {
      StrippedStringsAreNonBlank(v.items);
      assert forall i | 0 <= i < |v.items| :: Listed(v)[i] == StrOf(v.items[i]);
    } else if v.Str? {
      assert Listed(v)[0] == v.text;
    }
  }

  lemma ClassesAre(styles: seq<(string, Value)>, key: string, default: string)
    ensures var found := StyleClasses(styles, key);
      ClassesOf(ClassAttr(if found == [] then [default] else found), styles, key, default)
    ensures default == "" ==> ClassesOf(ClassAttr(StyleClasses(styles, key)), styles, key, default)
  {
    var v := Get(styles, key);
    HoldsIff(styles, key, v);
    StyleClassesAre(styles, key);
    ClassAttrIs([default]);
    ClassAttrIs(Listed(v));
    assert Strip("") == "";
    assert ClassAttr([""]) == ClassAttr([]) by { assert NonBlank([""]) == NonBlank([]); }
    hide Holds, Unset, Listed, IsClassAttr, ClassAttr, StyleClasses;
  }

  lemma AttrsAre(entries: seq<(string, Value)>, styles: seq<(string, Value)>, key: string, reserved: set<string>)
    ensures AttrsOf(RenderAttrs(entries, StyleClasses(styles, key), reserved), entries, styles, key, reserved)
  {
    ClassesAre(styles, key, "");
    var at := PlainAttrsShow(entries, reserved);
    hide ClassesOf, ShowsEntries, ClassAttr, PlainAttrs, StyleClasses;
  }

  // ----- What is rendered, in terms of the tokens -----

  /** The tokens are one element: its tag opened, what is inside, its tag closed. */
  predicate IsElement(ts: seq<Token>, tag: string, attrs: seq<Attr>, inner: seq<Token>) {
    ts == [Open(tag, attrs)] + inner + [Close(tag)]
  }

  /** One element with the node's own classes and attributes. */
  ghost predicate IsNodeElement(ts: seq<Token>, tag: string, n: IRNode, reserved: set<string>, inner: seq<Token>) {
    exists attrs: seq<Attr> :: AttrsOf(attrs, n.attributes, n.styles, "classes", reserved) && IsElement(ts, tag, attrs, inner)
  }

  /** All the children, rendered one after the other. */
  function RenderAll(children: seq<IRNode>): seq<Token> {
    RenderAt(children, seq(|children|, i requires 0 <= i < |children| => i))
  }

  /** The section text is "thead", whatever the case. */
  ghost predicate IsHead(row: IRNode) {
    exists section: string :: Says(row.attributes, "section", "", section) && IsLowerOf("thead", section)
  }

  /** The positions of the header rows, or of the others, in order. */
  ghost predicate RowsAt(children: seq<IRNode>, header: bool, at: seq<nat>) {
    && InRange(at, |children|) && Ascending(at)
    && (forall i | 0 <= i < |at| :: IsHead(children[at[i]]) == header)
    && forall k | 0 <= k < |children| && IsHead(children[k]) == header :: k in at
  }

  /** One column for each width if there are any and all are positive, otherwise nothing. */
  ghost predicate IsColgroup(ts: seq<Token>, styles: seq<(string, Value)>) {
    exists v :: Holds(styles, "column_widths", v)
      && if v.Items? && v.items != [] && forall i | 0 <= i < |v.items| :: IsPositive(v.items[i])
         then IsElement(ts, "colgroup", [], seq(|v.items|, i requires 0 <= i < |v.items| =>
                Void("col", [Attr("style", Some("width:" + StrOf(v.items[i])))])))
         else ts == []
  }

  /** A table in its wrapper: the columns, the header rows in the head, the others in the
      body. */
  ghost predicate IsTable(n: IRNode, ts: seq<Token>, head: seq<nat>, body: seq<nat>)
    requires InRange(head, |n.children|) && InRange(body, |n.children|)
  {
    exists wrapper: seq<Attr>, attrs: seq<Attr>, columns: seq<Token> ::
      && ClassesOf(wrapper, n.styles, "wrapper_classes", "table-wrapper")
      && AttrsOf(attrs, n.attributes, n.styles, "table_classes", {"section"})
      && IsColgroup(columns, n.styles)
      && ts == [Open("div", wrapper), Open("table", attrs)] + columns
               + [Open("thead", [])] + RenderAt(n.children, head) + [Close("thead")]
               + [Open("tbody", [])] + RenderAt(n.children, body) + [Close("tbody")]
               + [Close("table"), Close("div")]
  }

  /** A whole number in an attribute, left out where there is none. */
  ghost predicate IsSize(attrs: seq<Attr>, n: IRNode, key: string) {
    exists v :: Holds(n.attributes, key, v)
      && attrs == if IntOf(v).Some? then [Attr(key, Some(StrOf(Number(IntOf(v).value))))] else []
  }

  /** The image with its source, text and sizes. */
  ghost predicate IsImg(ts: seq<Token>, n: IRNode) {
    exists src: string, alt: string, loading: string, width: seq<Attr>, height: seq<Attr> ::
      && Says(n.attributes, "src", "", src) && Says(n.attributes, "alt", "", alt) && Says(n.attributes, "loading", "lazy", loading)
      && IsSize(width, n, "width") && IsSize(height, n, "height")
      && ts == [Void("img", [Attr("src", Some(src)), Attr("alt", Some(alt)), Attr("loading", Some(loading))] + width + height)]
  }

  ghost predicate IsPlaceholder(ts: seq<Token>, n: IRNode) {
    exists alt: string, attrs: seq<Attr> ::
      && Says(n.attributes, "alt", "", alt) && ClassesOf(attrs, n.styles, "placeholder_classes", "extracted-image-placeholder")
      && IsElement(ts, "div", attrs, [Chars("[Image unavailable: " + alt + "]")])
  }

  ghost predicate IsCaption(ts: seq<Token>, n: IRNode) {
    exists caption: string, attrs: seq<Attr> ::
      && Says(n.attributes, "caption", "", caption) && ClassesOf(attrs, n.styles, "caption_classes", "")
      && if caption == "" then ts == [] else IsElement(ts, "figcaption", attrs, [Chars(caption)])
  }

  /** The image, or a placeholder where it is missing or has no source, and its caption. */
  ghost predicate IsFigure(ts: seq<Token>, n: IRNode) {
    exists picture: seq<Token>, caption: seq<Token> ::
      && (if IsSet(n.attributes, "missing") || !IsSet(n.attributes, "src") then IsPlaceholder(picture, n) else IsImg(picture, n))
      && IsCaption(caption, n)
      && IsNodeElement(ts, "figure", n, {"alt", "src", "caption", "loading", "missing"}, picture + caption)
  }

  ghost predicate IsBadge(ts: seq<Token>, n: IRNode) {
    exists text: string, spoken: string, classes: seq<Attr> ::
      && Says(n.attributes, "badge_text", "", text) && Says(n.attributes, "badge_label", "", spoken)
      && ClassesOf(classes, n.styles, "badge_classes", "slide-badge")
      && IsElement(ts, "span", classes + (if spoken == "" then [] else [Attr("aria-label", Some(spoken))]), [Chars(text)])
  }

  ghost predicate IsSummary(ts: seq<Token>, n: IRNode) {
    exists text: string, v, attrs: seq<Attr> ::
      && Says(n.attributes, "summary", "Speaker Notes", text)
      && Holds(n.attributes, "summary_attributes", v) && AttrsOf(attrs, DictOf(v), [], "classes", {})
      && IsElement(ts, "summary", attrs, [Chars(text)])
  }

  ghost predicate IsNotesBody(ts: seq<Token>, n: IRNode) {
    exists v, attrs: seq<Attr> ::
      && Holds(n.attributes, "content_attributes", v) && AttrsOf(attrs, DictOf(v), n.styles, "content_classes", {})
      && IsElement(ts, "div", attrs, RenderAll(n.children))
  }

  /** The level counts as 1 where there is none, and is brought between 1 and 6. */
  ghost predicate IsLevel(level: int, n: IRNode) {
    exists v :: Holds(n.attributes, "level", v)
      && var k := if IsFalsy(v) || IntOf(v).None? then 1 else IntOf(v).value;
         1 <= level <= 6 && (level < k ==> level == 6) && (level > k ==> level == 1)
  }

  /** What a node is rendered to, kind by kind. */
  ghost predicate IsRendered(n: IRNode, ts: seq<Token>) {
    var all := n.content + RenderAll(n.children);
    match n.kind
    case Document =>
      exists tag: string :: Says(n.attributes, "tag", "", tag)
        && if Strip(tag) == "" then ts == all else IsNodeElement(ts, Strip(tag), n, {"tag"}, all)
    case Heading =>
      exists level: nat :: IsLevel(level, n) && IsNodeElement(ts, "h" + Print(level), n, {"level"}, n.content)
    case Paragraph => IsNodeElement(ts, "p", n, {}, n.content)
    case List => IsNodeElement(ts, if IsSet(n.attributes, "ordered") then "ol" else "ul", n, {"ordered"}, RenderAll(n.children))
    case ListItem => IsNodeElement(ts, "li", n, {}, all)
    case Table =>
      exists head: seq<nat>, body: seq<nat> ::
        RowsAt(n.children, true, head) && RowsAt(n.children, false, body) && IsTable(n, ts, head, body)
    case TableRow => IsNodeElement(ts, "tr", n, {"section"}, RenderAll(n.children))
    case TableCell => IsNodeElement(ts, if IsSet(n.attributes, "header") then "th" else "td", n, {"header"}, all)
    case Image => IsFigure(ts, n)
    case Slide =>
      exists badge: seq<Token> :: IsBadge(badge, n)
        && IsNodeElement(ts, "section", n, {"badge_text", "badge_label"}, badge + RenderAll(n.children))
    case Notes =>
      exists summary: seq<Token>, body: seq<Token> :: IsSummary(summary, n) && IsNotesBody(body, n)
        && IsNodeElement(ts, "details", n, {"summary", "summary_attributes", "content_attributes"}, summary + body)
    case _ =>
      exists tag: string :: Says(n.attributes, "tag", "div", tag)
        && IsNodeElement(ts, if Strip(tag) == "" then "div" else Strip(tag), n, {"tag"}, all)
  }

  lemma NodeElementIs(tag: string, n: IRNode, reserved: set<string>, inner: seq<Token>)
    ensures IsNodeElement(Wrap(tag, NodeAttrs(n, reserved), inner), tag, n, reserved, inner)
  {
    AttrsAre(n.attributes, n.styles, "classes", reserved);
    hide AttrsOf, RenderAttrs, StyleClasses;
  }

  lemma {:induction false} RenderAtFrom(children: seq<IRNode>, order: seq<nat>, from: nat)
    requires from <= |children| && InRange(order, |children|) && |order| == |children| - from
    requires forall i | 0 <= i < |order| :: order[i] == from + i
    ensures RenderChildren(children[from..]) == RenderAt(children, order)
    decreases |order|
  {
    hide Render;
    if from < |children| {
      assert children[from..][1..] == children[from + 1..];
      RenderAtFrom(children, order[1..], from + 1);
    }
  }

  lemma {:induction false} ChildrenInOrder(children: seq<IRNode>)
    ensures RenderChildren(children) == RenderAll(children)
  {
    assert children[0..] == children;
    RenderAtFrom(children, seq(|children|, i requires 0 <= i < |children| => i), 0);
  }

  lemma HeadIff(row: IRNode)
    ensures IsHead(row) <==> IsHeaderRow(row)
  {
    hide Says, StrOr, IsLowerOf;
    forall section: string
      ensures Says(row.attributes, "section", "", section) <==> section == StrOr(row.attributes, "section", "")
      ensures IsLowerOf("thead", section) <==> LowerAll(section) == "thead"
    {
      SaysIff(row.attributes, "section", "", section);
      LowerAllIff("thead", section);
    }
  }

  lemma RowsAreAt(children: seq<IRNode>, header: bool) returns (at: seq<nat>)
    ensures RowsAt(children, header, at) && InRange(at, |children|) && RowsWhere(children, header) == RenderAt(children, at)
  {
    at := Positions(children, header, 0);
    PositionsSorted(children, header, 0);
    RowsAtPositions(children, header, 0);
    assert children[0..] == children;
    hide IsHead, IsHeaderRow, Positions, RowsWhere, RenderAt;
    forall k | 0 <= k < |children| ensures k in at <==> IsHead(children[k]) == header {
      PositionsMembers(children, header, 0, k);
      HeadIff(children[k]);
    }
  }

  lemma {:induction false} ColumnsAre(items: seq<Value>)
    ensures Columns(items) == seq(|items|, i requires 0 <= i < |items| => Void("col", [Attr("style", Some("width:" + StrOf(items[i])))]))
  {
    if items != [] {
      ColumnsAre(items[1..]);
      hide StrOf;
    }
  }

  lemma ColgroupIs(styles: seq<(string, Value)>)
    ensures IsColgroup(Colgroup(styles), styles)
  {
    var v := Get(styles, "column_widths");
    HoldsIff(styles, "column_widths", v);
    hide Holds, IsPositive, StrOf, Columns;
    if v.Items? {
      ColumnsAre(v.items);
      assert (exists w | w in v.items :: !IsPositive(w)) <==> exists i | 0 <= i < |v.items| :: !IsPositive(v.items[i]);
    }
  }

  lemma {:induction false} TableOf(n: IRNode, head: seq<nat>, body: seq<nat>, wrapper: seq<Attr>, attrs: seq<Attr>, columns: seq<Token>)
    requires InRange(head, |n.children|) && InRange(body, |n.children|) && IsColgroup(columns, n.styles)
    requires ClassesOf(wrapper, n.styles, "wrapper_classes", "table-wrapper")
    requires AttrsOf(attrs, n.attributes, n.styles, "table_classes", {"section"})
    ensures IsTable(n, Wrap("div", wrapper, Wrap("table", attrs, columns
                              + Wrap("thead", [], RenderAt(n.children, head)) + Wrap("tbody", [], RenderAt(n.children, body)))), head, body)
  {
    hide RenderAt, ClassesOf, AttrsOf, IsColgroup, Wrap;
    TableTokens(wrapper, attrs, columns, RenderAt(n.children, head), RenderAt(n.children, body));
  }

  lemma {:induction false} TableUnfolds(n: IRNode, head: seq<Token>, body: seq<Token>)
    requires n.kind.Table? && head == RowsWhere(n.children, true) && body == RowsWhere(n.children, false)
    ensures Render(n) == Wrap("div", WrapperAttrs(n), Wrap("table", RenderAttrs(n.attributes, StyleClasses(n.styles, "table_classes"), {"section"}),
                              Colgroup(n.styles) + Wrap("thead", [], head) + Wrap("tbody", [], body)))
  {
    hide RowsWhere, ClassAttr, RenderAttrs, StyleClasses, Colgroup, Wrap;
  }

  /** The header rows stand in the head and the others in the body, each once and in order. */
  lemma TableRowsOnceAndInOrder(n: IRNode) returns (head: seq<nat>, body: seq<nat>)
    requires n.kind.Table?
    ensures RowsAt(n.children, true, head) && RowsAt(n.children, false, body)
    ensures InRange(head, |n.children|) && InRange(body, |n.children|) && IsTable(n, Render(n), head, body)
  {
    hide *;
    head := RowsAreAt(n.children, true);
    body := RowsAreAt(n.children, false);
    WrapperIs(n);
    AttrsAre(n.attributes, n.styles, "table_classes", {"section"});
    ColgroupIs(n.styles);
    var attrs := RenderAttrs(n.attributes, StyleClasses(n.styles, "table_classes"), {"section"});
    TableUnfolds(n, RenderAt(n.children, head), RenderAt(n.children, body));
    TableOf(n, head, body, WrapperAttrs(n), attrs, Colgroup(n.styles));
  }

  lemma WrapperIs(n: IRNode)
    ensures ClassesOf(WrapperAttrs(n), n.styles, "wrapper_classes", "table-wrapper")
  {
    ClassesAre(n.styles, "wrapper_classes", "table-wrapper");
    hide ClassesOf, ClassAttr, StyleClasses;
  }

  lemma TableTokens(wrapper: seq<Attr>, attrs: seq<Attr>, columns: seq<Token>, head: seq<Token>, body: seq<Token>)
    ensures Wrap("div", wrapper, Wrap("table", attrs, columns + Wrap("thead", [], head) + Wrap("tbody", [], body)))
      == [Open("div", wrapper), Open("table", attrs)] + columns
         + [Open("thead", [])] + head + [Close("thead")] + [Open("tbody", [])] + body + [Close("tbody")]
         + [Close("table"), Close("div")]
  {
  }

  lemma SizeIs(n: IRNode, key: string)
    ensures IsSize(SizeAttr(n, key), n, key)
  {
    HoldsIff(n.attributes, key, Get(n.attributes, key));
    hide Holds, IntOf, StrOf;
  }

  lemma PlaceholderIs(n: IRNode)
    ensures IsPlaceholder(Placeholder(n), n)
  {
    SaysIff(n.attributes, "alt", "", StrOr(n.attributes, "alt", ""));
    ClassesAre(n.styles, "placeholder_classes", "extracted-image-placeholder");
    hide Says, StrOr, ClassesOf, ClassAttr, StyleClasses;
  }

  lemma ImgIs(n: IRNode)
    requires Truthy(Get(n.attributes, "src"))
    ensures IsImg(Img(n), n)
  {
    var src, alt, loading := StrOf(Get(n.attributes, "src")), StrOr(n.attributes, "alt", ""), StrOr(n.attributes, "loading", "lazy");
    SaysIff(n.attributes, "src", "", src);
    SaysIff(n.attributes, "alt", "", alt);
    SaysIff(n.attributes, "loading", "lazy", loading);
    SizeIs(n, "width");
    SizeIs(n, "height");
    assert Says(n.attributes, "src", "", src) && Says(n.attributes, "alt", "", alt) && Says(n.attributes, "loading", "lazy", loading);
    hide Says, StrOr, Get, StrOf, IsSize, SizeAttr, Truthy;
  }

  lemma CaptionIs(n: IRNode)
    ensures IsCaption(Caption(n), n)
  {
    SaysIff(n.attributes, "caption", "", StrOr(n.attributes, "caption", ""));
    ClassesAre(n.styles, "caption_classes", "");
    hide Says, StrOr, ClassesOf, ClassAttr, StyleClasses;
  }

  lemma FigureOf(n: IRNode, picture: seq<Token>, caption: seq<Token>)
    requires if IsSet(n.attributes, "missing") || !IsSet(n.attributes, "src") then IsPlaceholder(picture, n) else IsImg(picture, n)
    requires IsCaption(caption, n)
    ensures IsFigure(Wrap("figure", NodeAttrs(n, {"alt", "src", "caption", "loading", "missing"}), picture + caption), n)
  {
    hide IsPlaceholder, IsImg, IsCaption, IsNodeElement, IsSet, Wrap, NodeAttrs;
    NodeElementIs("figure", n, {"alt", "src", "caption", "loading", "missing"}, picture + caption);
  }

  lemma {:induction false} ImageIs(n: IRNode)
    requires n.kind.Image?
    ensures IsFigure(Render(n), n)
  {
    TruthyIff(n.attributes, "missing");
    TruthyIff(n.attributes, "src");
    hide IsPlaceholder, IsImg, IsCaption, IsFigure, IsSet, Holds, Get, NodeAttrs, Truthy, Wrap, Placeholder, Img, Caption;
    PlaceholderIs(n);
    CaptionIs(n);
    if Truthy(Get(n.attributes, "src")) {
      ImgIs(n);
    }
    FigureOf(n, if Truthy(Get(n.attributes, "missing")) || !Truthy(Get(n.attributes, "src")) then Placeholder(n) else Img(n), Caption(n));
  }

  lemma {:induction false} SlideIs(n: IRNode)
    requires n.kind.Slide?
    ensures IsRendered(n, Render(n))
  {
    var text, spoken := StrOr(n.attributes, "badge_text", ""), StrOr(n.attributes, "badge_label", "");
    SaysIff(n.attributes, "badge_text", "", text);
    SaysIff(n.attributes, "badge_label", "", spoken);
    ClassesAre(n.styles, "badge_classes", "slide-badge");
    ChildrenInOrder(n.children);
    hide Says, StrOr, ClassesOf, ClassAttr, StyleClasses, NodeAttrs, RenderAll, RenderChildren;
    var badge := Wrap("span", Badge(n), [Chars(text)]);
    assert IsBadge(badge, n);
    hide IsBadge, Badge;
    NodeElementIs("section", n, {"badge_text", "badge_label"}, badge + RenderChildren(n.children));
  }

  lemma SummaryOf(n: IRNode, text: string, v: Value, attrs: seq<Attr>)
    requires Says(n.attributes, "summary", "Speaker Notes", text)
    requires Holds(n.attributes, "summary_attributes", v) && AttrsOf(attrs, DictOf(v), [], "classes", {})
    ensures IsSummary(Wrap("summary", attrs, [Chars(text)]), n)
  {
    hide Says, Holds, AttrsOf, DictOf;
    assert IsElement(Wrap("summary", attrs, [Chars(text)]), "summary", attrs, [Chars(text)]);
  }

  lemma SummaryIs(n: IRNode)
    ensures IsSummary(Wrap("summary", RenderAttrs(DictOf(Get(n.attributes, "summary_attributes")), [], {}),
                           [Chars(StrOr(n.attributes, "summary", "Speaker Notes"))]), n)
  {
    var v, text := Get(n.attributes, "summary_attributes"), StrOr(n.attributes, "summary", "Speaker Notes");
    SaysIff(n.attributes, "summary", "Speaker Notes", text);
    HoldsIff(n.attributes, "summary_attributes", v);
    AttrsAre(DictOf(v), [], "classes", {});
    assert StyleClasses([], "classes") == [];
    hide *;
    SummaryOf(n, text, v, RenderAttrs(DictOf(v), [], {}));
  }

  lemma NotesBodyOf(n: IRNode, v: Value, attrs: seq<Attr>, inner: seq<Token>)
    requires Holds(n.attributes, "content_attributes", v) && AttrsOf(attrs, DictOf(v), n.styles, "content_classes", {})
    requires inner == RenderAll(n.children)
    ensures IsNotesBody(Wrap("div", attrs, inner), n)
  {
    hide Holds, AttrsOf, DictOf, RenderAll;
    assert IsElement(Wrap("div", attrs, inner), "div", attrs, RenderAll(n.children));
  }

  lemma NotesBodyIs(n: IRNode)
    ensures IsNotesBody(Wrap("div", RenderAttrs(DictOf(Get(n.attributes, "content_attributes")),
                                                StyleClasses(n.styles, "content_classes"), {}),
                             RenderChildren(n.children)), n)
  {
    hide *;
    var v := Get(n.attributes, "content_attributes");
    HoldsIff(n.attributes, "content_attributes", v);
    AttrsAre(DictOf(v), n.styles, "content_classes", {});
    ChildrenInOrder(n.children);
    NotesBodyOf(n, v, RenderAttrs(DictOf(v), StyleClasses(n.styles, "content_classes"), {}), RenderChildren(n.children));
  }

  lemma {:induction false} NotesIs(n: IRNode)
    requires n.kind.Notes?
    ensures IsRendered(n, Render(n))
  {
    SummaryIs(n);
    NotesBodyIs(n);
    hide IsSummary, IsNotesBody, IsNodeElement, StrOr, Get, RenderAttrs, StyleClasses, NodeAttrs, DictOf, RenderChildren, Wrap;
    var summary := Wrap("summary", RenderAttrs(DictOf(Get(n.attributes, "summary_attributes")), [], {}),
                        [Chars(StrOr(n.attributes, "summary", "Speaker Notes"))]);
    var body := Wrap("div", RenderAttrs(DictOf(Get(n.attributes, "content_attributes")), StyleClasses(n.styles, "content_classes"), {}),
                     RenderChildren(n.children));
    NodeElementIs("details", n, {"summary", "summary_attributes", "content_attributes"}, summary + body);
  }

  lemma {:induction false} DigitsStay(s: string)
    requires AllDigits(s)
    ensures WithoutUnderscores(s) == s
  {
    if s != "" {
      DigitsStay(s[1..]);
    }
  }

  lemma {:induction false} PrintedIsNumeral(n: nat)
    ensures IsNumeral(Print(n)) && WithoutUnderscores(Print(n)) == Print(n) && Decimal.Value(Print(n)) == n
    ensures forall c | c in Print(n) :: !IsSpace(c) && c != '-' && c != '+'
  {
    DigitsStay(Print(n));
    ValuePrint(n);
    hide Print, Decimal.Value;
  }

  lemma {:induction false} IntOfDigits(s: string)
    requires IsNumeral(s) && WithoutUnderscores(s) == s && forall c | c in s :: !IsSpace(c) && c != '-' && c != '+'
    ensures IntOf(Str(s)) == Some(Decimal.Value(s))
  {
    assert s[0] in s && s[|s| - 1] in s;
    StripTrims(s);
    hide Strip, Decimal.Value, IsNumeral, WithoutUnderscores, IsSpace;
  }

  lemma MinusStays(s: string)
    requires s != "" && forall c | c in s :: !IsSpace(c)
    ensures Strip("-" + s) == "-" + s && ("-" + s)[1..] == s
  {
    var t := "-" + s;
    assert s[|s| - 1] in s && t[|s|] == s[|s| - 1] && !IsSpace('-');
    hide Strip, IsSpace;
    StripTrims(t);
  }

  lemma {:induction false} IntOfMinus(s: string)
    requires IsNumeral(s) && WithoutUnderscores(s) == s && forall c | c in s :: !IsSpace(c)
    ensures IntOf(Str("-" + s)) == Some(-(Decimal.Value(s) as int))
  {
    assert s != "";
    hide Strip, Decimal.Value, IsNumeral, WithoutUnderscores, IsSpace;
    MinusStays(s);
  }

  /** `int` undoes printing, with a minus sign too. */
  lemma {:induction false} IntOfPrinted(n: nat)
    ensures IntOf(Str(Print(n))) == Some(n) && IntOf(Str("-" + Print(n))) == Some(0 - n)
  {
    hide *;
    PrintedIsNumeral(n);
    IntOfDigits(Print(n));
    IntOfMinus(Print(n));
  }

  /** `int` takes a float toward zero. */
  lemma IntOfFloat(r: real, repr: string)
    ensures IntOf(Float(r, repr)).Some?
    ensures r >= 0.0 ==> 0.0 <= IntOf(Float(r, repr)).value as real <= r < IntOf(Float(r, repr)).value as real + 1.0
    ensures r <= 0.0 ==> IntOf(Float(r, repr)).value as real - 1.0 < r <= IntOf(Float(r, repr)).value as real <= 0.0
  {
  }

  lemma LevelIs(n: IRNode)
    ensures IsLevel(Clamp(HeadingLevel(n)), n)
  {
    HoldsIff(n.attributes, "level", Get(n.attributes, "level"));
    hide Holds, IntOf;
  }

  /** Every node is rendered to what its kind, attributes, styles and children say. */
  lemma {:induction false} RendersAsDescribed(n: IRNode)
    ensures IsRendered(n, Render(n))
  {
    hide NodeAttrs, RenderChildren, RenderAll, StrOr, Says, Get, Truthy, IsSet, Wrap, IsNodeElement, RowsWhere,
      RenderTable, RenderImage, HeadingLevel, Clamp, IsLevel, IsTable, RowsAt, IsFigure, Strip;
    ChildrenInOrder(n.children);
    var all := n.content + RenderAll(n.children);
    match n.kind {
      case Document =>
        var tag := StrOr(n.attributes, "tag", "");
        SaysIff(n.attributes, "tag", "", tag);
        NodeElementIs(Strip(tag), n, {"tag"}, all);
      case Heading =>
        LevelIs(n);
        NodeElementIs("h" + Print(Clamp(HeadingLevel(n))), n, {"level"}, n.content);
      case Paragraph => NodeElementIs("p", n, {}, n.content);
      case List =>
        TruthyIff(n.attributes, "ordered");
        NodeElementIs(if IsSet(n.attributes, "ordered") then "ol" else "ul", n, {"ordered"}, RenderAll(n.children));
      case ListItem => NodeElementIs("li", n, {}, all);
      case Table => var head, body := TableRowsOnceAndInOrder(n);
      case TableRow => NodeElementIs("tr", n, {"section"}, RenderAll(n.children));
      case TableCell =>
        TruthyIff(n.attributes, "header");
        NodeElementIs(if IsSet(n.attributes, "header") then "th" else "td", n, {"header"}, all);
      case Image => ImageIs(n);
      case Slide => SlideIs(n);
      case Notes => NotesIs(n);
      case _ =>
        var tag := StrOr(n.attributes, "tag", "div");
        SaysIff(n.attributes, "tag", "div", tag);
        NodeElementIs(if Strip(tag) == "" then "div" else Strip(tag), n, {"tag"}, all);
    }
  }

  // ----- Text -----

  /** How often the text `t` stands in the markup. */
  function Times(ts: seq<Token>, t: string): nat {
    if ts == [] then 0 else (if ts[0] == Chars(t) then 1 else 0) + Times(ts[1..], t)
  }

  function Once(text: string, t: string): nat {
    if text == t then 1 else 0
  }

  /** How often `t` stands in the contents of the tree. */
  function InTree(n: IRNode, t: string): nat
    decreases n, 1
  {
    Times(n.content, t) + InTrees(n.children, t)
  }

  function InTrees(ns: seq<IRNode>, t: string): nat
    decreases ns, 0
  {
    if ns == [] then 0 else InTree(ns[0], t) + InTrees(ns[1..], t)
  }

  /** How often the renderer writes `t` of its own: badges, summaries, captions and
      placeholders. Below headings, paragraphs and images it writes nothing. */
  function Supplied(n: IRNode, t: string): nat
    decreases n, 1
  {
    match n.kind
    case Heading => 0
    case Paragraph => 0
    case Image =>
      (if Truthy(Get(n.attributes, "missing")) || !Truthy(Get(n.attributes, "src"))
       then Once("[Image unavailable: " + StrOr(n.attributes, "alt", "") + "]", t) else 0)
      + (if StrOr(n.attributes, "caption", "") == "" then 0 else Once(StrOr(n.attributes, "caption", ""), t))
    case Slide => Once(StrOr(n.attributes, "badge_text", ""), t) + SuppliedBelow(n.children, t)
    case Notes => Once(StrOr(n.attributes, "summary", "Speaker Notes"), t) + SuppliedBelow(n.children, t)
    case _ => SuppliedBelow(n.children, t)
  }

  function SuppliedBelow(ns: seq<IRNode>, t: string): nat
    decreases ns, 0
  {
    if ns == [] then 0 else Supplied(ns[0], t) + SuppliedBelow(ns[1..], t)
  }

  /** How often `t` stands in contents that are not rendered: those of lists, tables, rows,
      slides and notes, everything below headings and paragraphs, and images altogether. */
  function Dropped(n: IRNode, t: string): nat
    decreases n, 1
  {
    match n.kind
    case Heading => InTrees(n.children, t)
    case Paragraph => InTrees(n.children, t)
    case Image => InTree(n, t)
    case List => Times(n.content, t) + DroppedBelow(n.children, t)
    case Table => Times(n.content, t) + DroppedBelow(n.children, t)
    case TableRow => Times(n.content, t) + DroppedBelow(n.children, t)
    case Slide => Times(n.content, t) + DroppedBelow(n.children, t)
    case Notes => Times(n.content, t) + DroppedBelow(n.children, t)
    case _ => DroppedBelow(n.children, t)
  }

  function DroppedBelow(ns: seq<IRNode>, t: string): nat
    decreases ns, 0
  {
    if ns == [] then 0 else Dropped(ns[0], t) + DroppedBelow(ns[1..], t)
  }

  lemma {:induction false} TimesAppend(a: seq<Token>, b: seq<Token>, t: string)
    ensures Times(a + b, t) == Times(a, t) + Times(b, t)
  {
    if a == [] {
      assert a + b == b;
    } else {
      assert (a + b)[1..] == a[1..] + b && (a + b)[0] == a[0];
      TimesAppend(a[1..], b, t);
    }
  }

  lemma {:induction false} TimesOne(x: Token, t: string)
    ensures Times([x], t) == if x == Chars(t) then 1 else 0
  {
    assert [x][1..] == [];
  }

  lemma {:induction false} TimesWrap(tag: string, attrs: seq<Attr>, inner: seq<Token>, t: string)
    ensures Times(Wrap(tag, attrs, inner), t) == Times(inner, t)
  {
    TimesAppend([Open(tag, attrs)] + inner, [Close(tag)], t);
    TimesAppend([Open(tag, attrs)], inner, t);
    TimesOne(Open(tag, attrs), t);
    TimesOne(Close(tag), t);
  }

  lemma {:induction false} TimesColumns(items: seq<Value>, t: string)
    ensures Times(Columns(items), t) == 0
  {
    hide StrOf;
    if items != [] {
      assert Columns(items)[1..] == Columns(items[1..]);
      TimesColumns(items[1..], t);
    }
  }

  lemma {:induction false} TimesTable(n: IRNode, head: seq<Token>, body: seq<Token>, t: string)
    ensures Times(RenderTable(n, head, body), t) == Times(head, t) + Times(body, t)
  {
    hide StyleClasses, ClassAttr, RenderAttrs, Wrap, Columns, IsPositive, Times;
    var wrapper := StyleClasses(n.styles, "wrapper_classes");
    var attrs := ClassAttr(if wrapper == [] then ["table-wrapper"] else wrapper);
    var tableAttrs := RenderAttrs(n.attributes, StyleClasses(n.styles, "table_classes"), {"section"});
    var cols := Colgroup(n.styles);
    NoColumnTexts(n.styles, t);
    TimesWrap("thead", [], head, t);
    TimesWrap("tbody", [], body, t);
    TimesAppend(cols, Wrap("thead", [], head), t);
    TimesAppend(cols + Wrap("thead", [], head), Wrap("tbody", [], body), t);
    var inner := cols + Wrap("thead", [], head) + Wrap("tbody", [], body);
    TimesWrap("table", tableAttrs, inner, t);
    TimesWrap("div", attrs, Wrap("table", tableAttrs, inner), t);
  }

  lemma {:induction false} NoColumnTexts(styles: seq<(string, Value)>, t: string)
    ensures Times(Colgroup(styles), t) == 0
  {
    hide Columns, IsPositive, Wrap;
    if Colgroup(styles) != [] {
      TimesColumns(Get(styles, "column_widths").items, t);
      TimesWrap("colgroup", [], Columns(Get(styles, "column_widths").items), t);
    }
  }

  lemma {:induction false} TimesImage(n: IRNode, t: string)
    requires n.kind.Image?
    ensures Times(RenderImage(n), t) == Supplied(n, t)
  {
    hide StyleClasses, ClassAttr, NodeAttrs, Wrap, StrOr, SizeAttr, StrOf, Times;
    var caption := StrOr(n.attributes, "caption", "");
    var captionAttrs := ClassAttr(StyleClasses(n.styles, "caption_classes"));
    TimesOne(Chars(caption), t);
    TimesWrap("figcaption", captionAttrs, [Chars(caption)], t);
    var captionHtml := if caption == "" then [] else Wrap("figcaption", captionAttrs, [Chars(caption)]);
    NoTokens(t);
    var placeholder := StyleClasses(n.styles, "placeholder_classes");
    var alt := StrOr(n.attributes, "alt", "");
    var missing := [Chars("[Image unavailable: " + alt + "]")];
    var classes := ClassAttr(if placeholder == [] then ["extracted-image-placeholder"] else placeholder);
    TimesOne(Chars("[Image unavailable: " + alt + "]"), t);
    TimesWrap("div", classes, missing, t);
    var src := Get(n.attributes, "src");
    var imgAttrs := [Attr("src", Some(StrOf(src))), Attr("alt", Some(alt)), Attr("loading", Some(StrOr(n.attributes, "loading", "lazy")))]
      + SizeAttr(n, "width") + SizeAttr(n, "height");
    TimesOne(Void("img", imgAttrs), t);
    var inner := if Truthy(Get(n.attributes, "missing")) || !Truthy(src) then Wrap("div", classes, missing) else [Void("img", imgAttrs)];
    TimesAppend(inner, captionHtml, t);
    TimesWrap("figure", NodeAttrs(n, {"alt", "src", "caption", "loading", "missing"}), inner + captionHtml, t);
  }

  lemma {:induction false} NoTokens(t: string)
    ensures Times([], t) == 0
  {
  }

  lemma {:induction false} TimesSlide(n: IRNode, t: string)
    requires n.kind.Slide?
    ensures Times(Render(n), t) == Once(StrOr(n.attributes, "badge_text", ""), t) + Times(RenderChildren(n.children), t)
  {
    hide NodeAttrs, Badge, StrOr, Wrap, RenderChildren, Times;
    var text := StrOr(n.attributes, "badge_text", "");
    var inner := RenderChildren(n.children);
    TimesOne(Chars(text), t);
    TimesWrap("span", Badge(n), [Chars(text)], t);
    TimesAppend(Wrap("span", Badge(n), [Chars(text)]), inner, t);
    TimesWrap("section", NodeAttrs(n, {"badge_text", "badge_label"}), Wrap("span", Badge(n), [Chars(text)]) + inner, t);
  }

  lemma {:induction false} TimesNotes(n: IRNode, t: string)
    requires n.kind.Notes?
    ensures Times(Render(n), t)
            == Once(StrOr(n.attributes, "summary", "Speaker Notes"), t) + Times(RenderChildren(n.children), t)
  {
    hide NodeAttrs, RenderAttrs, DictOf, StyleClasses, StrOr, Wrap, RenderChildren, Times;
    var text := StrOr(n.attributes, "summary", "Speaker Notes");
    var inner := RenderChildren(n.children);
    var summaryAttrs := RenderAttrs(DictOf(Get(n.attributes, "summary_attributes")), [], {});
    var contentAttrs := RenderAttrs(DictOf(Get(n.attributes, "content_attributes")), StyleClasses(n.styles, "content_classes"), {});
    TimesOne(Chars(text), t);
    TimesWrap("summary", summaryAttrs, [Chars(text)], t);
    TimesWrap("div", contentAttrs, inner, t);
    TimesAppend(Wrap("summary", summaryAttrs, [Chars(text)]), Wrap("div", contentAttrs, inner), t);
    TimesWrap("details", NodeAttrs(n, {"summary", "summary_attributes", "content_attributes"}),
              Wrap("summary", summaryAttrs, [Chars(text)]) + Wrap("div", contentAttrs, inner), t);
  }

  /** Text is conserved: what the markup shows and what is dropped are together the
      tree's contents and what the renderer supplies, each as often. */
  lemma {:induction false} RenderConservesText(n: IRNode, t: string)
    ensures Times(Render(n), t) + Dropped(n, t) == InTree(n, t) + Supplied(n, t)
    decreases n, 1
  {
    hide NodeAttrs, RenderAttrs, StrOr, Wrap, RenderChildren, RowsWhere, RenderTable, RenderImage, HeadingLevel, Truthy, Times;
    ChildrenConserveText(n.children, t);
    TimesAppend(n.content, RenderChildren(n.children), t);
    var inner := n.content + RenderChildren(n.children);
    match n.kind {
      case Document =>
        TimesWrap(Strip(StrOr(n.attributes, "tag", "")), NodeAttrs(n, {"tag"}), inner, t);
      case Heading => TimesWrap("h" + Print(Clamp(HeadingLevel(n))), NodeAttrs(n, {"level"}), n.content, t);
      case Paragraph => TimesWrap("p", NodeAttrs(n, {}), n.content, t);
      case List =>
        TimesWrap(if Truthy(Get(n.attributes, "ordered")) then "ol" else "ul", NodeAttrs(n, {"ordered"}), RenderChildren(n.children), t);
      case ListItem => TimesWrap("li", NodeAttrs(n, {}), inner, t);
      case Table =>
        RowsShareText(n.children, t);
        TimesTable(n, RowsWhere(n.children, true), RowsWhere(n.children, false), t);
      case TableRow => TimesWrap("tr", NodeAttrs(n, {"section"}), RenderChildren(n.children), t);
      case TableCell =>
        TimesWrap(if Truthy(Get(n.attributes, "header")) then "th" else "td", NodeAttrs(n, {"header"}), inner, t);
      case Image => TimesImage(n, t);
      case Slide => TimesSlide(n, t);
      case Notes => TimesNotes(n, t);
      case _ =>
        var tag := Strip(StrOr(n.attributes, "tag", "div"));
        TimesWrap(if tag == "" then "div" else tag, NodeAttrs(n, {"tag"}), inner, t);
    }
  }

  lemma {:induction false} ChildrenConserveText(ns: seq<IRNode>, t: string)
    ensures Times(RenderChildren(ns), t) + DroppedBelow(ns, t) == InTrees(ns, t) + SuppliedBelow(ns, t)
    decreases ns, 0
  {
    hide Render, Dropped, InTree, Supplied;
    if ns != [] {
      RenderConservesText(ns[0], t);
      ChildrenConserveText(ns[1..], t);
      TimesAppend(Render(ns[0]), RenderChildren(ns[1..]), t);
    }
  }

  lemma {:induction false} RowsShareText(ns: seq<IRNode>, t: string)
    ensures Times(RowsWhere(ns, true), t) + Times(RowsWhere(ns, false), t) == Times(RenderChildren(ns), t)
  {
    hide Render, IsHeaderRow;
    if ns != [] {
      RowsShareText(ns[1..], t);
      TimesAppend(Render(ns[0]), RenderChildren(ns[1..]), t);
      TimesAppend(Render(ns[0]), RowsWhere(ns[1..], true), t);
      TimesAppend(Render(ns[0]), RowsWhere(ns[1..], false), t);
      assert [] + RowsWhere(ns[1..], true) == RowsWhere(ns[1..], true);
      assert [] + RowsWhere(ns[1..], false) == RowsWhere(ns[1..], false);
    }
  }
}
