/** Printing a Yjs XML fragment as HTML (`xmlFragmentToHtml`, `escapeHtml`), and a
    decoder that shows what the printing keeps. */
module YjsHtml {
  import opened Options

  datatype Attr = Attr(key: string, value: string)

  /** A text node holds the string its `toString` gives. */
  datatype Node =
    | Text(text: string)
    | Element(name: string, attrs: seq<Attr>, children: seq<Node>)

  // ----- Escaping -----

  /** JavaScript's `s.replace(/c/g, r)` for one character. */
  function Replace(s: string, c: char, r: string): string {
    if s == "" then "" else (if s[0] == c then r else [s[0]]) + Replace(s[1..], c, r)
  }

  /** `escapeHtml`: five replacements, one after the other. */
  function EscapeHtml(text: string): string {
    Replace(Replace(Replace(Replace(Replace(text, '&', "&amp;"), '<', "&lt;"), '>', "&gt;"), '"', "&quot;"), '\'', "&#039;")
  }

  function Entity(c: char): string {
    match c
    case '&' => "&amp;"
    case '<' => "&lt;"
    case '>' => "&gt;"
    case '"' => "&quot;"
    case '\'' => "&#039;"
    case _ => [c]
  }

  function Escaped(s: string): string {
    if s == "" then "" else Entity(s[0]) + Escaped(s[1..])
  }

  lemma {:induction false} ReplaceAppend(a: string, b: string, c: char, r: string)
    ensures Replace(a + b, c, r) == Replace(a, c, r) + Replace(b, c, r)
  {
    if a == "" {
      assert a + b == b;
    } else {
      assert (a + b)[1..] == a[1..] + b;
      ReplaceAppend(a[1..], b, c, r);
    }
  }

  lemma {:induction false} ReplaceAbsent(s: string, c: char, r: string)
    requires c !in s
    ensures Replace(s, c, r) == s
  {
    if s != "" {
      ReplaceAbsent(s[1..], c, r);
      assert s == [s[0]] + s[1..];
    }
  }

  lemma EscapeAppend(a: string, b: string)
    ensures EscapeHtml(a + b) == EscapeHtml(a) + EscapeHtml(b)
  {
    var a1, b1 := Replace(a, '&', "&amp;"), Replace(b, '&', "&amp;");
    var a2, b2 := Replace(a1, '<', "&lt;"), Replace(b1, '<', "&lt;");
    var a3, b3 := Replace(a2, '>', "&gt;"), Replace(b2, '>', "&gt;");
    var a4, b4 := Replace(a3, '"', "&quot;"), Replace(b3, '"', "&quot;");
    ReplaceAppend(a, b, '&', "&amp;");
    ReplaceAppend(a1, b1, '<', "&lt;");
    ReplaceAppend(a2, b2, '>', "&gt;");
    ReplaceAppend(a3, b3, '"', "&quot;");
    ReplaceAppend(a4, b4, '\'', "&#039;");
  }

  lemma {:induction false} ReplaceOne(c: char, d: char, r: string)
    ensures Replace([c], d, r) == if c == d then r else [c]
  {
    assert [c][1..] == "";
  }

  lemma EscapeOne(c: char)
    ensures EscapeHtml([c]) == Entity(c)
  {
    hide Replace;
    ReplaceOne(c, '&', "&amp;");
    var s1 := Replace([c], '&', "&amp;");
    if c == '&' {
      ReplaceAbsent(s1, '<', "&lt;");
    } else {
      ReplaceOne(c, '<', "&lt;");
    }
    var s2 := Replace(s1, '<', "&lt;");
    if c == '&' || c == '<' {
      ReplaceAbsent(s2, '>', "&gt;");
    } else {
      ReplaceOne(c, '>', "&gt;");
    }
    var s3 := Replace(s2, '>', "&gt;");
    if c == '&' || c == '<' || c == '>' {
      ReplaceAbsent(s3, '"', "&quot;");
    } else {
      ReplaceOne(c, '"', "&quot;");
    }
    var s4 := Replace(s3, '"', "&quot;");
    if c == '&' || c == '<' || c == '>' || c == '"' {
      ReplaceAbsent(s4, '\'', "&#039;");
    } else {
      ReplaceOne(c, '\'', "&#039;");
    }
  }

  /** The five replacements never touch each other's output: together they map each
      character on its own. */
  lemma {:induction false} EscapeIsCharacterwise(s: string)
    ensures EscapeHtml(s) == Escaped(s)
  {
    hide EscapeHtml, Entity;
    if s == "" {
      EscapeAppend("", "");
      assert "" + "" == "" && |EscapeHtml("")| == |EscapeHtml("")| + |EscapeHtml("")|;
    } else {
      assert s == [s[0]] + s[1..];
      EscapeAppend([s[0]], s[1..]);
      EscapeOne(s[0]);
      EscapeIsCharacterwise(s[1..]);
    }
  }

  // ----- Printing -----

  function AttrsHtml(attrs: seq<Attr>): string {
    if attrs == [] then ""
    else AttrHtml(attrs[0]) + AttrsHtml(attrs[1..])
  }

  function AttrHtml(a: Attr): string {
    " " + a.key + "=\"" + EscapeHtml(a.value) + "\""
  }

  function NodeHtml(n: Node): string
    decreases n, 0
  {
    match n
    case Text(text) => EscapeHtml(text)
    case Element(name, attrs, children) =>
      "<" + name + AttrsHtml(attrs) + ">" + FragmentHtml(children) + "</" + name + ">"
  }

  function FragmentHtml(nodes: seq<Node>): string
    decreases nodes, 1
  {
    if nodes == [] then "" else NodeHtml(nodes[0]) + FragmentHtml(nodes[1..])
  }

  lemma {:induction false} AttrsHtmlAppend(attrs: seq<Attr>, a: Attr)
    ensures AttrsHtml(attrs + [a]) == AttrsHtml(attrs) + AttrHtml(a)
  {
    hide AttrHtml;
    if attrs == [] {
      assert attrs + [a] == [a];
    } else {
      AttrsHtmlAppend(attrs[1..], a);
      assert (attrs + [a])[1..] == attrs[1..] + [a];
    }
  }

  lemma {:induction false} FragmentHtmlAppend(nodes: seq<Node>, n: Node)
    ensures FragmentHtml(nodes + [n]) == FragmentHtml(nodes) + NodeHtml(n)
  {
    hide NodeHtml;
    if nodes == [] {
      assert nodes + [n] == [n];
    } else {
      FragmentHtmlAppend(nodes[1..], n);
      assert (nodes + [n])[1..] == nodes[1..] + [n];
    }
  }

  /** `xmlFragmentToHtml`. */
  method XmlFragmentToHtml(fragment: seq<Node>) returns (html: string)
    ensures html == FragmentHtml(fragment)
    decreases fragment
  {
    hide EscapeHtml, FragmentHtml, AttrsHtml;
    html := "";
    NothingPrinted();
    for i := 0 to |fragment|
      invariant html == FragmentHtml(fragment[..i])
    {
      assert fragment[..i + 1] == fragment[..i] + [fragment[i]];
      FragmentHtmlAppend(fragment[..i], fragment[i]);
      var item := fragment[i];
      match item {
        case Text(text) =>
          html := html + EscapeHtml(text);
        case Element(name, attrs, children) =>
          var attrString := AttrString(attrs);
          ghost var before := html;
          html := html + ("<" + name + attrString + ">");
          var inner := XmlFragmentToHtml(children);
          html := html + inner;
          html := html + ("</" + name + ">");
          assert html == before + NodeHtml(item);
      }
    }
    assert fragment[..|fragment|] == fragment;
  }

  lemma NothingPrinted()
    ensures FragmentHtml([]) == "" && AttrsHtml([]) == ""
  {
  }

  method AttrString(attrs: seq<Attr>) returns (attrString: string)
    ensures attrString == AttrsHtml(attrs)
  {
    hide EscapeHtml, AttrsHtml;
    attrString := "";
    NothingPrinted();
    for j := 0 to |attrs|
      invariant attrString == AttrsHtml(attrs[..j])
    {
      assert attrs[..j + 1] == attrs[..j] + [attrs[j]];
      AttrsHtmlAppend(attrs[..j], attrs[j]);
      attrString := attrString + (" " + attrs[j].key + "=\"" + EscapeHtml(attrs[j].value) + "\"");
    }
    assert attrs[..|attrs|] == attrs;
  }

  // ----- Decoding -----

  /** Reads the five entities back. */
  function Unescape(s: string): string {
    if s == "" then ""
    else if "&amp;" <= s then "&" + Unescape(s[5..])
    else if "&lt;" <= s then "<" + Unescape(s[4..])
    else if "&gt;" <= s then ">" + Unescape(s[4..])
    else if "&quot;" <= s then "\"" + Unescape(s[6..])
    else if "&#039;" <= s then "'" + Unescape(s[6..])
    else [s[0]] + Unescape(s[1..])
  }

  /** A character that may stand in an element or attribute name. */
  predicate NameChar(c: char) {
    c != ' ' && c != '>' && c != '=' && c != '/' && c != '"' && c != '<'
  }

  function NameRun(s: string): (n: nat)
    ensures n <= |s|
  {
    if s != "" && NameChar(s[0]) then 1 + NameRun(s[1..]) else 0
  }

  /** Position of the first `c`, or the length. */
  function Until(s: string, c: char): (n: nat)
    ensures n <= |s|
  {
    if s != "" && s[0] != c then 1 + Until(s[1..], c) else 0
  }

  /** The attributes up to and including the closing `>`. */
  function ParseAttrs(s: string): (r: Option<(seq<Attr>, string)>)
    ensures r.Some? ==> |r.value.1| < |s|
    decreases |s|
  {
    if s == "" then None
    else if s[0] == '>' then Some(([], s[1..]))
    else if s[0] != ' ' then None
    else
      var n := NameRun(s[1..]);
      var t := s[1 + n..];
      if n == 0 || !("=\"" <= t) then None
      else
        var v := Until(t[2..], '"');
        if v == |t[2..]| then None
        else
          var more := ParseAttrs(t[2..][v + 1..]);
          if more.None? then None
          else Some(([Attr(s[1..1 + n], Unescape(t[2..][..v]))] + more.value.0, more.value.1))
  }

  /** Nodes up to the end or to a closing tag, and what is left. */
  function ParseFragment(s: string): (r: Option<(seq<Node>, string)>)
    ensures r.Some? ==> |r.value.1| <= |s|
    decreases |s|
  {
    if s == "" || "</" <= s then Some(([], s))
    else if s[0] == '<' then
      var n := NameRun(s[1..]);
      var attrs := ParseAttrs(s[1 + n..]);
      if n == 0 || attrs.None? then None
      else
        var children := ParseFragment(attrs.value.1);
        var close := "</" + s[1..1 + n] + ">";
        if children.None? || !(close <= children.value.1) then None
        else
          var tail := ParseFragment(children.value.1[|close|..]);
          if tail.None? then None
          else Some(([Element(s[1..1 + n], attrs.value.0, children.value.0)] + tail.value.0, tail.value.1))
    else
      var n := Until(s, '<');
      var tail := ParseFragment(s[n..]);
      if tail.None? then None
      else Some(([Text(Unescape(s[..n]))] + tail.value.0, tail.value.1))
  }

  function Decode(html: string): Option<seq<Node>> {
    var r := ParseFragment(html);
    if r.Some? && r.value.1 == "" then Some(r.value.0) else None
  }

  // ----- What printing keeps -----

  predicate IsName(s: string) {
    s != "" && forall i | 0 <= i < |s| :: NameChar(s[i])
  }

  predicate ValidNames(nodes: seq<Node>) {
    forall n | n in nodes && n.Element? ::
      IsName(n.name) && (forall a | a in n.attrs :: IsName(a.key)) && ValidNames(n.children)
  }

  /** No empty text node and no two text nodes side by side, at any depth. */
  predicate Tidy(nodes: seq<Node>) {
    && (forall i | 0 <= i < |nodes| && nodes[i].Text? :: nodes[i].text != "")
    && (forall i | 0 < i < |nodes| :: nodes[i - 1].Element? || nodes[i].Element?)
    && (forall n | n in nodes && n.Element? :: Tidy(n.children))
  }

  lemma {:induction false} EntityShape(c: char, s: string)
    ensures Unescape(Entity(c) + s) == [c] + Unescape(s)
    ensures Entity(c) != "" && '<' !in Entity(c) && '"' !in Entity(c)
  {
    var t := Entity(c) + s;
    assert t[|Entity(c)|..] == s;
    assert t[..|Entity(c)|] == Entity(c);
    match c {
      case '&' => assert "&amp;" <= t;
      case '<' => assert "&lt;" <= t && t[1] == 'l';
      case '>' => assert "&gt;" <= t && t[1] == 'g';
      case '"' => assert "&quot;" <= t && t[1] == 'q';
      case '\'' => assert "&#039;" <= t && t[1] == '#';
      case _ => assert t[0] == c;
    }
  }

  lemma {:induction false} UnescapeEscaped(s: string)
    ensures Unescape(Escaped(s)) == s
    ensures '<' !in Escaped(s) && '"' !in Escaped(s)
    ensures s != "" ==> Escaped(s) != ""
  {
    hide Unescape, Entity;
    if s == "" {
      UnescapeNothing();
    } else {
      EntityShape(s[0], Escaped(s[1..]));
      UnescapeEscaped(s[1..]);
      assert s == [s[0]] + s[1..];
    }
  }

  lemma UnescapeNothing()
    ensures Unescape("") == ""
  {
  }

  lemma UnescapeEscape(s: string)
    ensures Unescape(EscapeHtml(s)) == s
    ensures '<' !in EscapeHtml(s) && '"' !in EscapeHtml(s)
    ensures s != "" ==> EscapeHtml(s) != ""
  {
    EscapeIsCharacterwise(s);
    UnescapeEscaped(s);
  }

  lemma {:induction false} NameRunOf(name: string, s: string)
    requires (forall i | 0 <= i < |name| :: NameChar(name[i])) && (s == "" || !NameChar(s[0]))
    ensures NameRun(name + s) == |name|
  {
    if name == "" {
      assert name + s == s;
    } else {
      assert (name + s)[1..] == name[1..] + s;
      NameRunOf(name[1..], s);
    }
  }

  lemma {:induction false} UntilOf(a: string, c: char, s: string)
    requires c !in a && (s == "" || s[0] == c)
    ensures Until(a + s, c) == |a|
  {
    if a == "" {
      assert a + s == s;
    } else {
      assert (a + s)[1..] == a[1..] + s;
      UntilOf(a[1..], c, s);
    }
  }

  lemma {:induction false} ParseAttrUnfolds(s: string, n: nat, t: string, v: nat, u: string)
    requires s != "" && s[0] == ' ' && n == NameRun(s[1..]) > 0
    requires t == s[1 + n..] && "=\"" <= t && v == Until(t[2..], '"') < |t[2..]| && u == t[2..][v + 1..]
    requires ParseAttrs(u).Some?
    ensures var more := ParseAttrs(u).value;
      ParseAttrs(s) == Some(([Attr(s[1..1 + n], Unescape(t[2..][..v]))] + more.0, more.1))
  {
    hide Unescape, NameRun, Until;
  }

  lemma AttrText(a: Attr, u: string)
    ensures AttrHtml(a) + u == " " + (a.key + ("=\"" + (EscapeHtml(a.value) + ("\"" + u))))
  {
    hide EscapeHtml;
  }

  /** One attribute and what follows it. */
  lemma {:induction false} AttrRoundTrip(a: Attr, u: string)
    requires IsName(a.key) && ParseAttrs(u).Some?
    ensures var more := ParseAttrs(u).value;
      ParseAttrs(AttrHtml(a) + u) == Some(([a] + more.0, more.1))
  {
    hide EscapeHtml, AttrHtml, Unescape, NameChar, NameRun, Until, ParseAttrs;
    var v := EscapeHtml(a.value);
    UnescapeEscape(a.value);
    NotNames();
    var valuePart := v + ("\"" + u);
    var afterName := "=\"" + valuePart;
    var t := AttrHtml(a) + u;
    AttrText(a, u);
    assert t[1..] == a.key + afterName;
    NameRunOf(a.key, afterName);
    UntilOf(v, '"', "\"" + u);
    assert t[1 + |a.key|..] == afterName && t[1..1 + |a.key|] == a.key;
    assert afterName[2..] == valuePart;
    assert valuePart[|v| + 1..] == u && valuePart[..|v|] == v;
    assert t[0] == ' ' && "=\"" <= afterName;
    ParseAttrUnfolds(t, |a.key|, afterName, |v|, u);
  }

  lemma {:induction false} AttrsRoundTrip(attrs: seq<Attr>, s: string)
    requires forall a | a in attrs :: IsName(a.key)
    ensures ParseAttrs(AttrsHtml(attrs) + ">" + s) == Some((attrs, s))
  {
    hide AttrHtml, ParseAttrs;
    if attrs == [] {
      TagEnd(s);
      assert "" + ">" + s == ">" + s;
    } else {
      var u := AttrsHtml(attrs[1..]) + ">" + s;
      AttrsRoundTrip(attrs[1..], s);
      AttrRoundTrip(attrs[0], u);
      assert AttrsHtml(attrs) + ">" + s == AttrHtml(attrs[0]) + u;
      assert [attrs[0]] + attrs[1..] == attrs;
    }
  }

  lemma {:induction false} TagEnd(s: string)
    ensures ParseAttrs(">" + s) == Some(([], s))
  {
    assert (">" + s)[1..] == s;
  }

  lemma NotNames()
    ensures !NameChar('=') && !NameChar(' ') && !NameChar('>') && !NameChar('/')
  {
  }

  /** Text up to the next markup. */
  lemma {:induction false} TextRoundTrip(text: string, s: string)
    requires text != "" && (s == "" || s[0] == '<') && ParseFragment(s).Some?
    ensures var tail := ParseFragment(s).value;
      ParseFragment(EscapeHtml(text) + s) == Some(([Text(text)] + tail.0, tail.1))
  {
    hide EscapeHtml, Unescape, Until;
    var v := EscapeHtml(text);
    UnescapeEscape(text);
    var t := v + s;
    UntilOf(v, '<', s);
    assert t[0] == v[0] != '<';
    assert t[|v|..] == s && t[..|v|] == v;
  }

  lemma Assoc(a: string, b: string, c: string, d: string, e: string, f: string, g: string)
    ensures a + b + c + d + e + f + g == a + (b + (c + d + (e + (f + g))))
  {
  }

  lemma {:induction false} ElementText(name: string, attrs: seq<Attr>, children: seq<Node>, s: string)
    ensures var close := "</" + name + ">";
      NodeHtml(Element(name, attrs, children)) + s
        == "<" + (name + (AttrsHtml(attrs) + ">" + (FragmentHtml(children) + (close + s))))
  {
    hide FragmentHtml, AttrsHtml;
    var close := "</" + name + ">";
    Assoc("<", name, AttrsHtml(attrs), ">", FragmentHtml(children), close, s);
    assert "<" + name + AttrsHtml(attrs) + ">" + FragmentHtml(children) + "</" + name + ">"
      == "<" + name + AttrsHtml(attrs) + ">" + FragmentHtml(children) + close;
  }

  lemma {:induction false} ParseElementUnfolds(s: string, n: nat, attrs: seq<Attr>, inside: string, children: seq<Node>, after: string)
    requires s != "" && s[0] == '<' && !("</" <= s) && n == NameRun(s[1..]) > 0
    requires ParseAttrs(s[1 + n..]) == Some((attrs, inside)) && ParseFragment(inside) == Some((children, after))
    requires var close := "</" + s[1..1 + n] + ">"; close <= after && ParseFragment(after[|close|..]).Some?
    ensures var tail := ParseFragment(after[|"</" + s[1..1 + n] + ">"|..]).value;
      ParseFragment(s) == Some(([Element(s[1..1 + n], attrs, children)] + tail.0, tail.1))
  {
    hide NameRun, ParseAttrs;
  }

  /** An element whose inside is read back. */
  lemma {:induction false} ElementRoundTrip(name: string, attrs: seq<Attr>, children: seq<Node>, s: string)
    requires IsName(name) && forall a | a in attrs :: IsName(a.key)
    requires ParseFragment(FragmentHtml(children) + ("</" + name + ">" + s)) == Some((children, "</" + name + ">" + s))
    requires ParseFragment(s).Some?
    ensures var tail := ParseFragment(s).value;
      ParseFragment(NodeHtml(Element(name, attrs, children)) + s)
        == Some(([Element(name, attrs, children)] + tail.0, tail.1))
  {
    hide FragmentHtml, AttrsHtml, NodeHtml, ParseAttrs, NameRun, NameChar, ParseFragment;
    var close := "</" + name + ">";
    var inside := FragmentHtml(children) + (close + s);
    var afterName := AttrsHtml(attrs) + ">" + inside;
    var t := NodeHtml(Element(name, attrs, children)) + s;
    ElementText(name, attrs, children, s);
    assert t[1..] == name + afterName;
    AttrsStart(attrs, inside);
    NameRunOf(name, afterName);
    assert t[1 + |name|..] == afterName && t[1..1 + |name|] == name;
    AttrsRoundTrip(attrs, inside);
    assert !("</" <= t) by {
      NotNames();
      assert t[1] == name[0] && NameChar(name[0]);
    }
    assert close <= close + s && (close + s)[|close|..] == s;
    ParseElementUnfolds(t, |name|, attrs, inside, children, close + s);
  }

  lemma {:induction false} AttrsStart(attrs: seq<Attr>, s: string)
    ensures var t := AttrsHtml(attrs) + ">" + s; !NameChar(t[0])
  {
    NotNames();
  }

  lemma {:induction false} NodeStart(nodes: seq<Node>, rest: string)
    requires nodes == [] || nodes[0].Element?
    requires rest == "" || "</" <= rest
    ensures var s := FragmentHtml(nodes) + rest; s == "" || s[0] == '<'
  {
  }

  /** The printed form of a tidy fragment is read back as that fragment. */
  lemma {:induction false} FragmentRoundTrip(nodes: seq<Node>, rest: string)
    requires ValidNames(nodes) && Tidy(nodes)
    requires rest == "" || "</" <= rest
    ensures ParseFragment(FragmentHtml(nodes) + rest) == Some((nodes, rest))
    decreases nodes
  {
    hide ParseFragment, EscapeHtml, FragmentHtml, AttrsHtml;
    if nodes == [] {
      FragmentEnd(rest);
      NothingPrinted();
      assert "" + rest == rest;
    } else {
      var n, tail := nodes[0], nodes[1..];
      TidyTail(nodes);
      var s := FragmentHtml(tail) + rest;
      FragmentRoundTrip(tail, rest);
      FragmentCons(nodes, rest);
      assert [n] + tail == nodes;
      match n {
        case Text(text) =>
          NodeStart(tail, rest);
          TextRoundTrip(text, s);
        case Element(name, attrs, children) =>
          assert n in nodes;
          FragmentRoundTrip(children, "</" + name + ">" + s);
          ElementRoundTrip(name, attrs, children, s);
      }
    }
  }

  lemma {:induction false} FragmentCons(nodes: seq<Node>, rest: string)
    requires nodes != []
    ensures FragmentHtml(nodes) + rest == NodeHtml(nodes[0]) + (FragmentHtml(nodes[1..]) + rest)
  {
    hide NodeHtml;
  }

  lemma {:induction false} FragmentEnd(rest: string)
    requires rest == "" || "</" <= rest
    ensures ParseFragment(rest) == Some(([], rest))
  {
  }

  lemma {:induction false} TidyTail(nodes: seq<Node>)
    requires nodes != [] && Tidy(nodes) && ValidNames(nodes)
    ensures Tidy(nodes[1..]) && ValidNames(nodes[1..])
    ensures nodes[0].Text? ==> nodes[0].text != "" && (|nodes| > 1 ==> nodes[1].Element?)
  {
    var tail := nodes[1..];
    forall i | 0 < i < |tail| ensures tail[i - 1].Element? || tail[i].Element? {
      assert nodes[i + 1 - 1].Element? || nodes[i + 1].Element?;
    }
  }

  // ----- Every fragment, up to text-node boundaries -----

  /** Joins adjacent text nodes and drops empty ones, at every depth. */
  function Tidied(nodes: seq<Node>): seq<Node>
    decreases nodes
  {
    if nodes == [] then []
    else
      var tail := Tidied(nodes[1..]);
      match nodes[0]
      case Element(name, attrs, children) => [Element(name, attrs, Tidied(children))] + tail
      case Text(text) =>
        if text == "" then tail
        else if tail != [] && tail[0].Text? then [Text(text + tail[0].text)] + tail[1..]
        else [Text(text)] + tail
  }

  lemma {:induction false} TidiedIsTidy(nodes: seq<Node>)
    requires ValidNames(nodes)
    ensures Tidy(Tidied(nodes)) && ValidNames(Tidied(nodes))
    decreases nodes
  {
    if nodes != [] {
      assert nodes[0] in nodes;
      TidiedIsTidy(nodes[1..]);
      if nodes[0].Element? {
        TidiedIsTidy(nodes[0].children);
      }
    }
  }

  lemma {:induction false} TidiedPrintsAlike(nodes: seq<Node>)
    ensures FragmentHtml(Tidied(nodes)) == FragmentHtml(nodes)
    decreases nodes
  {
    hide EscapeHtml;
    if nodes != [] {
      TidiedPrintsAlike(nodes[1..]);
      var tail := Tidied(nodes[1..]);
      match nodes[0] {
        case Element(name, attrs, children) =>
          TidiedPrintsAlike(children);
        case Text(text) =>
          if text == "" {
            EscapeIsCharacterwise("");
          } else if tail != [] && tail[0].Text? {
            EscapeAppend(text, tail[0].text);
          }
      }
    }
  }

  lemma {:induction false} TidiedFixed(nodes: seq<Node>)
    requires Tidy(nodes)
    ensures Tidied(nodes) == nodes
    decreases nodes
  {
    if nodes != [] {
      assert nodes[0] in nodes;
      var tail := nodes[1..];
      forall i | 0 < i < |tail| ensures tail[i - 1].Element? || tail[i].Element? {
        assert nodes[i + 1 - 1].Element? || nodes[i + 1].Element?;
      }
      TidiedFixed(tail);
      if nodes[0].Element? {
        TidiedFixed(nodes[0].children);
      } else if |nodes| > 1 {
        assert nodes[1 - 1].Element? || nodes[1].Element?;
      }
      assert [nodes[0]] + tail == nodes;
    }
  }

  /** Printing loses only the boundaries between text nodes: every fragment with valid
      names is read back in its tidied form, so a tidy one, and only a tidy one, is
      read back unchanged. */
  lemma {:induction false} DecodePrinted(nodes: seq<Node>)
    requires ValidNames(nodes)
    ensures Decode(FragmentHtml(nodes)) == Some(Tidied(nodes))
    ensures Decode(FragmentHtml(nodes)) == Some(nodes) <==> Tidy(nodes)
  {
    TidiedIsTidy(nodes);
    TidiedPrintsAlike(nodes);
    FragmentRoundTrip(Tidied(nodes), "");
    assert FragmentHtml(Tidied(nodes)) + "" == FragmentHtml(nodes);
    if Tidy(nodes) {
      TidiedFixed(nodes);
    }
  }

  /** Two fragments print the same HTML exactly when they tidy to the same fragment. */
  lemma {:induction false} SameHtmlIffSameTidied(a: seq<Node>, b: seq<Node>)
    requires ValidNames(a) && ValidNames(b)
    ensures FragmentHtml(a) == FragmentHtml(b) <==> Tidied(a) == Tidied(b)
  {
    DecodePrinted(a);
    DecodePrinted(b);
    TidiedPrintsAlike(a);
    TidiedPrintsAlike(b);
  }
}
