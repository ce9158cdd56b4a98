/** The command-line client's stream parser (`PortalClient.chat_stream`,
    `_parse_sse_block`) and the server's encoder that feeds it. `parse` is `json.loads`
    (nothing when it raises), `dumps` is `json.dumps`. */
module SseClient {
  import opened Options
  import opened Sequences
  import opened Text
  import Decimal

  /** A Python value that JSON can carry, a float by the text `repr` gives for it; payloads
      that do not parse stay strings. */
  datatype Json =
    | Null | Bool(on: bool) | Int(n: int) | Float(repr: string) | Str(text: string)
    | List(items: seq<Json>) | Dict(entries: map<string, Json>)

  type Parse = string -> Option<Json>

  datatype Event = Event(name: string, data: Json)

  const BLANK := "\n\n"

  // ----- Cutting the text into blocks -----

  /** No two adjacent newlines. */
  predicate NoBlank(s: string) {
    forall i | 0 < i < |s| :: !(s[i - 1] == '\n' && s[i] == '\n')
  }

  lemma NoBlankCons(s: string)
    requires |s| >= 2
    ensures NoBlank(s) <==> !(s[0] == '\n' && s[1] == '\n') && NoBlank(s[1..])
  {
    var t := s[1..];
    assert forall i | 0 < i < |t| :: t[i - 1] == s[i] && t[i] == s[i + 1];
    forall i | 0 < i < |s| && NoBlank(t) && !(s[0] == '\n' && s[1] == '\n')
      ensures !(s[i - 1] == '\n' && s[i] == '\n')
    {
      if i > 1 { assert t[i - 2] == s[i - 1] && t[i - 1] == s[i]; }
    }
    if NoBlank(s) {
      forall i | 0 < i < |t| ensures !(t[i - 1] == '\n' && t[i] == '\n') {
        assert t[i] == s[i + 1];
      }
    }
  }

  /** Position of the leftmost blank line, or the length when there is none. */
  function FirstBlank(s: string): (n: nat)
    ensures n == |s| <==> NoBlank(s)
    ensures n < |s| ==> n + 1 < |s| && s[n] == '\n' && s[n + 1] == '\n' && NoBlank(s[..n + 1])
    ensures n <= |s|
  {
    if |s| < 2 then |s|
    else if s[0] == '\n' && s[1] == '\n' then 0
    else
      var m := FirstBlank(s[1..]);
      NoBlankCons(s);
      assert m < |s| - 1 ==> NoBlank(s[..m + 2]) by {
        if m < |s| - 1 {
          NoBlankCons(s[..m + 2]);
          assert s[..m + 2][1..] == s[1..][..m + 1];
        }
      }
      1 + m
  }

  /** The blocks, each followed by a blank line. */
  function Glue(blocks: seq<string>): string {
    if blocks == [] then [] else blocks[0] + BLANK + Glue(blocks[1..])
  }

  /** `blocks` and `rest` are the leftmost cut of `text` at blank lines: put back
      together they are the text, the leftover holds no blank line, and no block
      reaches past a blank line. */
  predicate IsBlockSplit(text: string, blocks: seq<string>, rest: string) {
    && text == Glue(blocks) + rest
    && NoBlank(rest)
    && forall b | b in blocks :: NoBlank(b + "\n")
  }

  lemma {:induction false} GlueAppend(blocks: seq<string>, b: string)
    ensures Glue(blocks + [b]) == Glue(blocks) + b + BLANK
  {
    if blocks == [] {
      assert blocks + [b] == [b];
    } else {
      GlueAppend(blocks[1..], b);
      assert (blocks + [b])[1..] == blocks[1..] + [b];
    }
  }

  /** A text has one leftmost cut, so nothing but the text decides the blocks. */
  lemma {:induction false} BlockSplitUnique(text: string, b1: seq<string>, r1: string, b2: seq<string>, r2: string)
    requires IsBlockSplit(text, b1, r1) && IsBlockSplit(text, b2, r2)
    ensures b1 == b2 && r1 == r2
    decreases |b1| + |b2|
  {
    if b1 != [] {
      assert text == b1[0] + BLANK + (Glue(b1[1..]) + r1);
      SplitNonEmpty(b1[0], Glue(b1[1..]) + r1, b2, r2);
    }
    if b2 != [] {
      assert text == b2[0] + BLANK + (Glue(b2[1..]) + r2);
      SplitNonEmpty(b2[0], Glue(b2[1..]) + r2, b1, r1);
    }
    if b1 == [] {
      assert text == r1 == r2;
    } else {
      FirstBlocksAgree(text, b1[0], Glue(b1[1..]) + r1, b2[0], Glue(b2[1..]) + r2);
      BlockSplitUnique(Glue(b1[1..]) + r1, b1[1..], r1, b2[1..], r2);
      assert b1 == [b1[0]] + b1[1..];
      assert b2 == [b2[0]] + b2[1..];
    }
  }

  lemma FirstBlocksAgree(text: string, a: string, s: string, b: string, t: string)
    requires text == a + BLANK + s || text == a + (BLANK + s)
    requires text == b + BLANK + t || text == b + (BLANK + t)
    requires NoBlank(a + "\n") && NoBlank(b + "\n")
    ensures a == b && s == t
  {
    if |a| < |b| {
      NotShorter(text, a, s, b, t);
    } else if |b| < |a| {
      NotShorter(text, b, t, a, s);
    }
    assert a == text[..|a|] && b == text[..|b|];
    assert s == text[|a| + 2..] && t == text[|b| + 2..];
  }

  lemma SplitNonEmpty(a: string, s: string, blocks: seq<string>, rest: string)
    requires IsBlockSplit(a + BLANK + s, blocks, rest)
    ensures blocks != []
  {
    var text := a + BLANK + s;
    assert text[|a|] == '\n' && text[|a| + 1] == '\n';
    assert blocks == [] ==> text == rest;
  }

  lemma NotShorter(text: string, a: string, s: string, b: string, t: string)
    requires text == a + BLANK + s && text == b + BLANK + t
    requires NoBlank(b + "\n")
    ensures |a| >= |b|
  {
    var c := b + "\n";
    assert forall i | 0 <= i <= |b| :: c[i] == text[i];
    assert text[|a|] == '\n' && text[|a| + 1] == '\n';
  }

  // ----- Reading one block -----

  /** The text after `prefix` on the last line that starts with it. */
  function LastField(lines: seq<string>, prefix: string, default: string): string {
    if lines == [] then default
    else
      var line := lines[|lines| - 1];
      if prefix <= line then line[|prefix|..] else LastField(lines[..|lines| - 1], prefix, default)
  }

  const EVENT := "event: "
  const DATA := "data: "

  /** What a block says: its last `event:` line names it (`message` when there is
      none), its last `data:` line is its payload, and an empty name drops it. */
  function ParseBlock(parse: Parse, block: string): Option<Event> {
    var lines := Split(Strip(block), '\n');
    var name := NameIn(lines);
    if name == "" then None else Some(Event(name, Decode(parse, LastField(lines, DATA, ""))))
  }

  /** A payload is a JSON value when it parses, else the text itself. */
  function Decode(parse: Parse, payload: string): Json {
    match parse(payload)
    case Some(v) => v
    case None => Str(payload)
  }

  function NameIn(lines: seq<string>): string {
    Strip(LastField(lines, EVENT, "message"))
  }

  /** What follows the prefix on the last line that has it, or the default. */
  ghost predicate IsLastField(lines: seq<string>, prefix: string, default: string, value: string) {
    || (value == default && forall i | 0 <= i < |lines| :: !(prefix <= lines[i]))
    || exists i | 0 <= i < |lines| ::
         lines[i] == prefix + value && forall j | i < j < |lines| :: !(prefix <= lines[j])
  }

  lemma {:induction false} LastFieldIs(lines: seq<string>, prefix: string, default: string)
    ensures IsLastField(lines, prefix, default, LastField(lines, prefix, default))
  {
    if lines != [] {
      var n := |lines| - 1;
      if prefix <= lines[n] {
        assert lines[n] == prefix + lines[n][|prefix|..];
      } else {
        LastFieldIs(lines[..n], prefix, default);
        assert forall i | 0 <= i < n :: lines[..n][i] == lines[i];
      }
    }
  }

  /** The last name and the last payload count; without a name the block says nothing, and a
      payload that is no JSON stands for itself. */
  ghost predicate Says(parse: Parse, block: string, said: Option<Event>) {
    exists name: string, payload: string ::
      && IsLastField(Split(Strip(block), '\n'), "event: ", "message", name)
      && IsLastField(Split(Strip(block), '\n'), "data: ", "", payload)
      && said == if Strip(name) == "" then None
                 else Some(Event(Strip(name), if parse(payload) == None then Str(payload) else parse(payload).value))
  }

  lemma BlockSays(parse: Parse, block: string)
    ensures Says(parse, block, ParseBlock(parse, block))
  {
    var lines := Split(Strip(block), '\n');
    LastFieldIs(lines, EVENT, "message");
    LastFieldIs(lines, DATA, "");
    hide LastField, IsLastField, Split, Strip;
    var name, payload := LastField(lines, EVENT, "message"), LastField(lines, DATA, "");
  }

  function Parser(parse: Parse): string -> Option<Event> {
    (block: string) => ParseBlock(parse, block)
  }

  function ParseAll(parse: Parse, blocks: seq<string>): seq<Event> {
    FilterMap(Parser(parse), blocks)
  }

  /** `_parse_sse_block`. */
  method ParseSseBlock(parse: Parse, block: string) returns (parsed: Option<Event>)
    ensures parsed == ParseBlock(parse, block)
    ensures Says(parse, block, parsed)
  {
    hide Says;
    BlockSays(parse, block);
    var eventName, eventData := "message", "";
    var lines := Split(Strip(block), '\n');
    StripTrims("message");
    for i := 0 to |lines|
      invariant eventName == NameIn(lines[..i])
      invariant eventData == LastField(lines[..i], DATA, "")
    {
      var line := lines[i];
      assert lines[..i + 1][..i] == lines[..i];
      if StartsWith(line, EVENT) {
        assert line[0] == 'e';
        eventName := Strip(line[7..]);
      } else if StartsWith(line, DATA) {
        eventData := line[6..];
      }
    }
    assert lines[..|lines|] == lines;
    if eventName == "" {
      return None;
    }
    var loaded := parse(eventData);
    var data := if loaded.Some? then loaded.value else Str(eventData);
    return Some(Event(eventName, data));
  }

  lemma NothingRead(parse: Parse)
    ensures IsBlockSplit("", [], "") && ParseAll(parse, []) == []
  {
  }

  lemma {:induction false} TakeBlock(parse: Parse, text: string, blocks: seq<string>, buffer: string, cut: nat)
    requires text == Glue(blocks) + buffer && forall b | b in blocks :: NoBlank(b + "\n")
    requires cut == FirstBlank(buffer) < |buffer|
    ensures text == Glue(blocks + [buffer[..cut]]) + buffer[cut + 2..]
    ensures forall b | b in blocks + [buffer[..cut]] :: NoBlank(b + "\n")
    ensures var p := ParseBlock(parse, buffer[..cut]);
            ParseAll(parse, blocks + [buffer[..cut]]) == ParseAll(parse, blocks) + (if p.Some? then [p.value] else [])
  {
    hide ParseBlock, FirstBlank, NoBlank;
    var block := buffer[..cut];
    assert buffer == block + BLANK + buffer[cut + 2..];
    assert block + "\n" == buffer[..cut + 1];
    GlueAppend(blocks, block);
    FilterMapAppend(Parser(parse), blocks, block);
  }

  /** The buffer loop of `chat_stream`: whatever the network's chunks, the events
      are those of the leftmost blocks of the whole text, in order, and the text
      after the last blank line is left in the buffer. */
  method ChatStream(parse: Parse, chunks: seq<string>) returns (events: seq<Event>, buffer: string)
    ensures exists blocks :: IsBlockSplit(Concat(chunks), blocks, buffer) && events == ParseAll(parse, blocks)
  {
    hide ParseBlock, ParseAll, Glue;
    ghost var blocks: seq<string> := [];
    events, buffer := [], "";
    NothingRead(parse);
    for i := 0 to |chunks|
      invariant IsBlockSplit(Concat(chunks[..i]), blocks, buffer)
      invariant events == ParseAll(parse, blocks)
    {
      ConcatAppend(chunks[..i], [chunks[i]]);
      assert chunks[..i + 1] == chunks[..i] + [chunks[i]];
      buffer := buffer + chunks[i];
      assert Concat(chunks[..i + 1]) == Glue(blocks) + buffer;
      while FirstBlank(buffer) < |buffer|
        invariant Concat(chunks[..i + 1]) == Glue(blocks) + buffer
        invariant forall b | b in blocks :: NoBlank(b + "\n")
        invariant events == ParseAll(parse, blocks)
        decreases |buffer|
      {
        var cut := FirstBlank(buffer);
        var eventBlock := buffer[..cut];
        TakeBlock(parse, Concat(chunks[..i + 1]), blocks, buffer, cut);
        buffer := buffer[cut + 2..];
        blocks := blocks + [eventBlock];
        var parsed := ParseSseBlock(parse, eventBlock);
        if parsed.Some? {
          events := events + [parsed.value];
        }
      }
    }
    assert chunks[..|chunks|] == chunks;
  }

  /** How the network cuts the text does not matter. */
  lemma {:induction false} ChunkingIrrelevant(parse: Parse, c1: seq<string>, b1: seq<string>, r1: string, c2: seq<string>, b2: seq<string>, r2: string)
    requires Concat(c1) == Concat(c2)
    requires IsBlockSplit(Concat(c1), b1, r1) && IsBlockSplit(Concat(c2), b2, r2)
    ensures ParseAll(parse, b1) == ParseAll(parse, b2) && r1 == r2
  {
    BlockSplitUnique(Concat(c1), b1, r1, b2, r2);
  }

  // ----- The server's side, and when the client reads back what was sent -----

  /** What the server's generator yields: an engine event, or a keep-alive comment. */
  datatype Frame = KeepAlive | Sent(event: Event)

  /** `json.dumps` and `json.loads`, as far as the results need them: a dictionary is written
      on one line and reads as a dictionary; a decimal numeral is that number; the empty text is
      no JSON; and a JSON string is longer than the text in it, by its quotes. */
  ghost predicate JsonLike(parse: Parse, dumps: Json -> string) {
    && (forall v: Json | v.Dict? :: parse(dumps(v)).Some? && parse(dumps(v)).value.Dict?)
    && (forall v: Json | v.Dict? :: dumps(v) != "" && '\n' !in dumps(v) && Trimmed(dumps(v)))
    && (forall n :: parse(IntText(n)) == Some(Int(n)))
    && parse("") == None
    && (forall s | parse(s).Some? && parse(s).value.Str? :: |parse(s).value.text| < |s|)
  }

  function IntText(n: int): (s: string)
    ensures s != "" && '\n' !in s && Trimmed(s)
  {
    var digits := Decimal.Print(if n < 0 then -n else n);
    assert Decimal.IsDigit(digits[0]) && Decimal.IsDigit(digits[|digits| - 1]);
    if n < 0 then "-" + digits else digits
  }

  /** The engine's payloads: dictionaries, texts and conversation ids. */
  predicate Emitted(v: Json) {
    v.Dict? || v.Str? || v.Int?
  }

  /** Dictionaries are dumped, everything else is printed as it is. */
  function WireData(dumps: Json -> string, v: Json): string
    requires Emitted(v)
  {
    match v
    case Str(text) => text
    case Int(n) => IntText(n)
    case _ => dumps(v)
  }

  predicate Emits(f: Frame) {
    f.Sent? ==> Emitted(f.event.data)
  }

  function BlockOf(dumps: Json -> string, f: Frame): string
    requires Emits(f)
  {
    match f
    case KeepAlive => ": keepalive"
    case Sent(e) => EVENT + e.name + "\n" + DATA + WireData(dumps, e.data)
  }

  function EncodeAll(dumps: Json -> string, frames: seq<Frame>): string
    requires forall f <- frames :: Emits(f)
  {
    if frames == [] then [] else BlockOf(dumps, frames[0]) + BLANK + EncodeAll(dumps, frames[1..])
  }

  /** The event each frame should turn into. The client does not know comments:
      a keep-alive comes out as an empty `message`. */
  function Received(frames: seq<Frame>): seq<Event> {
    if frames == [] then []
    else [if frames[0].KeepAlive? then Event("message", Str("")) else frames[0].event] + Received(frames[1..])
  }

  /** Event names are literals of the server: non-empty, trimmed, on one line. */
  predicate GoodNames(frames: seq<Frame>) {
    forall f | f in frames && f.Sent? :: f.event.name != "" && '\n' !in f.event.name && Trimmed(f.event.name)
  }

  /** Text the wire format carries intact: one line with no trailing whitespace. */
  predicate CleanText(text: string) {
    '\n' !in text && (text != "" ==> !IsSpace(text[|text| - 1]))
  }

  /** A raw text survives when it is clean and does not happen to be JSON, a dictionary when
      it reads back as it was. */
  predicate Survives(parse: Parse, dumps: Json -> string, f: Frame) {
    && (f.Sent? && f.event.data.Str? ==> CleanText(f.event.data.text) && parse(f.event.data.text) == None)
    && (f.Sent? && f.event.data.Dict? ==> parse(dumps(f.event.data)) == Some(f.event.data))
  }

  lemma {:induction false} RStripFixed(s: string)
    ensures RStrip(s) == s <==> (s == "" || !IsSpace(s[|s| - 1]))
  {
    var n := RStripPrefix(s);
  }

  /** The last line of a sent block once the block is stripped. */
  function LastLine(data: string): string {
    if RStrip(data) == "" then "data:" else DATA + RStrip(data)
  }

  lemma StripSentBlock(name: string, data: string)
    ensures Strip(EVENT + name + "\n" + DATA + data) == EVENT + name + "\n" + LastLine(data)
  {
    var head := EVENT + name + "\n";
    var block := EVENT + name + "\n" + DATA + data;
    assert block == head + (DATA + data);
    assert LStrip(block) == block by { assert block[0] == 'e'; }
    RStripAppend(DATA, data);
    RStripFixed("data:");
    assert RStrip(DATA) == "data:" by {
      assert DATA[..5] == "data:";
    }
    RStripAppend(head, DATA + data);
  }

  lemma LastLineOneLine(data: string)
    requires '\n' !in data
    ensures '\n' !in LastLine(data)
  {
    var n := RStripPrefix(data);
    assert forall c | c in data[..n] :: c in data;
  }

  lemma WireOneLine(parse: Parse, dumps: Json -> string, v: Json)
    requires JsonLike(parse, dumps) && Emitted(v) && !v.Str?
    ensures var w := WireData(dumps, v); w != "" && '\n' !in w && Trimmed(w) && RStrip(w) == w && !Decode(parse, w).Str?
    ensures v.Int? ==> Decode(parse, WireData(dumps, v)) == v
    ensures v.Dict? ==> WireData(dumps, v) == dumps(v) && parse(dumps(v)).Some?
  {
    RStripFixed(WireData(dumps, v));
  }

  /** Reading one frame whose data is on one line gives what its payload decodes to, less the
      trailing whitespace. */
  lemma ParseSentBlock(parse: Parse, dumps: Json -> string, e: Event)
    requires GoodNames([Sent(e)]) && Emitted(e.data) && '\n' !in WireData(dumps, e.data)
    ensures ParseBlock(parse, BlockOf(dumps, Sent(e)))
            == Some(Event(e.name, Decode(parse, RStrip(WireData(dumps, e.data)))))
  {
    hide Strip, Split, RStrip, LStrip, WireData;
    assert Sent(e) in [Sent(e)];
    var data := WireData(dumps, e.data);
    var first, last := EVENT + e.name, LastLine(data);
    StripSentBlock(e.name, data);
    assert first + "\n" + last == first + ['\n'] + last;
    LastLineOneLine(data);
    SplitFirst(first, last, '\n');
    SplitNone(last, '\n');
    var lines := [first, last];
    assert Split(Strip(BlockOf(dumps, Sent(e))), '\n') == lines;
    assert last[0] == 'd' && first[0] == 'e';
    assert lines[..1] == [first] && lines[..1][..0] == lines[..0];
    assert first[|EVENT|..] == e.name;
    StripTrims(e.name);
    assert NameIn(lines) == e.name by {
      assert EVENT <= first && !(EVENT <= last) && lines[1] == last;
      assert LastField(lines[..1], EVENT, "message") == e.name;
    }
    assert LastField(lines, DATA, "") == RStrip(data) by {
      if RStrip(data) != "" {
        assert last[|DATA|..] == RStrip(data);
      } else {
        assert !(DATA <= last) && !(DATA <= first);
        assert LastField(lines[..1], DATA, "") == "";
      }
    }
  }

  lemma ParseKeepAlive(parse: Parse, dumps: Json -> string)
    requires parse("") == None
    ensures ParseBlock(parse, BlockOf(dumps, KeepAlive)) == Some(Event("message", Str("")))
  {
    hide Strip, Split;
    var b := ": keepalive";
    StripTrims(b);
    SplitNone(b, '\n');
    assert b[0] == ':';
    var lines: seq<string> := [b];
    assert |lines[..0]| == 0;
    StripTrims("message");
  }

  predicate OneLine(f: Frame) {
    f.Sent? && f.event.data.Str? ==> '\n' !in f.event.data.text
  }

  /** One frame without a line break in its text comes back as sent exactly when it survives. */
  lemma ParseFrame(parse: Parse, dumps: Json -> string, f: Frame)
    requires JsonLike(parse, dumps) && GoodNames([f]) && Emits(f) && OneLine(f)
    ensures ParseBlock(parse, BlockOf(dumps, f)).Some?
    ensures [ParseBlock(parse, BlockOf(dumps, f)).value] == Received([f]) <==> Survives(parse, dumps, f)
  {
    hide ParseBlock, BlockOf, RStrip, Trimmed;
    assert Received([f][1..]) == [];
    assert Received([f]) == [if f.KeepAlive? then Event("message", Str("")) else f.event];
    if f.KeepAlive? {
      ParseKeepAlive(parse, dumps);
    } else if f.event.data.Str? {
      ParseSentBlock(parse, dumps, f.event);
      RStripFixed(f.event.data.text);
      var n := RStripPrefix(f.event.data.text);
      assert |RStrip(f.event.data.text)| <= |f.event.data.text|;
    } else {
      WireOneLine(parse, dumps, f.event.data);
      ParseSentBlock(parse, dumps, f.event);
    }
  }

  /** A text that reads as a number arrives as the number. */
  lemma BareNumberChanges(parse: Parse, dumps: Json -> string, n: int)
    requires JsonLike(parse, dumps)
    ensures CleanText(IntText(n))
    ensures ParseBlock(parse, BlockOf(dumps, Sent(Event("token", Str(IntText(n)))))) == Some(Event("token", Int(n)))
  {
    var e := Event("token", Str(IntText(n)));
    assert GoodNames([Sent(e)]) by {
      assert "token"[4] == 'n';
    }
    RStripFixed(IntText(n));
    hide BlockOf, ParseBlock, IntText;
    ParseSentBlock(parse, dumps, e);
  }

  lemma FrameIsOneBlock(parse: Parse, dumps: Json -> string, f: Frame)
    requires JsonLike(parse, dumps) && GoodNames([f]) && Emits(f) && OneLine(f)
    ensures NoBlank(BlockOf(dumps, f) + "\n")
  {
    if f.Sent? {
      if !f.event.data.Str? {
        WireOneLine(parse, dumps, f.event.data);
      }
      assert f in [f];
      SentIsOneBlock(f.event.name, WireData(dumps, f.event.data));
    }
  }

  lemma SentIsOneBlock(name: string, data: string)
    requires name != "" && '\n' !in name && '\n' !in data
    ensures NoBlank(EVENT + name + "\n" + DATA + data + "\n")
  {
    var b := EVENT + name + "\n" + DATA + data + "\n";
    var k := |EVENT| + |name|;
    forall i | 0 < i < |b| ensures !(b[i - 1] == '\n' && b[i] == '\n') {
      if i < k {
        assert i >= 7 ==> b[i] == name[i - 7];
        assert i < 7 ==> b[i] == EVENT[i];
      } else if k + 6 < i < |b| - 1 {
        assert b[i] == data[i - k - 7];
      } else if k < i <= k + 6 {
        assert b[i] == DATA[i - k - 1];
      } else if i == k {
        assert b[i - 1] == name[i - 8];
      } else {
        assert i == |b| - 1;
        assert b[i - 1] == if data == "" then ' ' else data[|data| - 1];
      }
    }
  }

  // ----- How much text the client can draw from a stream -----

  function TextLength(v: Json): nat {
    if v.Str? then |v.text| else 0
  }

  function Max(a: nat, b: nat): nat {
    if a >= b then a else b
  }

  /** The text a line can give to an event. */
  function Gives(parse: Parse, line: string): nat {
    if DATA <= line then TextLength(Decode(parse, line[|DATA|..])) else 0
  }

  /** As it stands or with its right end stripped. */
  function GivesLast(parse: Parse, line: string): nat {
    Max(Gives(parse, line), Gives(parse, RStrip(line)))
  }

  /** With either end stripped or not. */
  function GivesMost(parse: Parse, line: string): nat {
    Max(GivesLast(parse, line), GivesLast(parse, LStrip(line)))
  }

  function Drawn(parse: Parse): string -> nat {
    (line: string) => Gives(parse, line)
  }

  function DrawnLast(parse: Parse): string -> nat {
    (line: string) => GivesLast(parse, line)
  }

  function Weight(parse: Parse): string -> nat {
    (line: string) => GivesMost(parse, line)
  }

  function Total(w: string -> nat, lines: seq<string>): nat {
    if lines == [] then 0 else w(lines[0]) + Total(w, lines[1..])
  }

  function EventsLength(events: seq<Event>): nat {
    if events == [] then 0 else TextLength(events[0].data) + EventsLength(events[1..])
  }

  /** A JSON string is longer than its text. */
  ghost predicate Shrinks(parse: Parse) {
    && parse("") == None
    && forall s | parse(s).Some? && parse(s).value.Str? :: |parse(s).value.text| < |s|
  }

  lemma {:induction false} TotalConcat(w: string -> nat, a: seq<string>, b: seq<string>)
    ensures Total(w, a + b) == Total(w, a) + Total(w, b)
  {
    if a == [] {
      assert a + b == b;
    } else {
      assert (a + b)[1..] == a[1..] + b;
      TotalConcat(w, a[1..], b);
    }
  }

  lemma TotalOne(w: string -> nat, line: string)
    ensures Total(w, [line]) == w(line)
  {
    assert [line][1..] == [];
  }

  lemma {:induction false} TotalBelow(v: string -> nat, w: string -> nat, lines: seq<string>)
    requires forall l :: v(l) <= w(l)
    ensures Total(v, lines) <= Total(w, lines)
  {
    if lines != [] {
      TotalBelow(v, w, lines[1..]);
    }
  }

  lemma {:induction false} LastFieldIsDrawn(parse: Parse, lines: seq<string>)
    requires Shrinks(parse)
    ensures TextLength(Decode(parse, LastField(lines, DATA, ""))) <= Total(Drawn(parse), lines)
  {
    if lines != [] {
      var n := |lines| - 1;
      assert lines == lines[..n] + [lines[n]];
      TotalConcat(Drawn(parse), lines[..n], [lines[n]]);
      TotalOne(Drawn(parse), lines[n]);
      LastFieldIsDrawn(parse, lines[..n]);
    }
  }

  lemma {:induction false} RStripDrawsNoMore(parse: Parse, lines: seq<string>)
    ensures Total(Drawn(parse), RStripLines(lines)) <= Total(DrawnLast(parse), lines)
  {
    if lines != [] {
      var n := |lines| - 1;
      var last := lines[n];
      assert lines == lines[..n] + [last];
      TotalConcat(DrawnLast(parse), lines[..n], [last]);
      TotalOne(DrawnLast(parse), last);
      if RStrip(last) == "" && n > 0 {
        RStripDrawsNoMore(parse, lines[..n]);
      } else {
        TotalConcat(Drawn(parse), lines[..n], [RStrip(last)]);
        TotalOne(Drawn(parse), RStrip(last));
        TotalBelow(Drawn(parse), DrawnLast(parse), lines[..n]);
      }
    }
  }

  lemma {:induction false} LStripDrawsNoMore(parse: Parse, lines: seq<string>)
    ensures Total(DrawnLast(parse), LStripLines(lines)) <= Total(Weight(parse), lines)
  {
    if lines != [] {
      if LStrip(lines[0]) == "" && |lines| > 1 {
        LStripDrawsNoMore(parse, lines[1..]);
      } else {
        assert ([LStrip(lines[0])] + lines[1..])[1..] == lines[1..];
        TotalBelow(DrawnLast(parse), Weight(parse), lines[1..]);
      }
    }
  }

  /** What a block's event holds is drawn from the block's lines. */
  lemma {:induction false} BlockDraws(parse: Parse, block: string)
    requires Shrinks(parse)
    ensures ParseBlock(parse, block).Some? ==>
              TextLength(ParseBlock(parse, block).value.data) <= Total(Weight(parse), Split(block, '\n'))
  {
    hide Split, RStripLines, LStripLines, RStrip, LStrip, Drawn, DrawnLast, Weight, Total, LastField, Decode;
    var lines := Split(block, '\n');
    SplitLStrip(block);
    SplitRStrip(LStrip(block));
    LastFieldIsDrawn(parse, Split(Strip(block), '\n'));
    RStripDrawsNoMore(parse, LStripLines(lines));
    LStripDrawsNoMore(parse, lines);
  }

  lemma {:induction false} SplitAtBlank(a: string, b: string)
    ensures Split(a + BLANK + b, '\n') == Split(a, '\n') + ([""] + Split(b, '\n'))
  {
    assert a + BLANK + b == a + ['\n'] + ("\n" + b);
    SplitAround(a, "\n" + b, '\n');
    SplitCons('\n', b, '\n');
    assert ['\n'] + b == "\n" + b;
  }

  /** The events of any blocks of a text hold no more than its lines can give. */
  lemma {:induction false} EventsDrawNoMore(parse: Parse, blocks: seq<string>, rest: string)
    requires Shrinks(parse)
    ensures EventsLength(ParseAll(parse, blocks)) <= Total(Weight(parse), Split(Glue(blocks) + rest, '\n'))
  {
    if blocks != [] {
      var b, t := blocks[0], Glue(blocks[1..]) + rest;
      EventsDrawNoMore(parse, blocks[1..], rest);
      BlockDraws(parse, b);
      hide Split, Weight, ParseBlock;
      assert Glue(blocks) + rest == b + BLANK + t;
      SplitAtBlank(b, t);
      TotalConcat(Weight(parse), Split(b, '\n'), [""] + Split(t, '\n'));
      TotalConcat(Weight(parse), [""], Split(t, '\n'));
      var one := ParseBlock(parse, b);
      assert ParseAll(parse, blocks) == (if one.Some? then [one.value] else []) + ParseAll(parse, blocks[1..]);
      if one.Some? {
        assert ([one.value] + ParseAll(parse, blocks[1..]))[1..] == ParseAll(parse, blocks[1..]);
      } else {
        assert [] + ParseAll(parse, blocks[1..]) == ParseAll(parse, blocks[1..]);
      }
    }
  }

  // ----- How much text the server puts into a stream -----

  lemma {:induction false} StripsShorten(l: string)
    ensures |LStrip(l)| <= |l| && |RStrip(l)| <= |l|
  {
    var n := LStripSuffix(l);
    var m := RStripPrefix(l);
  }

  lemma WeightBound(parse: Parse, l: string)
    requires Shrinks(parse)
    ensures Weight(parse)(l) <= if |l| < |DATA| then 0 else |l| - |DATA|
  {
    StripsShorten(l);
    StripsShorten(LStrip(l));
  }

  /** A line that does not begin with the data field's first letter, even once stripped. */
  lemma OtherLine(parse: Parse, l: string)
    requires l != "" && l[0] != 'd' && !IsSpace(l[0])
    ensures Weight(parse)(l) == 0
  {
    var n := RStripPrefix(l);
    assert RStrip(l) == "" || RStrip(l)[0] == l[0];
    assert DATA[0] == 'd';
    assert LStrip(l) == l;
  }

  lemma DataLine(parse: Parse, w: string)
    requires w != "" && Trimmed(w)
    ensures Weight(parse)(DATA + w) == TextLength(Decode(parse, w))
  {
    var l := DATA + w;
    assert l[0] == 'd' && l[|l| - 1] == w[|w| - 1] && l[|DATA|..] == w;
    assert LStrip(l) == l && RStrip(l) == l;
  }

  function Length(): string -> nat {
    (l: string) => |l|
  }

  lemma {:induction false} LinesLength(t: string)
    ensures Total(Length(), Split(t, '\n')) <= |t|
  {
    if t != [] {
      var rest := Split(t[1..], '\n');
      LinesLength(t[1..]);
      assert rest == [rest[0]] + rest[1..];
      if t[0] == '\n' {
        assert ([[]] + rest)[1..] == rest;
      }
    }
  }

  lemma {:induction false} LinesGiveAtMost(parse: Parse, t: string)
    requires Shrinks(parse)
    ensures Total(Weight(parse), Split(t, '\n')) <= |t|
  {
    forall l ensures Weight(parse)(l) <= Length()(l) {
      WeightBound(parse, l);
    }
    hide Weight;
    TotalBelow(Weight(parse), Length(), Split(t, '\n'));
    LinesLength(t);
  }

  lemma {:induction false} FirstBreak(w: string) returns (x: string, y: string)
    requires '\n' in w
    ensures '\n' !in x && w == x + "\n" + y
  {
    if w[0] == '\n' {
      x, y := "", w[1..];
      assert w == "" + "\n" + y;
    } else {
      x, y := FirstBreak(w[1..]);
      x := [w[0]] + x;
    }
  }

  /** The lines after a data field give at most its text, and less when it has a line break. */
  lemma {:induction false} RawTextGives(parse: Parse, w: string)
    requires Shrinks(parse)
    ensures Total(Weight(parse), Split(DATA + w, '\n')) <= |w|
    ensures '\n' in w ==> Total(Weight(parse), Split(DATA + w, '\n')) < |w|
  {
    hide Weight, Split;
    if '\n' in w {
      var x, y := FirstBreak(w);
      assert DATA + w == (DATA + x) + ['\n'] + y;
      SplitFirst(DATA + x, y, '\n');
      TotalConcat(Weight(parse), [DATA + x], Split(y, '\n'));
      TotalOne(Weight(parse), DATA + x);
      WeightBound(parse, DATA + x);
      LinesGiveAtMost(parse, y);
    } else {
      SplitNone(DATA + w, '\n');
      TotalOne(Weight(parse), DATA + w);
      WeightBound(parse, DATA + w);
    }
  }

  lemma KeepAliveGives(parse: Parse, dumps: Json -> string)
    ensures Total(Weight(parse), Split(BlockOf(dumps, KeepAlive), '\n')) == 0
  {
    hide Weight, Split, Total;
    var l := ": keepalive";
    SplitNone(l, '\n');
    TotalOne(Weight(parse), l);
    OtherLine(parse, l);
  }

  /** Only the data field of an event's block gives any text. */
  lemma DataGives(parse: Parse, dumps: Json -> string, e: Event)
    requires GoodNames([Sent(e)]) && Emitted(e.data)
    ensures Total(Weight(parse), Split(BlockOf(dumps, Sent(e)), '\n'))
            == Total(Weight(parse), Split(DATA + WireData(dumps, e.data), '\n'))
  {
    assert Sent(e) in [Sent(e)];
    hide Weight, Split, WireData, Trimmed, Total;
    var w := WireData(dumps, e.data);
    var first := EVENT + e.name;
    assert BlockOf(dumps, Sent(e)) == first + ['\n'] + (DATA + w);
    SplitFirst(first, DATA + w, '\n');
    TotalConcat(Weight(parse), [first], Split(DATA + w, '\n'));
    TotalOne(Weight(parse), first);
    assert first[0] == 'e';
    OtherLine(parse, first);
  }

  lemma FrameGives(parse: Parse, dumps: Json -> string, f: Frame)
    requires JsonLike(parse, dumps) && GoodNames([f]) && Emits(f)
    ensures var given := Total(Weight(parse), Split(BlockOf(dumps, f), '\n'));
            && given <= (if f.Sent? then TextLength(f.event.data) else 0)
            && (!OneLine(f) ==> given < TextLength(f.event.data))
  {
    hide Weight, Split, WireData, BlockOf, Trimmed, Total, GoodNames, Emitted;
    if f.KeepAlive? {
      KeepAliveGives(parse, dumps);
    } else {
      var e := f.event;
      var w := WireData(dumps, e.data);
      DataGives(parse, dumps, e);
      if e.data.Str? {
        RawWire(dumps, e.data);
        RawTextGives(parse, w);
      } else {
        WireOneLine(parse, dumps, e.data);
        SplitNone(DATA + w, '\n');
        TotalOne(Weight(parse), DATA + w);
        DataLine(parse, w);
      }
    }
  }

  lemma RawWire(dumps: Json -> string, v: Json)
    requires v.Str?
    ensures WireData(dumps, v) == v.text
  {
  }

  /** The lines of the encoded frames give at most the texts of the frames, and less when the
      first text has a line break. */
  lemma {:induction false} WireGives(parse: Parse, dumps: Json -> string, frames: seq<Frame>)
    requires JsonLike(parse, dumps) && GoodNames(frames) && forall f <- frames :: Emits(f)
    ensures Total(Weight(parse), Split(EncodeAll(dumps, frames), '\n')) <= EventsLength(Received(frames))
    ensures frames != [] && !OneLine(frames[0]) ==>
              Total(Weight(parse), Split(EncodeAll(dumps, frames), '\n')) < EventsLength(Received(frames))
  {
    hide Weight, Split, BlockOf, JsonLike;
    if frames == [] {
      SplitNone([], '\n');
      TotalOne(Weight(parse), []);
      EmptyLine(parse);
    } else {
      var f, tail := frames[0], frames[1..];
      assert frames == [f] + tail && f in frames;
      FrameGives(parse, dumps, f);
      WireGives(parse, dumps, tail);
      var b, t := BlockOf(dumps, f), EncodeAll(dumps, tail);
      SplitAtBlank(b, t);
      TotalConcat(Weight(parse), Split(b, '\n'), [""] + Split(t, '\n'));
      TotalConcat(Weight(parse), [""], Split(t, '\n'));
      TotalOne(Weight(parse), "");
      EmptyLine(parse);
      assert Received(frames)[1..] == Received(tail);
    }
  }

  lemma EmptyLine(parse: Parse)
    ensures Weight(parse)("") == 0
  {
    assert !(DATA <= "");
  }

  /** With a line break in the first text, what arrives is not what was sent: it holds less text. */
  lemma {:induction false} BrokenTextIsLost(parse: Parse, dumps: Json -> string, frames: seq<Frame>, blocks: seq<string>, rest: string)
    requires JsonLike(parse, dumps) && GoodNames(frames) && forall f <- frames :: Emits(f)
    requires frames != [] && !OneLine(frames[0])
    requires Glue(blocks) + rest == EncodeAll(dumps, frames)
    ensures ParseAll(parse, blocks) != Received(frames)
  {
    EventsDrawNoMore(parse, blocks, rest);
    WireGives(parse, dumps, frames);
  }

  /** A frame on one line is the first block, and the rest of the cut is that of the rest. */
  lemma {:induction false} FirstBlockIs(parse: Parse, dumps: Json -> string, f: Frame, tail: seq<Frame>, blocks: seq<string>, rest: string)
    requires JsonLike(parse, dumps) && GoodNames([f]) && Emits(f) && OneLine(f)
    requires (forall g <- [f] + tail :: Emits(g)) && IsBlockSplit(EncodeAll(dumps, [f] + tail), blocks, rest)
    ensures blocks != [] && blocks[0] == BlockOf(dumps, f) && IsBlockSplit(EncodeAll(dumps, tail), blocks[1..], rest)
  {
    hide BlockOf, JsonLike, OneLine;
    FrameIsOneBlock(parse, dumps, f);
    assert ([f] + tail)[1..] == tail;
    SplitNonEmpty(BlockOf(dumps, f), EncodeAll(dumps, tail), blocks, rest);
    FirstBlocksAgree(EncodeAll(dumps, [f] + tail), BlockOf(dumps, f), EncodeAll(dumps, tail), blocks[0], Glue(blocks[1..]) + rest);
  }

  /** End to end: for every sequence of frames and every way the network cuts the
      encoded text, the client reports exactly the events sent (keep-alives as empty
      messages) if and only if every text is on one line, has no trailing whitespace and is
      not JSON, and every dictionary reads back as it was written. Conversation ids always
      arrive. */
  lemma {:induction false} StreamRoundTrip(parse: Parse, dumps: Json -> string, frames: seq<Frame>,
                                           blocks: seq<string>, rest: string)
    requires JsonLike(parse, dumps) && GoodNames(frames) && forall f <- frames :: Emits(f)
    requires IsBlockSplit(EncodeAll(dumps, frames), blocks, rest)
    ensures ParseAll(parse, blocks) == Received(frames) <==> forall f <- frames :: Survives(parse, dumps, f)
    ensures (forall f <- frames :: OneLine(f)) ==> rest == "" && |blocks| == |frames|
    decreases |frames|
  {
    hide ParseBlock, BlockOf, JsonLike;
    if frames == [] {
      assert blocks == [] || |Glue(blocks)| >= 2;
    } else {
      var f, tail := frames[0], frames[1..];
      assert f in frames && frames == [f] + tail;
      if !OneLine(f) {
        BrokenTextIsLost(parse, dumps, frames, blocks, rest);
      } else {
        FirstBlockIs(parse, dumps, f, tail, blocks, rest);
        StreamRoundTrip(parse, dumps, tail, blocks[1..], rest);
        ParseFrame(parse, dumps, f);
        assert ParseAll(parse, blocks)[1..] == ParseAll(parse, blocks[1..]);
        assert Received(frames)[1..] == Received(tail);
        assert (forall g <- frames :: Survives(parse, dumps, g)) <==> Survives(parse, dumps, f) && forall g <- tail :: Survives(parse, dumps, g);
      }
    }
  }

  // ----- The assumptions on JSON can be met -----

  /** Reading a numeral back. */
  function ReadInt(s: string): Option<int> {
    if s == "" then None
    else if s[0] == '-' && Decimal.AllDigits(s[1..]) then Some(-(Decimal.Value(s[1..]) as int))
    else if Decimal.AllDigits(s) then Some(Decimal.Value(s) as int)
    else None
  }

  lemma ReadIntText(n: int)
    ensures ReadInt(IntText(n)) == Some(n)
    ensures IntText(n)[0] != '{'
  {
    var digits := Decimal.Print(if n < 0 then -n else n);
    Decimal.ValuePrint(if n < 0 then -n else n);
    assert Decimal.IsDigit(digits[0]);
    if n < 0 {
      assert IntText(n)[1..] == digits;
    }
  }

  function IsValue(v: Json): Json -> bool {
    (w: Json) => w == v
  }

  function HasLabel(s: string): nat -> bool {
    (k: nat) => Label(k) == s
  }

  function Label(k: nat): (s: string)
    ensures s != "" && '\n' !in s && Trimmed(s) && s[0] == '{'
  {
    var digits := Decimal.Print(k);
    "{" + digits + "}"
  }

  function Numbers(n: nat): (r: seq<nat>)
    ensures |r| == n && forall i | 0 <= i < n :: r[i] == i
  {
    seq(n, i requires 0 <= i < n => i)
  }

  /** A notation that labels the given dictionaries, and all others with one more label. */
  function LabelDumps(payloads: seq<Json>): Json -> string {
    (v: Json) => Label(First(IsValue(v), payloads))
  }

  function LabelParse(payloads: seq<Json>): Parse {
    (s: string) =>
      if s != "" && s[0] == '{' then
        var k := First(HasLabel(s), Numbers(|payloads| + 1));
        if k < |payloads| then Some(payloads[k]) else if k == |payloads| then Some(Dict(map[])) else None
      else match ReadInt(s)
           case Some(n) => Some(Int(n))
           case None => None
  }

  lemma LabelFound(k: nat, n: nat)
    requires k < n
    ensures First(HasLabel(Label(k)), Numbers(n)) == k
  {
    var i := First(HasLabel(Label(k)), Numbers(n));
    assert HasLabel(Label(k))(Numbers(n)[k]);
    assert i <= k;
    assert Label(i) == Label(k);
    assert Label(i)[1..|Label(i)| - 1] == Decimal.Print(i) && Label(k)[1..|Label(k)| - 1] == Decimal.Print(k);
    Decimal.PrintInjective(i, k);
  }

  lemma LabelParsed(payloads: seq<Json>, k: nat)
    requires k <= |payloads|
    ensures LabelParse(payloads)(Label(k)) == Some(if k < |payloads| then payloads[k] else Dict(map[]))
  {
    hide Label, ReadInt, Trimmed;
    LabelFound(k, |payloads| + 1);
  }

  lemma {:induction false} FirstOfPayload(payloads: seq<Json>, v: Json)
    ensures var k := First(IsValue(v), payloads);
            && (k < |payloads| ==> payloads[k] == v)
            && (k == |payloads| ==> forall i | 0 <= i < |payloads| :: payloads[i] != v)
  {
    var k := First(IsValue(v), payloads);
    assert k < |payloads| ==> IsValue(v)(payloads[k]);
    assert forall i | 0 <= i < k :: !IsValue(v)(payloads[i]);
  }

  lemma LabelReads(payloads: seq<Json>, v: Json)
    requires v.Dict? && forall i | 0 <= i < |payloads| :: payloads[i].Dict?
    ensures var parse, dumps := LabelParse(payloads), LabelDumps(payloads);
            && parse(dumps(v)).Some? && parse(dumps(v)).value.Dict?
            && dumps(v) != "" && '\n' !in dumps(v) && Trimmed(dumps(v))
            && forall i | 0 <= i < |payloads| && payloads[i] == v :: parse(dumps(v)) == Some(v)
  {
    hide Label, LabelParse, Trimmed, IsValue, First;
    var k := First(IsValue(v), payloads);
    assert LabelDumps(payloads)(v) == Label(k);
    FirstOfPayload(payloads, v);
    LabelParsed(payloads, k);
  }

  lemma NumeralReads(payloads: seq<Json>, n: int)
    ensures LabelParse(payloads)(IntText(n)) == Some(Int(n))
  {
    ReadIntText(n);
    hide ReadInt, IntText, HasLabel;
  }

  lemma NoTextIsRead(payloads: seq<Json>, s: string)
    requires forall i | 0 <= i < |payloads| :: payloads[i].Dict?
    ensures LabelParse(payloads)(s).Some? ==> !LabelParse(payloads)(s).value.Str?
    ensures LabelParse(payloads)("") == None
  {
    assert ReadInt("") == None;
    hide ReadInt, HasLabel;
  }

  /** For all dictionaries a stream may hold there are a reader and a writer that meet the
      assumptions and under which each of these dictionaries survives. */
  lemma JsonLikeIsPossible(payloads: seq<Json>)
    requires forall i | 0 <= i < |payloads| :: payloads[i].Dict?
    ensures JsonLike(LabelParse(payloads), LabelDumps(payloads))
    ensures forall i | 0 <= i < |payloads| :: LabelParse(payloads)(LabelDumps(payloads)(payloads[i])) == Some(payloads[i])
  {
    hide LabelParse, LabelDumps, Trimmed, IntText;
    var parse, dumps := LabelParse(payloads), LabelDumps(payloads);
    forall v: Json | v.Dict?
      ensures parse(dumps(v)).Some? && parse(dumps(v)).value.Dict?
      ensures dumps(v) != "" && '\n' !in dumps(v) && Trimmed(dumps(v))
    {
      LabelReads(payloads, v);
    }
    forall n ensures parse(IntText(n)) == Some(Int(n)) {
      NumeralReads(payloads, n);
    }
    forall s ensures parse(s).Some? ==> !parse(s).value.Str? {
      NoTextIsRead(payloads, s);
    }
    NoTextIsRead(payloads, "");
    forall i | 0 <= i < |payloads| ensures parse(dumps(payloads[i])) == Some(payloads[i]) {
      LabelReads(payloads, payloads[i]);
    }
  }
}
