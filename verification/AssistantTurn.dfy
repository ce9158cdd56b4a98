/** One turn of the assistant (`AssistantEngine.chat`): the events it streams and the
    messages it stores, for every behaviour of the model, the tools and the user's
    permissions, which are inputs here. */
module AssistantTurn {
  import opened Options
  import opened Sequences
  import opened Text
  import Decimal

  datatype ToolCall = ToolCall(id: string, name: string, arguments: string)

  datatype ToolResult = ToolResult(success: bool, result: string, error: Option<string>)

  datatype Event =
    | ConversationId(conversation: int)
    | Thinking(status: string)
    | Token(text: string)
    | ConfirmRequired(call: ToolCall)
    | ToolCalled(call: ToolCall)
    | ToolResulted(callId: string, name: string, result: ToolResult)
    | Suggestions(questions: seq<string>)
    | Done
    | Error(message: string)
    | TitleUpdated(title: string)

  datatype Message =
    | User(text: string)
    | AssistantText(text: string)
    | AssistantCalls(content: string, calls: seq<ToolCall>)
    | Tool(callId: string, name: string, content: string)

  // ----- What the turn depends on -----

  datatype Lookup = NotFound | Existing(id: int) | Created(id: int)

  /** A streamed reply: its chunks, and whether it broke off with an error. */
  datatype Stream = Stream(chunks: seq<string>, failed: bool)

  datatype Decision = Fails | Reply(text: string) | Calls(content: string, calls: seq<ToolCall>)

  /** A tool returns a result, or raises (only caught when several run at once). */
  datatype Outcome = Returned(result: ToolResult) | Raised

  datatype Env = Env(
    conversation: Lookup,
    message: string,
    offersTools: bool,
    maxIterations: int,
    direct: Stream,
    decisions: seq<Decision>,
    needsConfirm: string -> bool,
    run: ToolCall -> Outcome,
    summary: Stream,
    suggestions: seq<string>,
    title: Option<string>)

  /** The model answers as often as it may be asked; a request for tools names at least
      one; a tool run on its own does not raise (the registry catches its errors). */
  predicate Plausible(env: Env) {
    && env.maxIterations <= |env.decisions|
    && (forall d | d in env.decisions && d.Calls? :: d.calls != [])
    && (forall d | d in env.decisions && d.Calls? ::
         var exec := Executable(d.calls, env.needsConfirm); |exec| == 1 ==> env.run(exec[0]).Returned?)
  }

  // ----- Texts -----

  const UNAVAILABLE := "AI service is temporarily unavailable."
  const EXHAUSTED := "I've reached the limit of operations I can perform in one response. Please send another message to continue."
  const CHUNK_SIZE := 40

  function StreamTextChunks(text: string): seq<string> {
    if |text| <= CHUNK_SIZE then [text] else [text[..CHUNK_SIZE]] + StreamTextChunks(text[CHUNK_SIZE..])
  }

  lemma {:induction false} ChunksConcat(text: string)
    ensures Concat(StreamTextChunks(text)) == text
    ensures var chunks := StreamTextChunks(text); chunks != [] && |chunks[|chunks| - 1]| <= 40
    ensures var chunks := StreamTextChunks(text); forall i | 0 <= i < |chunks| - 1 :: |chunks[i]| == 40
    decreases |text|
  {
    if |text| > CHUNK_SIZE {
      ChunksConcat(text[CHUNK_SIZE..]);
      assert text == text[..CHUNK_SIZE] + text[CHUNK_SIZE..];
    } else {
      assert [text][1..] == [] && text + "" == text;
    }
  }

  function SkipMessage(call: ToolCall): string {
    call.name + " requires user confirmation before execution. Please confirm you want to proceed."
  }

  function ResultContent(r: ToolResult): string {
    if r.success then r.result
    else if r.error.Some? && r.error.value != "" then r.error.value else "Tool failed."
  }

  function ConfirmationText(calls: seq<ToolCall>): string {
    var pending := Join(Map((c: ToolCall) => "`" + c.name + "`", calls), ", ");
    if |calls| == 1
    then "I can continue, but " + pending + " needs your confirmation before I run it. "
         + "Use the Confirm action or reply with a clear confirmation to proceed."
    else "I found actions that need confirmation before I can continue: " + pending
         + ". Use the Confirm action or tell me which one to run."
  }

  function FailureText(calls: seq<ToolCall>, run: ToolCall -> Outcome): string {
    var shown := if |calls| <= 4 then calls else calls[..4];
    Join(["I couldn't complete that request because every tool call failed.", ""]
         + Map((c: ToolCall) => "- `" + c.name + "`: " + ResultContent(ResultOf(run, c)), shown)
         + ["", "Retry the request, simplify it, or attach the document/file you want me to use for grounding."], "\n")
  }

  // ----- The turn -----

  function ResultOf(run: ToolCall -> Outcome, call: ToolCall): ToolResult {
    match run(call)
    case Returned(r) => r
    case Raised => ToolResult(false, "", Some("An internal error occurred while running this tool. Please try again."))
  }

  function ToConfirm(calls: seq<ToolCall>, needsConfirm: string -> bool): seq<ToolCall> {
    FilterMap((c: ToolCall) => if needsConfirm(c.name) then Some(c) else None, calls)
  }

  function Executable(calls: seq<ToolCall>, needsConfirm: string -> bool): seq<ToolCall> {
    FilterMap((c: ToolCall) => if needsConfirm(c.name) then None else Some(c), calls)
  }

  function TokenEvents(chunks: seq<string>): seq<Event> {
    FilterMap((c: string) => if c == "" then None else Some(Token(c)), chunks)
  }

  /** What a stretch of the turn streams and stores, and whether the turn goes on. */
  datatype Part = Part(events: seq<Event>, log: seq<Message>, ok: bool)

  function Streamed(status: string, s: Stream): Part {
    var events := [Thinking(status)] + TokenEvents(s.chunks);
    if s.failed then Part(events + [Error(UNAVAILABLE)], [], false)
    else Part(events, [AssistantText(Concat(s.chunks))], true)
  }

  function Answer(text: string): Part {
    Part(if text == "" then [] else Map((c: string) => Token(c), StreamTextChunks(text)), [AssistantText(text)], true)
  }

  function Confirmations(confirm: seq<ToolCall>): Part {
    Part(Map((c: ToolCall) => ConfirmRequired(c), confirm),
         Map((c: ToolCall) => Tool(c.id, c.name, SkipMessage(c)), confirm), true)
  }

  function ResultEvent(run: ToolCall -> Outcome, c: ToolCall): Event {
    ToolResulted(c.id, c.name, ResultOf(run, c))
  }

  function ResultMessage(run: ToolCall -> Outcome, c: ToolCall): Message {
    Tool(c.id, c.name, ResultContent(ResultOf(run, c)))
  }

  function Executions(exec: seq<ToolCall>, run: ToolCall -> Outcome): Part {
    Part((if exec == [] then [] else [Thinking(RunningStatus(exec))])
         + Map((c: ToolCall) => ToolCalled(c), exec)
         + Map((c: ToolCall) => ResultEvent(run, c), exec),
         Map((c: ToolCall) => ResultMessage(run, c), exec), true)
  }

  function RunningStatus(exec: seq<ToolCall>): string {
    if |exec| == 1 then "Running " + exec[0].name + "\U{2026}"
    else "Running " + Decimal.Print(|exec|) + " tools in parallel\U{2026}"
  }

  /** What follows the tools: a request to confirm, a report that all failed, or a
      summary by the model. */
  function Conclusion(env: Env, confirm: seq<ToolCall>, exec: seq<ToolCall>): Part {
    if confirm != [] && exec == [] then Answer(ConfirmationText(confirm))
    else if exec != [] && confirm == [] && AllFailed(exec, env.run) then Answer(FailureText(exec, env.run))
    else Streamed("Preparing response\U{2026}", env.summary)
  }

  predicate AllFailed(exec: seq<ToolCall>, run: ToolCall -> Outcome) {
    forall c | c in exec :: !ResultOf(run, c).success
  }

  function Join2(a: Part, b: Part): Part {
    Part(a.events + b.events, a.log + b.log, b.ok)
  }

  function ToolRound(env: Env, content: string, calls: seq<ToolCall>): Part {
    var confirm, exec := ToConfirm(calls, env.needsConfirm), Executable(calls, env.needsConfirm);
    Join2(Join2(Join2(Part([], [AssistantCalls(content, calls)], true), Confirmations(confirm)), Executions(exec, env.run)),
          Conclusion(env, confirm, exec))
  }

  function Decided(env: Env, d: Decision): Part {
    match d
    case Fails => Part([Error(UNAVAILABLE)], [], false)
    case Reply(text) => Answer(text)
    case Calls(content, calls) => ToolRound(env, content, calls)
  }

  function Body(env: Env): Part
    requires Plausible(env)
  {
    if !env.offersTools then Streamed("Thinking\U{2026}", env.direct)
    else if env.maxIterations <= 0 then Part([Token(EXHAUSTED)], [AssistantText(EXHAUSTED)], true)
    else Join2(Part([Thinking("Analyzing your request\U{2026}")], [], true), Decided(env, env.decisions[0]))
  }

  function Closing(env: Env): seq<Event> {
    (if env.suggestions == [] then [] else [Suggestions(env.suggestions)])
    + [Done]
    + (if env.conversation.Created? && env.title.Some? then [TitleUpdated(env.title.value)] else [])
  }

  function Turn(env: Env): Part
    requires Plausible(env)
  {
    if env.conversation.NotFound? then Part([Error("Conversation not found.")], [], false)
    else
      var body := Body(env);
      Part([ConversationId(env.conversation.id)] + body.events + (if body.ok then Closing(env) else []),
           [User(env.message)] + body.log, body.ok)
  }

  // ----- The loops of the code -----

  method StreamTo(s: Stream, status: string) returns (part: Part)
    ensures part == Streamed(status, s)
  {
    var events := [Thinking(status)];
    var fullText := "";
    for i := 0 to |s.chunks|
      invariant events == [Thinking(status)] + TokenEvents(s.chunks[..i])
      invariant fullText == Concat(s.chunks[..i])
    {
      var token := s.chunks[i];
      assert s.chunks[..i + 1] == s.chunks[..i] + [token];
      FilterMapAppend((c: string) => if c == "" then None else Some(Token(c)), s.chunks[..i], token);
      ConcatAppend(s.chunks[..i], [token]);
      assert [token][1..] == [] && token + "" == token;
      if token != "" {
        fullText := fullText + token;
        events := events + [Token(token)];
      } else {
        assert fullText + "" == fullText;
      }
    }
    assert s.chunks[..|s.chunks|] == s.chunks;
    if s.failed {
      return Part(events + [Error(UNAVAILABLE)], [], false);
    }
    return Part(events, [AssistantText(fullText)], true);
  }

  method AnswerWith(text: string) returns (part: Part)
    ensures part == Answer(text)
  {
    var events: seq<Event> := [];
    if text != "" {
      var chunks := StreamTextChunks(text);
      for i := 0 to |chunks|
        invariant events == Map((c: string) => Token(c), chunks[..i])
      {
        events := events + [Token(chunks[i])];
      }
      assert chunks[..|chunks|] == chunks;
    }
    return Part(events, [AssistantText(text)], true);
  }

  method SeparateCalls(calls: seq<ToolCall>, needsConfirm: string -> bool) returns (confirm: seq<ToolCall>, exec: seq<ToolCall>)
    ensures confirm == ToConfirm(calls, needsConfirm) && exec == Executable(calls, needsConfirm)
  {
    confirm, exec := [], [];
    for i := 0 to |calls|
      invariant confirm == ToConfirm(calls[..i], needsConfirm) && exec == Executable(calls[..i], needsConfirm)
    {
      assert calls[..i + 1] == calls[..i] + [calls[i]];
      FilterMapAppend((c: ToolCall) => if needsConfirm(c.name) then Some(c) else None, calls[..i], calls[i]);
      FilterMapAppend((c: ToolCall) => if needsConfirm(c.name) then None else Some(c), calls[..i], calls[i]);
      if needsConfirm(calls[i].name) {
        confirm := confirm + [calls[i]];
      } else {
        exec := exec + [calls[i]];
      }
    }
    assert calls[..|calls|] == calls;
  }

  method AnnounceCalls(exec: seq<ToolCall>) returns (events: seq<Event>)
    ensures events == Map((c: ToolCall) => ToolCalled(c), exec)
  {
    events := [];
    for i := 0 to |exec|
      invariant events == Map((c: ToolCall) => ToolCalled(c), exec[..i])
    {
      events := events + [ToolCalled(exec[i])];
    }
    assert exec[..|exec|] == exec;
  }

  /** Runs the tools; an exception becomes a failed result. */
  method GatherResults(exec: seq<ToolCall>, run: ToolCall -> Outcome) returns (results: seq<ToolResult>)
    ensures results == Map((c: ToolCall) => ResultOf(run, c), exec)
  {
    results := [];
    for i := 0 to |exec|
      invariant results == Map((c: ToolCall) => ResultOf(run, c), exec[..i])
    {
      var tc := exec[i];
      var result :=
        if run(tc).Raised? then ToolResult(false, "", Some("An internal error occurred while running this tool. Please try again."))
        else run(tc).result;
      results := results + [result];
    }
    assert exec[..|exec|] == exec;
  }

  /** Several tools: all calls are announced, then the results follow in call order. */
  method RunParallel(exec: seq<ToolCall>, run: ToolCall -> Outcome) returns (part: Part, results: seq<ToolResult>)
    requires |exec| > 1
    ensures part == Executions(exec, run)
    ensures results == Map((c: ToolCall) => ResultOf(run, c), exec)
  {
    hide RunningStatus, ResultContent, ResultOf;
    var called := AnnounceCalls(exec);
    results := GatherResults(exec, run);
    var events: seq<Event>, log: seq<Message> := [], [];
    for i := 0 to |exec|
      invariant events == Map((c: ToolCall) => ResultEvent(run, c), exec[..i])
      invariant log == Map((c: ToolCall) => ResultMessage(run, c), exec[..i])
    {
      var tc := exec[i];
      events := events + [ToolResulted(tc.id, tc.name, results[i])];
      log := log + [Tool(tc.id, tc.name, ResultContent(results[i]))];
    }
    assert exec[..|exec|] == exec;
    part := Part([Thinking(RunningStatus(exec))] + called + events, log, true);
  }

  method RunTools(exec: seq<ToolCall>, run: ToolCall -> Outcome) returns (part: Part, results: seq<ToolResult>)
    requires |exec| == 1 ==> run(exec[0]).Returned?
    ensures part == Executions(exec, run)
    ensures results == Map((c: ToolCall) => ResultOf(run, c), exec)
  {
    hide RunningStatus, ResultContent;
    if |exec| > 1 {
      part, results := RunParallel(exec, run);
    } else if exec != [] {
      var tc := exec[0];
      var result := run(tc).result;
      results := [result];
      part := Part([Thinking(RunningStatus(exec)), ToolCalled(tc), ToolResulted(tc.id, tc.name, result)],
                   [Tool(tc.id, tc.name, ResultContent(result))], true);
    } else {
      part, results := Part([], [], true), [];
    }
  }

  method RunToolRound(env: Env, content: string, calls: seq<ToolCall>) returns (part: Part)
    requires var exec := Executable(calls, env.needsConfirm); |exec| == 1 ==> env.run(exec[0]).Returned?
    ensures part == ToolRound(env, content, calls)
  {
    hide Executable, ToConfirm, ConfirmationText, FailureText, Executions, Streamed, Answer, SkipMessage;
    var events: seq<Event>, log := [], [AssistantCalls(content, calls)];
    var confirm, exec := SeparateCalls(calls, env.needsConfirm);
    for i := 0 to |confirm|
      invariant events == Map((c: ToolCall) => ConfirmRequired(c), confirm[..i])
      invariant log == [AssistantCalls(content, calls)] + Map((c: ToolCall) => Tool(c.id, c.name, SkipMessage(c)), confirm[..i])
    {
      var tc := confirm[i];
      events := events + [ConfirmRequired(tc)];
      log := log + [Tool(tc.id, tc.name, SkipMessage(tc))];
    }
    assert confirm[..|confirm|] == confirm;
    var ran, results := RunTools(exec, env.run);
    var last;
    if confirm != [] && exec == [] {
      last := AnswerWith(ConfirmationText(confirm));
    } else if exec != [] && confirm == [] && results != [] && forall r | r in results :: !r.success {
      assert forall c | c in exec :: ResultOf(env.run, c) in results;
      last := AnswerWith(FailureText(exec, env.run));
    } else {
      assert exec != [] && confirm == [] ==> !AllFailed(exec, env.run);
      last := StreamTo(env.summary, "Preparing response\U{2026}");
    }
    part := Part(events + ran.events + last.events, log + ran.log + last.log, last.ok);
    assert [] + events == events;
  }

  /** The direct reply, or the loop over tool rounds, which never comes round: every
      way through its body leaves it. */
  method Respond(env: Env) returns (part: Part)
    requires Plausible(env)
    ensures part == Body(env)
  {
    hide Streamed, Answer, ToolRound, Executable;
    if !env.offersTools {
      part := StreamTo(env.direct, "Thinking\U{2026}");
      return;
    }
    for iteration := 0 to if env.maxIterations < 0 then 0 else env.maxIterations
      invariant iteration == 0
    {
      var events := [Thinking("Analyzing your request\U{2026}")];
      var decision := env.decisions[iteration];
      assert decision in env.decisions;
      var round;
      match decision {
        case Fails => round := Part([Error(UNAVAILABLE)], [], false);
        case Reply(text) => round := AnswerWith(text);
        case Calls(content, calls) => round := RunToolRound(env, content, calls);
      }
      return Part(events + round.events, [] + round.log, round.ok);
    }
    part := Part([Token(EXHAUSTED)], [AssistantText(EXHAUSTED)], true);
  }

  /** `chat`, from the lookup of the conversation to the last event. */
  method Chat(env: Env) returns (events: seq<Event>, log: seq<Message>)
    requires Plausible(env)
    ensures events == Turn(env).events && log == Turn(env).log
  {
    hide Body;
    if env.conversation.NotFound? {
      return [Error("Conversation not found.")], [];
    }
    events := [ConversationId(env.conversation.id)];
    log := [User(env.message)];
    var reply := Respond(env);
    events, log := events + reply.events, log + reply.log;
    if !reply.ok {
      assert events + [] == events;
      return;
    }
    ghost var before := events;
    if env.suggestions != [] {
      events := events + [Suggestions(env.suggestions)];
    }
    events := events + [Done];
    if env.conversation.Created? && env.title.Some? {
      events := events + [TitleUpdated(env.title.value)];
    }
    assert events == before + Closing(env);
  }

  // ----- What can be observed of a turn -----

  function TerminalOf(e: Event): Option<Event> { if e.Done? || e.Error? then Some(e) else None }
  function CalledOf(e: Event): Option<ToolCall> { if e.ToolCalled? then Some(e.call) else None }
  function ResultedOf(e: Event): Option<Event> { if e.ToolResulted? then Some(e) else None }
  function ConfirmOf(e: Event): Option<ToolCall> { if e.ConfirmRequired? then Some(e.call) else None }
  function ShownOf(e: Event): Option<string> { if e.Token? then Some(e.text) else None }
  function TextOf(m: Message): Option<string> { if m.AssistantText? then Some(m.text) else None }
  function RoundOf(m: Message): Option<seq<ToolCall>> { if m.AssistantCalls? then Some(m.calls) else None }
  function ToolOf(m: Message): Option<Message> { if m.Tool? then Some(m) else None }

  /** Events and messages by kind, each kind in order. */
  datatype Observed = Observed(
    terminals: seq<Event>, called: seq<ToolCall>, resulted: seq<Event>, confirmed: seq<ToolCall>, shown: string,
    texts: seq<string>, rounds: seq<seq<ToolCall>>, tools: seq<Message>)

  function Observe(events: seq<Event>, log: seq<Message>): Observed {
    Observed(FilterMap(TerminalOf, events), FilterMap(CalledOf, events), FilterMap(ResultedOf, events),
             FilterMap(ConfirmOf, events), Concat(FilterMap(ShownOf, events)),
             FilterMap(TextOf, log), FilterMap(RoundOf, log), FilterMap(ToolOf, log))
  }

  function Plus(a: Observed, b: Observed): Observed {
    Observed(a.terminals + b.terminals, a.called + b.called, a.resulted + b.resulted, a.confirmed + b.confirmed,
             a.shown + b.shown, a.texts + b.texts, a.rounds + b.rounds, a.tools + b.tools)
  }

  const NOTHING := Observed([], [], [], [], "", [], [], [])

  lemma ObserveConcat(e1: seq<Event>, l1: seq<Message>, e2: seq<Event>, l2: seq<Message>)
    ensures Observe(e1 + e2, l1 + l2) == Plus(Observe(e1, l1), Observe(e2, l2))
  {
    hide FilterMap, TerminalOf, CalledOf, ResultedOf, ConfirmOf, ShownOf, TextOf, RoundOf, ToolOf, Concat;
    FilterMapConcat(TerminalOf, e1, e2);
    FilterMapConcat(CalledOf, e1, e2);
    FilterMapConcat(ResultedOf, e1, e2);
    FilterMapConcat(ConfirmOf, e1, e2);
    FilterMapConcat(ShownOf, e1, e2);
    ConcatAppend(FilterMap(ShownOf, e1), FilterMap(ShownOf, e2));
    FilterMapConcat(TextOf, l1, l2);
    FilterMapConcat(RoundOf, l1, l2);
    FilterMapConcat(ToolOf, l1, l2);
  }

  /** Nothing but progress notes is observed as nothing. */
  lemma ObserveQuiet(events: seq<Event>)
    requires forall e | e in events :: e.Thinking? || e.ConversationId? || e.Suggestions? || e.TitleUpdated?
    ensures Observe(events, []) == NOTHING
  {
    FilterMapNone(TerminalOf, events);
    FilterMapNone(CalledOf, events);
    FilterMapNone(ResultedOf, events);
    FilterMapNone(ConfirmOf, events);
    FilterMapNone(ShownOf, events);
  }

  lemma {:induction false} ObserveTokens(tokens: seq<string>)
    ensures Observe(Map((c: string) => Token(c), tokens), []) == NOTHING.(shown := Concat(tokens))
  {
    var events := Map((c: string) => Token(c), tokens);
    FilterMapNone(TerminalOf, events);
    FilterMapNone(CalledOf, events);
    FilterMapNone(ResultedOf, events);
    FilterMapNone(ConfirmOf, events);
    FilterMapMap(ShownOf, (c: string) => Token(c), (c: string) => c, tokens);
    assert Map((c: string) => c, tokens) == tokens;
  }

  lemma ObserveOne(e: Event, m: Message)
    ensures e.Error? || e.Done? ==> Observe([e], []) == NOTHING.(terminals := [e])
    ensures m.AssistantText? ==> Observe([], [m]) == NOTHING.(texts := [m.text])
    ensures m.AssistantCalls? ==> Observe([], [m]) == NOTHING.(rounds := [m.calls])
    ensures m.User? ==> Observe([], [m]) == NOTHING
  {
    FilterMapOne(TerminalOf, e);
    FilterMapOne(CalledOf, e);
    FilterMapOne(ResultedOf, e);
    FilterMapOne(ConfirmOf, e);
    FilterMapOne(ShownOf, e);
    FilterMapOne(TextOf, m);
    FilterMapOne(RoundOf, m);
    FilterMapOne(ToolOf, m);
  }

  lemma ObserveToken(text: string)
    ensures Observe([Token(text)], []) == NOTHING.(shown := text)
  {
    hide Observe;
    ObserveTokens([text]);
    assert Map((c: string) => Token(c), [text]) == [Token(text)];
    assert [text][1..] == [] && text + "" == text;
  }

  lemma PlusNothing(o: Observed)
    ensures Plus(NOTHING, o) == o && Plus(o, NOTHING) == o
  {
  }

  /** How a stretch of the turn that shows `text` ends: with exactly that stored, or with one
      error and no text. */
  predicate Ends(o: Observed, ok: bool, text: string) {
    o.shown == text &&
    if ok then o.terminals == [] && o.texts == [text]
    else o.terminals == [Error(UNAVAILABLE)] && o.texts == []
  }

  predicate NoTools(o: Observed) {
    o.called == [] && o.resulted == [] && o.confirmed == [] && o.tools == [] && o.rounds == []
  }

  function Of(p: Part): Observed {
    Observe(p.events, p.log)
  }

  lemma ObserveStreamed(status: string, s: Stream)
    ensures Ends(Of(Streamed(status, s)), !s.failed, Concat(s.chunks)) && Streamed(status, s).ok == !s.failed
    ensures NoTools(Of(Streamed(status, s)))
  {
    hide Observe, TokenEvents;
    var tokens := TokenEvents(s.chunks);
    var nonEmpty := NonEmpty(s.chunks);
    TokenEventsOfNonEmpty(s.chunks);
    ObserveTokens(nonEmpty);
    ObserveQuiet([Thinking(status)]);
    ObserveConcat([Thinking(status)], [], tokens, []);
    var none: seq<Message> := [];
    assert none + [] == none;
    var events := [Thinking(status)] + tokens;
    var text := Concat(s.chunks);
    PlusNothing(Observe(tokens, []));
    assert Observe(events, []) == NOTHING.(shown := text);
    ObserveOne(Error(UNAVAILABLE), AssistantText(text));
    if s.failed {
      ObserveConcat(events, [], [Error(UNAVAILABLE)], []);
    } else {
      ObserveConcat(events, [], [], [AssistantText(text)]);
      assert events + [] == events && [] + [AssistantText(text)] == [AssistantText(text)];
      assert text + "" == text;
    }
  }

  function NonEmpty(chunks: seq<string>): seq<string> {
    if chunks == [] then [] else (if chunks[0] == "" then [] else [chunks[0]]) + NonEmpty(chunks[1..])
  }

  lemma {:induction false} TokenEventsOfNonEmpty(chunks: seq<string>)
    ensures TokenEvents(chunks) == Map((c: string) => Token(c), NonEmpty(chunks))
    ensures Concat(NonEmpty(chunks)) == Concat(chunks)
  {
    if chunks != [] {
      TokenEventsOfNonEmpty(chunks[1..]);
      if chunks[0] == "" {
        assert [] + NonEmpty(chunks[1..]) == NonEmpty(chunks[1..]);
      } else {
        assert ([chunks[0]] + NonEmpty(chunks[1..]))[1..] == NonEmpty(chunks[1..]);
      }
    }
  }

  lemma ObserveAnswer(text: string)
    ensures Ends(Of(Answer(text)), true, text) && Answer(text).ok && NoTools(Of(Answer(text)))
  {
    hide Observe, StreamTextChunks;
    var tokens := if text == "" then [] else StreamTextChunks(text);
    if text != "" {
      ChunksConcat(text);
    }
    var events := Answer(text).events;
    assert events == Map((c: string) => Token(c), tokens);
    assert Concat(tokens) == text;
    ObserveTokens(tokens);
    ObserveOne(Done, AssistantText(text));
    ObserveConcat(events, [], [], [AssistantText(text)]);
    assert events + [] == events && [] + [AssistantText(text)] == [AssistantText(text)];
    assert text + "" == text;
  }

  function Skips(confirm: seq<ToolCall>): seq<Message> {
    Map((c: ToolCall) => Tool(c.id, c.name, SkipMessage(c)), confirm)
  }

  function Results(exec: seq<ToolCall>, run: ToolCall -> Outcome): seq<Event> {
    Map((c: ToolCall) => ResultEvent(run, c), exec)
  }

  function ResultLog(exec: seq<ToolCall>, run: ToolCall -> Outcome): seq<Message> {
    Map((c: ToolCall) => ResultMessage(run, c), exec)
  }

  lemma ObserveConfirmations(confirm: seq<ToolCall>)
    ensures Of(Confirmations(confirm)) == NOTHING.(confirmed := confirm, tools := Skips(confirm))
  {
    hide SkipMessage;
    var id := (c: ToolCall) => c;
    assert Map(id, confirm) == confirm;
    var g := (c: ToolCall) => ConfirmRequired(c);
    var h := (c: ToolCall) => Tool(c.id, c.name, SkipMessage(c));
    FilterMapNone(TerminalOf, Map(g, confirm));
    FilterMapNone(CalledOf, Map(g, confirm));
    FilterMapNone(ResultedOf, Map(g, confirm));
    FilterMapMap(ConfirmOf, g, id, confirm);
    FilterMapNone(ShownOf, Map(g, confirm));
    FilterMapNone(TextOf, Map(h, confirm));
    FilterMapNone(RoundOf, Map(h, confirm));
    FilterMapMap(ToolOf, h, h, confirm);
  }

  lemma ObserveCalled(exec: seq<ToolCall>)
    ensures Observe(Map((c: ToolCall) => ToolCalled(c), exec), []) == NOTHING.(called := exec)
  {
    var g := (c: ToolCall) => ToolCalled(c);
    assert Map((c: ToolCall) => c, exec) == exec;
    FilterMapNone(TerminalOf, Map(g, exec));
    FilterMapMap(CalledOf, g, (c: ToolCall) => c, exec);
    FilterMapNone(ResultedOf, Map(g, exec));
    FilterMapNone(ConfirmOf, Map(g, exec));
    FilterMapNone(ShownOf, Map(g, exec));
  }

  lemma ObserveResulted(exec: seq<ToolCall>, run: ToolCall -> Outcome)
    ensures Observe(Map((c: ToolCall) => ResultEvent(run, c), exec), Map((c: ToolCall) => ResultMessage(run, c), exec))
      == NOTHING.(resulted := Results(exec, run), tools := ResultLog(exec, run))
  {
    hide ResultContent, ResultOf;
    var g := (c: ToolCall) => ResultEvent(run, c);
    var h := (c: ToolCall) => ResultMessage(run, c);
    FilterMapNone(TerminalOf, Map(g, exec));
    FilterMapNone(CalledOf, Map(g, exec));
    FilterMapMap(ResultedOf, g, g, exec);
    FilterMapNone(ConfirmOf, Map(g, exec));
    FilterMapNone(ShownOf, Map(g, exec));
    FilterMapNone(TextOf, Map(h, exec));
    FilterMapNone(RoundOf, Map(h, exec));
    FilterMapMap(ToolOf, h, h, exec);
  }

  lemma ObserveExecutions(exec: seq<ToolCall>, run: ToolCall -> Outcome)
    ensures Of(Executions(exec, run))
            == NOTHING.(called := exec, resulted := Results(exec, run), tools := ResultLog(exec, run))
  {
    hide Observe, RunningStatus;
    var start := if exec == [] then [] else [Thinking(RunningStatus(exec))];
    var called := Map((c: ToolCall) => ToolCalled(c), exec);
    var resulted := Map((c: ToolCall) => ResultEvent(run, c), exec);
    var log := Map((c: ToolCall) => ResultMessage(run, c), exec);
    ObserveQuiet(start);
    ObserveCalled(exec);
    ObserveResulted(exec, run);
    ObserveConcat(start, [], called, []);
    var none: seq<Message> := [];
    assert none + none == none && none + log == log;
    ObserveConcat(start + called, none, resulted, log);
    PlusNothing(Observe(called, []));
    assert exec + [] == exec && [] + resulted == resulted && [] + log == log;
  }

  /** What a round says in the end: which actions wait for the user, that every call failed,
      or the model's summary. */
  function Verdict(env: Env, confirm: seq<ToolCall>, exec: seq<ToolCall>): string {
    if confirm != [] && exec == [] then ConfirmationText(confirm)
    else if exec != [] && confirm == [] && forall c | c in exec :: Failed(env.run(c)) then FailureText(exec, env.run)
    else Concat(env.summary.chunks)
  }

  /** The tool raised, or returned without success. */
  predicate Failed(outcome: Outcome) {
    outcome.Raised? || !outcome.result.success
  }

  /** The round ends by itself or with the summary's stream. */
  predicate EndsEarly(env: Env, confirm: seq<ToolCall>, exec: seq<ToolCall>) {
    || (confirm != [] && exec == [])
    || (exec != [] && confirm == [] && forall c | c in exec :: Failed(env.run(c)))
  }

  lemma ObserveConclusion(env: Env, confirm: seq<ToolCall>, exec: seq<ToolCall>)
    ensures var p := Conclusion(env, confirm, exec);
            && p.ok == (EndsEarly(env, confirm, exec) || !env.summary.failed)
            && Ends(Of(p), p.ok, Verdict(env, confirm, exec)) && NoTools(Of(p))
  {
    hide Observe, Answer, Streamed, ConfirmationText, FailureText;
    assert AllFailed(exec, env.run) == forall c | c in exec :: Failed(env.run(c));
    if confirm != [] && exec == [] {
      ObserveAnswer(ConfirmationText(confirm));
    } else if exec != [] && confirm == [] && AllFailed(exec, env.run) {
      ObserveAnswer(FailureText(exec, env.run));
    } else {
      ObserveStreamed("Preparing response\U{2026}", env.summary);
    }
  }

  lemma ObserveRound(env: Env, content: string, calls: seq<ToolCall>)
    ensures var p := ToolRound(env, content, calls); var o := Of(p);
      var confirm, exec := ToConfirm(calls, env.needsConfirm), Executable(calls, env.needsConfirm);
      && p.ok == (EndsEarly(env, confirm, exec) || !env.summary.failed)
      && Ends(o, p.ok, Verdict(env, confirm, exec))
      && o.rounds == [calls] && o.called == exec && o.resulted == Results(exec, env.run) && o.confirmed == confirm
      && o.tools == Skips(confirm) + ResultLog(exec, env.run)
  {
    hide Observe, ToConfirm, Executable, Conclusion, Confirmations, Executions, Skips, Results, ResultLog, ToolRound, Verdict, EndsEarly;
    var confirm, exec := ToConfirm(calls, env.needsConfirm), Executable(calls, env.needsConfirm);
    var d := Conclusion(env, confirm, exec);
    ObserveRoundStart(env, content, calls, confirm, exec);
    ObserveConclusion(env, confirm, exec);
    RoundIsStartThenConclusion(env, content, calls);
    var start := RoundStart(env, content, calls);
    ObserveConcat(start.events, start.log, d.events, d.log);
    assert "" + Of(d).shown == Of(d).shown;
    assert exec + [] == exec && confirm + [] == confirm && Results(exec, env.run) + [] == Results(exec, env.run);
    var tools := Skips(confirm) + ResultLog(exec, env.run);
    assert tools + [] == tools;
  }

  /** A round up to the last tool result. */
  function RoundStart(env: Env, content: string, calls: seq<ToolCall>): Part {
    Join2(Join2(Part([], [AssistantCalls(content, calls)], true), Confirmations(ToConfirm(calls, env.needsConfirm))),
          Executions(Executable(calls, env.needsConfirm), env.run))
  }

  lemma RoundIsStartThenConclusion(env: Env, content: string, calls: seq<ToolCall>)
    ensures ToolRound(env, content, calls)
      == Join2(RoundStart(env, content, calls),
               Conclusion(env, ToConfirm(calls, env.needsConfirm), Executable(calls, env.needsConfirm)))
  {
    hide Conclusion, Confirmations, Executions, ToConfirm, Executable;
  }

  lemma ObserveRoundStart(env: Env, content: string, calls: seq<ToolCall>, confirm: seq<ToolCall>, exec: seq<ToolCall>)
    requires confirm == ToConfirm(calls, env.needsConfirm) && exec == Executable(calls, env.needsConfirm)
    ensures Of(RoundStart(env, content, calls))
      == Observed([], exec, Results(exec, env.run), confirm, "", [], [calls], Skips(confirm) + ResultLog(exec, env.run))
  {
    hide Observe, ToConfirm, Executable, Confirmations, Executions, Skips, Results, ResultLog;
    var a := Part([], [AssistantCalls(content, calls)], true);
    var b, c := Confirmations(confirm), Executions(exec, env.run);
    ObserveOne(Done, AssistantCalls(content, calls));
    ObserveConfirmations(confirm);
    ObserveExecutions(exec, env.run);
    ObserveConcat(a.events, a.log, b.events, b.log);
    ObserveConcat(a.events + b.events, a.log + b.log, c.events, c.log);
  }

  // ----- The protocol of a turn -----

  /** The calls the model asked for in this turn: none, or those of its one decision. */
  function Requested(env: Env): seq<ToolCall>
    requires Plausible(env)
  {
    if env.conversation.NotFound? || !env.offersTools || env.maxIterations <= 0 || !env.decisions[0].Calls? then []
    else env.decisions[0].calls
  }

  /** What the user is shown: nothing of a turn that fails before the model speaks. */
  function Spoken(env: Env): string
    requires Plausible(env)
  {
    if env.conversation.NotFound? then ""
    else if !env.offersTools then Concat(env.direct.chunks)
    else if env.maxIterations <= 0 then EXHAUSTED
    else
      match env.decisions[0]
      case Fails => ""
      case Reply(text) => text
      case Calls(_, calls) => Verdict(env, ToConfirm(calls, env.needsConfirm), Executable(calls, env.needsConfirm))
  }

  /** The model or one of its streams breaks off, or the conversation is missing. */
  predicate Breaks(env: Env)
    requires Plausible(env)
  {
    if env.conversation.NotFound? then true
    else if !env.offersTools then env.direct.failed
    else if env.maxIterations <= 0 then false
    else
      match env.decisions[0]
      case Fails => true
      case Reply(_) => false
      case Calls(_, calls) =>
        env.summary.failed && !EndsEarly(env, ToConfirm(calls, env.needsConfirm), Executable(calls, env.needsConfirm))
  }

  /** What a body shows and stores: its text or its failure, and its one round of tools. */
  ghost predicate IsBody(env: Env, p: Part)
    requires Plausible(env)
  {
    var o, calls := Of(p), Requested(env);
    var confirm, exec := ToConfirm(calls, env.needsConfirm), Executable(calls, env.needsConfirm);
    && p.ok == !Breaks(env) && Ends(o, p.ok, Spoken(env))
    && o.rounds == (if calls == [] then [] else [calls])
    && o.called == exec && o.resulted == Results(exec, env.run) && o.confirmed == confirm
    && o.tools == Skips(confirm) + ResultLog(exec, env.run)
  }

  lemma ObserveBody(env: Env)
    requires Plausible(env) && !env.conversation.NotFound?
    ensures IsBody(env, Body(env))
  {
    hide IsBody, Observe, Streamed, Decided;
    if !env.offersTools {
      ObserveDirect(env);
    } else if env.maxIterations <= 0 {
      ObserveNoRounds(env);
    } else {
      assert env.decisions[0] in env.decisions;
      ObserveDecided(env, env.decisions[0]);
      ObserveAnalyzing(env, Decided(env, env.decisions[0]));
    }
  }

  lemma ObserveDirect(env: Env)
    requires Plausible(env) && !env.conversation.NotFound? && !env.offersTools
    ensures IsBody(env, Streamed("Thinking\U{2026}", env.direct))
  {
    hide Observe, Streamed, FilterMap, Verdict, EndsEarly, ToConfirm, Executable;
    NoCalls(env);
    ObserveStreamed("Thinking\U{2026}", env.direct);
  }

  lemma ObserveNoRounds(env: Env)
    requires Plausible(env) && !env.conversation.NotFound? && env.offersTools && env.maxIterations <= 0
    ensures IsBody(env, Part([Token(EXHAUSTED)], [AssistantText(EXHAUSTED)], true))
  {
    hide Observe, FilterMap, Verdict, EndsEarly, ToConfirm, Executable;
    NoCalls(env);
    ObserveExhausted();
  }

  lemma ObserveExhausted()
    ensures Observe([Token(EXHAUSTED)], [AssistantText(EXHAUSTED)]) == NOTHING.(shown := EXHAUSTED, texts := [EXHAUSTED])
  {
    hide Observe;
    ObserveToken(EXHAUSTED);
    ObserveOne(Done, AssistantText(EXHAUSTED));
    ObserveConcat([Token(EXHAUSTED)], [], [], [AssistantText(EXHAUSTED)]);
    assert [Token(EXHAUSTED)] + [] == [Token(EXHAUSTED)] && [] + [AssistantText(EXHAUSTED)] == [AssistantText(EXHAUSTED)];
    assert EXHAUSTED + "" == EXHAUSTED;
  }

  lemma ObserveAnalyzing(env: Env, rest: Part)
    requires Plausible(env) && IsBody(env, rest)
    ensures IsBody(env, Join2(Part([Thinking("Analyzing your request\U{2026}")], [], true), rest))
  {
    hide Observe, Ends, Breaks, Spoken, ToConfirm, Executable, Skips, Results, ResultLog;
    var start := [Thinking("Analyzing your request\U{2026}")];
    ObserveQuiet(start);
    ObserveConcat(start, [], rest.events, rest.log);
    PlusNothing(Of(rest));
  }

  lemma ObserveDecided(env: Env, d: Decision)
    requires Plausible(env) && !env.conversation.NotFound? && env.offersTools && env.maxIterations > 0 && d == env.decisions[0]
    ensures IsBody(env, Decided(env, d))
  {
    assert d in env.decisions;
    match d {
      case Fails => ObserveFailed(env);
      case Reply(text) => ObserveReply(env, text);
      case Calls(content, calls) => ObserveCalls(env, content, calls);
    }
  }

  lemma ObserveFailed(env: Env)
    requires Plausible(env) && !env.conversation.NotFound? && env.offersTools && env.maxIterations > 0 && env.decisions[0] == Fails
    ensures IsBody(env, Decided(env, Fails))
  {
    hide Observe, FilterMap, Verdict, EndsEarly, ToConfirm, Executable;
    NoCalls(env);
    ObserveOne(Error(UNAVAILABLE), User(""));
  }

  lemma ObserveReply(env: Env, text: string)
    requires Plausible(env) && !env.conversation.NotFound? && env.offersTools && env.maxIterations > 0 && env.decisions[0] == Reply(text)
    ensures IsBody(env, Decided(env, Reply(text)))
  {
    hide Observe, Answer, FilterMap, Verdict, EndsEarly, ToConfirm, Executable;
    NoCalls(env);
    ObserveAnswer(text);
  }

  lemma ObserveCalls(env: Env, content: string, calls: seq<ToolCall>)
    requires Plausible(env) && !env.conversation.NotFound? && env.offersTools && env.maxIterations > 0
    requires env.decisions[0] == Calls(content, calls)
    ensures IsBody(env, Decided(env, Calls(content, calls)))
  {
    assert env.decisions[0] in env.decisions;
    hide Observe, ToolRound, FilterMap, Verdict, EndsEarly, ToConfirm, Executable, Skips, Results, ResultLog;
    ObserveRound(env, content, calls);
  }

  lemma NoCalls(env: Env)
    ensures ToConfirm([], env.needsConfirm) == [] && Executable([], env.needsConfirm) == []
    ensures Results([], env.run) == [] && Skips([]) + ResultLog([], env.run) == []
  {
  }

  lemma SplitStep(calls: seq<ToolCall>, needsConfirm: string -> bool)
    requires calls != []
    ensures var c := calls[0];
      && ToConfirm(calls, needsConfirm) == (if needsConfirm(c.name) then [c] else []) + ToConfirm(calls[1..], needsConfirm)
      && Executable(calls, needsConfirm) == (if needsConfirm(c.name) then [] else [c]) + Executable(calls[1..], needsConfirm)
  {
  }

  lemma NothingToSplit(needsConfirm: string -> bool)
    ensures ToConfirm([], needsConfirm) == [] && Executable([], needsConfirm) == []
  {
  }

  /** Every call is either to confirm or to run, never both. */
  lemma {:induction false} SplitLosesNothing(calls: seq<ToolCall>, needsConfirm: string -> bool)
    ensures var confirm, exec := ToConfirm(calls, needsConfirm), Executable(calls, needsConfirm);
      && multiset(confirm + exec) == multiset(calls)
      && (forall c | c in confirm :: needsConfirm(c.name)) && (forall c | c in exec :: !needsConfirm(c.name))
  {
    hide ToConfirm, Executable;
    if calls == [] {
      NothingToSplit(needsConfirm);
    } else {
      var c, rest := calls[0], calls[1..];
      var confirm, exec := ToConfirm(rest, needsConfirm), Executable(rest, needsConfirm);
      SplitLosesNothing(rest, needsConfirm);
      SplitStep(calls, needsConfirm);
      assert calls == [c] + rest;
      assert [] + confirm == confirm && [] + exec == exec;
      OneMoreCall(c, confirm, exec, rest);
    }
  }

  lemma OneMoreCall(c: ToolCall, confirm: seq<ToolCall>, exec: seq<ToolCall>, rest: seq<ToolCall>)
    requires multiset(confirm + exec) == multiset(rest)
    ensures multiset([c] + confirm + exec) == multiset([c] + rest) == multiset(confirm + ([c] + exec))
  {
    assert multiset(confirm + exec) == multiset(confirm) + multiset(exec);
    assert multiset([c] + rest) == multiset([c]) + multiset(rest);
    assert multiset([c] + confirm + exec) == multiset([c]) + multiset(confirm) + multiset(exec);
    assert multiset(confirm + ([c] + exec)) == multiset(confirm) + (multiset([c]) + multiset(exec));
  }

  /** Both groups keep the order of the calls. */
  lemma SplitKeepsOrder(calls: seq<ToolCall>, needsConfirm: string -> bool) returns (confirmAt: seq<nat>, execAt: seq<nat>)
    ensures IsPicked(calls, confirmAt, ToConfirm(calls, needsConfirm))
    ensures IsPicked(calls, execAt, Executable(calls, needsConfirm))
  {
    confirmAt := FilterMapPositions((c: ToolCall) => if needsConfirm(c.name) then Some(c) else None, calls);
    execAt := FilterMapPositions((c: ToolCall) => if needsConfirm(c.name) then None else Some(c), calls);
  }

  predicate IsPicked(calls: seq<ToolCall>, positions: seq<nat>, picked: seq<ToolCall>) {
    && |positions| == |picked|
    && (forall i | 0 <= i < |positions| :: positions[i] < |calls| && calls[positions[i]] == picked[i])
    && (forall i, j | 0 <= i < j < |positions| :: positions[i] < positions[j])
  }

  lemma ObserveClosing(env: Env)
    ensures Observe(Closing(env), []) == NOTHING.(terminals := [Done])
  {
    hide Observe;
    var before := if env.suggestions == [] then [] else [Suggestions(env.suggestions)];
    var after := if env.conversation.Created? && env.title.Some? then [TitleUpdated(env.title.value)] else [];
    ObserveQuiet(before);
    ObserveQuiet(after);
    ObserveOne(Done, User(""));
    var none: seq<Message> := [];
    assert none + none == none;
    ObserveConcat(before, none, [Done], none);
    ObserveConcat(before + [Done], none, after, none);
  }

  /** The closing of a turn that goes well: follow-up questions if there are any, the end, and
      the title of a new conversation if there is one. */
  lemma TurnCloses(env: Env)
    requires Plausible(env) && !Breaks(env)
    ensures var e := Turn(env).events;
            var end := |e| - (if env.conversation.Created? && env.title.Some? then 2 else 1);
            && 0 < end && e[end] == Done && e[0] == ConversationId(env.conversation.id)
            && (end < |e| - 1 ==> e[|e| - 1] == TitleUpdated(env.title.value))
            && (env.suggestions != [] ==> e[end - 1] == Suggestions(env.suggestions))
            && Turn(env).log[0] == User(env.message)
  {
    hide *;
    var start := TurnParts(env);
    ClosingEnds(env);
    Behind(start, Closing(env));
  }

  lemma TurnParts(env: Env) returns (start: seq<Event>)
    requires Plausible(env) && !Breaks(env)
    ensures env.conversation.Existing? || env.conversation.Created?
    ensures Turn(env).events == start + Closing(env) && start != [] && start[0] == ConversationId(env.conversation.id)
    ensures Turn(env).log != [] && Turn(env).log[0] == User(env.message)
  {
    ObserveBody(env);
    hide Body, Breaks, Observe, Closing;
    start := [ConversationId(env.conversation.id)] + Body(env).events;
  }

  lemma ClosingEnds(env: Env)
    ensures var c := Closing(env); var k := |c| - (if env.conversation.Created? && env.title.Some? then 2 else 1);
      && 0 <= k && c[k] == Done && (k < |c| - 1 ==> c[|c| - 1] == TitleUpdated(env.title.value))
      && (env.suggestions != [] ==> k > 0 && c[k - 1] == Suggestions(env.suggestions))
  {
  }

  lemma Behind(start: seq<Event>, more: seq<Event>)
    ensures |start + more| == |start| + |more| && forall k | 0 <= k < |more| :: (start + more)[|start| + k] == more[k]
    ensures start != [] ==> (start + more)[0] == start[0]
  {
  }

  lemma ObserveTurn(env: Env)
    requires Plausible(env) && !env.conversation.NotFound?
    ensures Of(Turn(env)) == Plus(Of(Body(env)), if Body(env).ok then NOTHING.(terminals := [Done]) else NOTHING)
  {
    hide Observe, Body, Closing;
    var body := Body(env);
    var start, close := [ConversationId(env.conversation.id)], if body.ok then Closing(env) else [];
    ObserveQuiet(start);
    ObserveQuiet([]);
    ObserveOne(Done, User(env.message));
    ObserveClosing(env);
    var none: seq<Message> := [];
    var noEvents: seq<Event> := [];
    assert noEvents + start == start && [User(env.message)] + none == [User(env.message)];
    ObserveConcat(noEvents, [User(env.message)], start, none);
    assert Observe(start, [User(env.message)]) == NOTHING;
    ObserveConcat(start, [User(env.message)], body.events, body.log);
    ObserveConcat(start + body.events, [User(env.message)] + body.log, close, none);
    assert [User(env.message)] + body.log + none == [User(env.message)] + body.log;
    PlusNothing(Of(body));
  }

  /** A tool result says what the tool returned, or that it raised. */
  predicate Carries(outcome: Outcome, r: ToolResult) {
    match outcome
    case Returned(returned) => r == returned
    case Raised =>
      r == ToolResult(false, "", Some("An internal error occurred while running this tool. Please try again."))
  }

  /** A stored tool message holds the result, or the error of a tool that failed. */
  predicate Tells(outcome: Outcome, content: string) {
    match outcome
    case Returned(r) =>
      if r.success then content == r.result
      else if r.error.Some? && r.error.value != "" then content == r.error.value
      else content == "Tool failed."
    case Raised => content == "An internal error occurred while running this tool. Please try again."
  }

  predicate IsSkip(c: ToolCall, m: Message) {
    m == Tool(c.id, c.name, c.name + " requires user confirmation before execution. Please confirm you want to proceed.")
  }

  /** Each call that ran has a result, in order, with what its tool returned. */
  predicate ResultsTell(env: Env, exec: seq<ToolCall>, results: seq<Event>) {
    && |results| == |exec|
    && forall i | 0 <= i < |exec| ::
         && results[i].ToolResulted? && results[i].callId == exec[i].id && results[i].name == exec[i].name
         && Carries(env.run(exec[i]), results[i].result)
  }

  /** One stored message for each call that waits, then one for each that ran, with the result. */
  predicate ToolsTell(env: Env, confirm: seq<ToolCall>, exec: seq<ToolCall>, tools: seq<Message>) {
    && |tools| == |confirm| + |exec|
    && (forall i | 0 <= i < |confirm| :: IsSkip(confirm[i], tools[i]))
    && forall i | |confirm| <= i < |tools| :: IsOutcome(env.run, exec[i - |confirm|], tools[i])
  }

  predicate IsOutcome(run: ToolCall -> Outcome, c: ToolCall, m: Message) {
    m.Tool? && m.callId == c.id && m.name == c.name && Tells(run(c), m.content)
  }

  lemma ResultsDoTell(env: Env, exec: seq<ToolCall>)
    ensures ResultsTell(env, exec, Results(exec, env.run))
  {
  }

  lemma OutcomeIsTold(run: ToolCall -> Outcome, c: ToolCall)
    ensures IsOutcome(run, c, ResultMessage(run, c))
  {
  }

  lemma ToolsDoTell(env: Env, confirm: seq<ToolCall>, exec: seq<ToolCall>)
    ensures ToolsTell(env, confirm, exec, Skips(confirm) + ResultLog(exec, env.run))
  {
    var tools := Skips(confirm) + ResultLog(exec, env.run);
    forall i | 0 <= i < |confirm| ensures IsSkip(confirm[i], tools[i]) {
      assert tools[i] == Skips(confirm)[i];
    }
    hide IsOutcome, ResultMessage, IsSkip;
    forall i | |confirm| <= i < |tools| ensures IsOutcome(env.run, exec[i - |confirm|], tools[i]) {
      assert tools[i] == ResultLog(exec, env.run)[i - |confirm|];
      OutcomeIsTold(env.run, exec[i - |confirm|]);
    }
  }

  /** Every turn: exactly one `error` or `done`; at most one round of tool calls; the calls are
      split without loss into those that need confirmation and those that run; each call that
      runs is announced and answered, in order, with what the tool returned; one tool message is
      stored per call, with that result. A turn that ends with `done` stores exactly one
      assistant text, and it is what the user was shown; one that ends with `error` stores
      none. */
  lemma TurnProtocol(env: Env)
    requires Plausible(env)
    ensures var o := Of(Turn(env)); var calls := Requested(env);
      var confirm, exec := ToConfirm(calls, env.needsConfirm), Executable(calls, env.needsConfirm);
      && |o.terminals| == 1
      && (Turn(env).ok <==> o.terminals == [Done])
      && o.texts == (if Turn(env).ok then [o.shown] else [])
      && o.rounds == (if calls == [] then [] else [calls])
      && o.called == exec && o.confirmed == confirm && multiset(confirm + exec) == multiset(calls)
      && (forall c | c in confirm :: env.needsConfirm(c.name)) && (forall c | c in exec :: !env.needsConfirm(c.name))
      && ResultsTell(env, exec, o.resulted) && ToolsTell(env, confirm, exec, o.tools)
  {
    hide Observe, Body, ToConfirm, Executable, Spoken, Breaks, ResultsTell, ToolsTell, Results, ResultLog, Skips;
    var calls := Requested(env);
    var confirm, exec := ToConfirm(calls, env.needsConfirm), Executable(calls, env.needsConfirm);
    SplitLosesNothing(calls, env.needsConfirm);
    ResultsDoTell(env, exec);
    ToolsDoTell(env, confirm, exec);
    if env.conversation.NotFound? {
      ObserveOne(Error("Conversation not found."), User(""));
      NoCalls(env);
    } else {
      var ok := Body(env).ok;
      assert Turn(env).ok == ok;
      ObserveBody(env);
      ObserveTurn(env);
      AfterBody(Of(Body(env)), ok, Spoken(env));
    }
  }

  /** The closing of a turn that went well adds the terminal `done`, nothing else. */
  lemma AfterBody(b: Observed, ok: bool, text: string)
    requires Ends(b, ok, text)
    ensures var o := Plus(b, if ok then NOTHING.(terminals := [Done]) else NOTHING);
      && o.terminals == (if ok then [Done] else [Error(UNAVAILABLE)])
      && o.texts == (if ok then [o.shown] else []) && o.shown == text
      && o.rounds == b.rounds && o.called == b.called && o.resulted == b.resulted
      && o.confirmed == b.confirmed && o.tools == b.tools
  {
    PlusNothing(b);
  }

  /** All the calls wait for the user. */
  predicate AllWait(env: Env, calls: seq<ToolCall>) {
    forall c | c in calls :: env.needsConfirm(c.name)
  }

  /** All the calls run, and none with success. */
  predicate AllRunAndFail(env: Env, calls: seq<ToolCall>) {
    forall c | c in calls :: !env.needsConfirm(c.name) && Failed(env.run(c))
  }

  lemma VerdictOfCalls(env: Env, calls: seq<ToolCall>)
    requires calls != []
    ensures var confirm, exec := ToConfirm(calls, env.needsConfirm), Executable(calls, env.needsConfirm);
            && EndsEarly(env, confirm, exec) == (AllWait(env, calls) || AllRunAndFail(env, calls))
            && Verdict(env, confirm, exec)
               == if AllWait(env, calls) then ConfirmationText(calls)
                  else if AllRunAndFail(env, calls) then FailureText(calls, env.run)
                  else Concat(env.summary.chunks)
  {
    hide ToConfirm, Executable, ConfirmationText, FailureText, Failed;
    var confirm, exec := ToConfirm(calls, env.needsConfirm), Executable(calls, env.needsConfirm);
    SplitLosesNothing(calls, env.needsConfirm);
    OnlyOneGroup(calls, env.needsConfirm);
    forall c ensures c in calls <==> c in confirm || c in exec {
      assert c in multiset(calls) <==> c in multiset(confirm + exec);
    }
    assert calls[0] in calls;
    assert exec != [] ==> exec[0] in exec && exec[0] in calls;
    assert confirm != [] ==> confirm[0] in confirm && confirm[0] in calls;
    assert AllWait(env, calls) <==> exec == [];
    assert AllRunAndFail(env, calls) <==> confirm == [] && forall c | c in exec :: Failed(env.run(c));
  }

  lemma {:induction false} OnlyOneGroup(calls: seq<ToolCall>, needsConfirm: string -> bool)
    ensures Executable(calls, needsConfirm) == [] ==> ToConfirm(calls, needsConfirm) == calls
    ensures ToConfirm(calls, needsConfirm) == [] ==> Executable(calls, needsConfirm) == calls
  {
    if calls != [] {
      SplitStep(calls, needsConfirm);
      OnlyOneGroup(calls[1..], needsConfirm);
      assert calls == [calls[0]] + calls[1..];
      hide ToConfirm, Executable;
    }
  }

  /** What the user is shown, and whether the turn ends with `done`, for every way it can go.
      (What is stored of it says `TurnProtocol`.) */
  lemma TurnSpeaks(env: Env)
    requires Plausible(env)
    ensures var o := Of(Turn(env)); var done := o.terminals == [Done];
      && (env.conversation.NotFound? ==>
            Turn(env).events == [Error("Conversation not found.")] && Turn(env).log == [])
      && (!env.conversation.NotFound? && !done ==> o.terminals == [Error("AI service is temporarily unavailable.")])
      && (!env.conversation.NotFound? ==>
            if !env.offersTools then o.shown == Concat(env.direct.chunks) && done == !env.direct.failed
            else if env.maxIterations <= 0 then done && o.shown == EXHAUSTED
            else
              match env.decisions[0]
              case Fails => !done && o.shown == ""
              case Reply(text) => done && o.shown == text
              case Calls(_, calls) =>
                if AllWait(env, calls) then done && o.shown == ConfirmationText(calls)
                else if AllRunAndFail(env, calls) then done && o.shown == FailureText(calls, env.run)
                else o.shown == Concat(env.summary.chunks) && done == !env.summary.failed)
  {
    hide Observe, Body, ToConfirm, Executable, Verdict, EndsEarly, ConfirmationText, FailureText, AllWait, AllRunAndFail;
    if !env.conversation.NotFound? {
      ObserveBody(env);
      ObserveTurn(env);
      AfterBody(Of(Body(env)), Body(env).ok, Spoken(env));
      if env.offersTools && env.maxIterations > 0 && env.decisions[0].Calls? {
        assert env.decisions[0] in env.decisions;
        VerdictOfCalls(env, env.decisions[0].calls);
      }
    } else {
      ObserveOne(Error("Conversation not found."), User(""));
    }
  }

  // ----- What the engine's own texts say -----

  predicate HoldsAt(text: string, part: string, i: nat) {
    i + |part| <= |text| && text[i..i + |part|] == part
  }

  predicate Holds(text: string, part: string) {
    exists i: nat | i <= |text| :: HoldsAt(text, part, i)
  }

  lemma HoldsWithin(before: string, text: string, rest: string, part: string)
    requires Holds(text, part)
    ensures Holds(before + text + rest, part)
  {
    var i: nat :| i <= |text| && HoldsAt(text, part, i);
    assert HoldsAt(before + text + rest, part, |before| + i);
  }

  lemma HoldsItself(text: string)
    ensures Holds(text, text)
  {
    assert HoldsAt(text, text, 0);
  }

  lemma {:induction false} JoinHolds(parts: seq<string>, sep: string, i: nat)
    requires i < |parts|
    ensures Holds(Join(parts, sep), parts[i])
  {
    hide Holds;
    HoldsItself(parts[i]);
    if |parts| > 1 {
      if i == 0 {
        HoldsWithin("", parts[0], sep + Join(parts[1..], sep), parts[0]);
        assert "" + parts[0] + (sep + Join(parts[1..], sep)) == parts[0] + sep + Join(parts[1..], sep);
      } else {
        JoinHolds(parts[1..], sep, i - 1);
        HoldsWithin(parts[0] + sep, Join(parts[1..], sep), "", parts[i]);
        assert parts[0] + sep + Join(parts[1..], sep) + "" == parts[0] + sep + Join(parts[1..], sep);
      }
    }
  }

  /** The request to confirm names every action that waits, in backquotes. */
  lemma ConfirmationNamesAll(calls: seq<ToolCall>, i: nat)
    requires i < |calls|
    ensures Holds(ConfirmationText(calls), "`" + calls[i].name + "`")
  {
    var names := Map((c: ToolCall) => "`" + c.name + "`", calls);
    var name, pending := names[i], Join(names, ", ");
    JoinHolds(names, ", ", i);
    ConfirmationParts(calls, pending, name);
  }

  lemma ConfirmationParts(calls: seq<ToolCall>, pending: string, part: string)
    requires pending == Join(Map((c: ToolCall) => "`" + c.name + "`", calls), ", ") && Holds(pending, part)
    ensures Holds(ConfirmationText(calls), part)
  {
    hide Join, Map, Holds;
    var one, oneEnd := "I can continue, but ", " needs your confirmation before I run it. ";
    var use := "Use the Confirm action or reply with a clear confirmation to proceed.";
    if |calls| == 1 {
      HoldsWithin(one, pending, oneEnd, part);
      HoldsWithin("", one + pending + oneEnd, use, part);
      NothingBefore(one + pending + oneEnd, use);
    } else {
      HoldsWithin("I found actions that need confirmation before I can continue: ", pending,
                  ". Use the Confirm action or tell me which one to run.", part);
    }
  }

  lemma NothingBefore(a: string, b: string)
    ensures "" + a + b == a + b
  {
  }

  /** The report of a failed round gives each of the first four calls its error. */
  lemma FailureTellsEach(calls: seq<ToolCall>, run: ToolCall -> Outcome, i: nat) returns (content: string)
    requires i < |calls| && i < 4
    ensures Tells(run(calls[i]), content)
    ensures Holds(FailureText(calls, run), "- `" + calls[i].name + "`: " + content)
  {
    ContentTells(run, calls[i]);
    hide *;
    content := ResultContent(ResultOf(run, calls[i]));
    var first, last := FailureLines(calls, run);
    ReportHeld(first, if |calls| <= 4 then calls else calls[..4], last, run, i);
  }

  lemma FailureLines(calls: seq<ToolCall>, run: ToolCall -> Outcome) returns (first: seq<string>, last: seq<string>)
    ensures FailureText(calls, run) == Join(first + Reports(if |calls| <= 4 then calls else calls[..4], run) + last, "\n")
  {
    hide Join, ResultContent, ResultOf, Map;
    first := ["I couldn't complete that request because every tool call failed.", ""];
    last := ["", "Retry the request, simplify it, or attach the document/file you want me to use for grounding."];
  }

  function Reports(shown: seq<ToolCall>, run: ToolCall -> Outcome): seq<string> {
    Map((c: ToolCall) => "- `" + c.name + "`: " + ResultContent(ResultOf(run, c)), shown)
  }

  lemma {:induction false} ReportHeld(first: seq<string>, shown: seq<ToolCall>, last: seq<string>, run: ToolCall -> Outcome, i: nat)
    requires i < |shown|
    ensures Holds(Join(first + Reports(shown, run) + last, "\n"),
                  "- `" + shown[i].name + "`: " + ResultContent(ResultOf(run, shown[i])))
  {
    hide Holds, Join, ResultContent, ResultOf;
    var reports := Reports(shown, run);
    assert reports[i] == "- `" + shown[i].name + "`: " + ResultContent(ResultOf(run, shown[i]));
    MiddleLine(first, reports, last, i);
    JoinHolds(first + reports + last, "\n", |first| + i);
  }

  lemma MiddleLine(first: seq<string>, middle: seq<string>, last: seq<string>, i: nat)
    requires i < |middle|
    ensures (first + middle + last)[|first| + i] == middle[i]
  {
  }

  lemma ContentTells(run: ToolCall -> Outcome, c: ToolCall)
    ensures Tells(run(c), ResultContent(ResultOf(run, c)))
  {
  }

  /** Every result comes after every call. */
  predicate CallsFirst(events: seq<Event>) {
    forall i, j | 0 <= i < |events| && 0 <= j < |events| && events[i].ToolCalled? && events[j].ToolResulted? :: i < j
  }

  lemma {:induction false} CallsFirstSplit(a: seq<Event>, b: seq<Event>)
    requires FilterMap(ResultedOf, a) == [] && FilterMap(CalledOf, b) == []
    ensures CallsFirst(a + b)
  {
    FilterMapEmpty(ResultedOf, a);
    FilterMapEmpty(CalledOf, b);
    forall j | 0 <= j < |a| ensures !a[j].ToolResulted? {
      assert ResultedOf(a[j]) == None;
    }
    forall i | 0 <= i < |b| ensures !b[i].ToolCalled? {
      assert CalledOf(b[i]) == None;
    }
  }

  /** In every turn each tool result comes after all the calls, and the stored message
      that holds the calls is followed directly by the tool messages: first one for each call
      that waits, then one for each that ran, in the order of the calls. */
  lemma TurnOrder(env: Env)
    requires Plausible(env)
    ensures CallsFirst(Turn(env).events)
    ensures var log := Turn(env).log; var calls := Requested(env);
      var confirm, exec := ToConfirm(calls, env.needsConfirm), Executable(calls, env.needsConfirm);
      forall k | 0 <= k < |log| && log[k].AssistantCalls? ::
        && log[k].calls == calls && k + |calls| < |log|
        && ToolsTell(env, confirm, exec, log[k + 1..k + 1 + |calls|])
  {
    hide Observe, Body, ToConfirm, Executable, Closing;
    var calls := Requested(env);
    if calls == [] {
      TurnProtocol(env);
      QuietTurnOrder(env);
    } else {
      RoundEventOrder(env);
      RoundLogOrder(env);
    }
  }

  lemma QuietTurnOrder(env: Env)
    requires Plausible(env) && Requested(env) == []
    ensures CallsFirst(Turn(env).events)
    ensures forall m | m in Turn(env).log :: !m.AssistantCalls?
  {
    hide Turn, ToConfirm, Executable;
    TurnProtocol(env);
    NoCalls(env);
    FilterMapEmpty(CalledOf, Turn(env).events);
    FilterMapEmpty(RoundOf, Turn(env).log);
    forall i | 0 <= i < |Turn(env).events| ensures !Turn(env).events[i].ToolCalled? {
      assert CalledOf(Turn(env).events[i]) == None;
    }
    forall m | m in Turn(env).log ensures !m.AssistantCalls? {
      assert RoundOf(m) == None;
    }
  }

  /** The events of a turn with a tool round: up to the last call, and from the first
      result on. */
  function UpToCalls(env: Env, confirm: seq<ToolCall>, exec: seq<ToolCall>): seq<Event>
    requires !env.conversation.NotFound?
  {
    [ConversationId(env.conversation.id), Thinking("Analyzing your request\U{2026}")]
    + Map((c: ToolCall) => ConfirmRequired(c), confirm)
    + (if exec == [] then [] else [Thinking(RunningStatus(exec))])
    + Map((c: ToolCall) => ToolCalled(c), exec)
  }

  function FromResults(env: Env, confirm: seq<ToolCall>, exec: seq<ToolCall>): seq<Event> {
    Map((c: ToolCall) => ResultEvent(env.run, c), exec)
    + (Conclusion(env, confirm, exec).events + (if Conclusion(env, confirm, exec).ok then Closing(env) else []))
  }

  lemma RoundEvents(env: Env)
    requires Plausible(env) && Requested(env) != []
    ensures var calls := Requested(env);
      var confirm, exec := ToConfirm(calls, env.needsConfirm), Executable(calls, env.needsConfirm);
      Turn(env).events == UpToCalls(env, confirm, exec) + FromResults(env, confirm, exec)
  {
    hide Executable, ToConfirm, Closing, Conclusion, SkipMessage, RunningStatus, ResultEvent, ResultMessage, Map;
    var calls := Requested(env);
    var confirm, exec := ToConfirm(calls, env.needsConfirm), Executable(calls, env.needsConfirm);
    var last := Conclusion(env, confirm, exec);
    Regroup([ConversationId(env.conversation.id)], [Thinking("Analyzing your request\U{2026}")],
            Map((c: ToolCall) => ConfirmRequired(c), confirm), if exec == [] then [] else [Thinking(RunningStatus(exec))],
            Map((c: ToolCall) => ToolCalled(c), exec), Map((c: ToolCall) => ResultEvent(env.run, c), exec),
            last.events, if last.ok then Closing(env) else []);
    assert [ConversationId(env.conversation.id)] + [Thinking("Analyzing your request\U{2026}")]
      == [ConversationId(env.conversation.id), Thinking("Analyzing your request\U{2026}")];
  }

  lemma Regroup(a: seq<Event>, b: seq<Event>, c: seq<Event>, d: seq<Event>, e: seq<Event>, f: seq<Event>, g: seq<Event>, h: seq<Event>)
    ensures a + (b + ((([] + c) + ((d + e) + f)) + g)) + h == ((((a + b) + c) + d) + e) + (f + (g + h))
  {
  }

  lemma NoResultsYet(env: Env, confirm: seq<ToolCall>, exec: seq<ToolCall>)
    requires !env.conversation.NotFound?
    ensures FilterMap(ResultedOf, UpToCalls(env, confirm, exec)) == []
  {
    hide RunningStatus;
    FilterMapNone(ResultedOf, UpToCalls(env, confirm, exec));
  }

  lemma NoMoreCalls(env: Env, confirm: seq<ToolCall>, exec: seq<ToolCall>)
    ensures FilterMap(CalledOf, FromResults(env, confirm, exec)) == []
  {
    hide Closing, Conclusion, Observe, FilterMap, ResultOf;
    var resulted := Map((c: ToolCall) => ResultEvent(env.run, c), exec);
    var conclusion := Conclusion(env, confirm, exec);
    var close := if conclusion.ok then Closing(env) else [];
    FilterMapNone(CalledOf, resulted);
    ObserveConclusion(env, confirm, exec);
    ObservedCalled(conclusion.events, conclusion.log);
    ObserveClosing(env);
    ObservedCalled(Closing(env), []);
    FilterMapOne(CalledOf, Done);
    FilterMapConcat(CalledOf, conclusion.events, close);
    FilterMapConcat(CalledOf, resulted, conclusion.events + close);
  }

  lemma RoundEventOrder(env: Env)
    requires Plausible(env) && Requested(env) != []
    ensures CallsFirst(Turn(env).events)
  {
    hide Turn, ToConfirm, Executable, UpToCalls, FromResults, FilterMap, CallsFirst;
    var calls := Requested(env);
    var confirm, exec := ToConfirm(calls, env.needsConfirm), Executable(calls, env.needsConfirm);
    RoundEvents(env);
    NoResultsYet(env, confirm, exec);
    NoMoreCalls(env, confirm, exec);
    CallsFirstSplit(UpToCalls(env, confirm, exec), FromResults(env, confirm, exec));
  }

  lemma {:induction false} ObservedCalled(events: seq<Event>, log: seq<Message>)
    ensures FilterMap(CalledOf, events) == Observe(events, log).called
    ensures FilterMap(RoundOf, log) == Observe(events, log).rounds
  {
  }

  lemma RoundLogOrder(env: Env)
    requires Plausible(env) && Requested(env) != []
    ensures var log := Turn(env).log; var calls := Requested(env);
      var confirm, exec := ToConfirm(calls, env.needsConfirm), Executable(calls, env.needsConfirm);
      forall k | 0 <= k < |log| && log[k].AssistantCalls? ::
        && log[k].calls == calls && k + |calls| < |log|
        && ToolsTell(env, confirm, exec, log[k + 1..k + 1 + |calls|])
  {
    var d := env.decisions[0];
    var calls := d.calls;
    assert Requested(env) == calls;
    hide *;
    var confirm, exec := ToConfirm(calls, env.needsConfirm), Executable(calls, env.needsConfirm);
    var tools := Skips(confirm) + ResultLog(exec, env.run);
    var rest := Conclusion(env, confirm, exec).log;
    RoundLog(env);
    ConclusionHasNoCalls(env, confirm, exec);
    ToolsDoTell(env, confirm, exec);
    ToolsAreTools(confirm, exec, env.run);
    SplitLength(calls, env.needsConfirm);
    OneRound(User(env.message), AssistantCalls(d.content, calls), tools, rest);
    assert Turn(env).log == [User(env.message), AssistantCalls(d.content, calls)] + tools + rest;
  }

  lemma ConclusionHasNoCalls(env: Env, confirm: seq<ToolCall>, exec: seq<ToolCall>)
    ensures forall j | 0 <= j < |Conclusion(env, confirm, exec).log| :: !Conclusion(env, confirm, exec).log[j].AssistantCalls?
  {
    hide Conclusion, FilterMap, Verdict, EndsEarly;
    var p := Conclusion(env, confirm, exec);
    ObserveConclusion(env, confirm, exec);
    ObservedCalled(p.events, p.log);
    FilterMapEmpty(RoundOf, p.log);
    forall j | 0 <= j < |p.log| ensures !p.log[j].AssistantCalls? {
      assert RoundOf(p.log[j]) == None;
    }
  }

  lemma OneRound(user: Message, round: Message, tools: seq<Message>, rest: seq<Message>)
    requires user.User? && round.AssistantCalls?
    requires forall j | 0 <= j < |tools| :: tools[j].Tool?
    requires forall j | 0 <= j < |rest| :: !rest[j].AssistantCalls?
    ensures var log := [user, round] + tools + rest;
            && log[1] == round && 1 + |tools| < |log| && log[2..2 + |tools|] == tools
            && forall k | 0 <= k < |log| && log[k].AssistantCalls? :: k == 1
  {
  }

  lemma RoundLog(env: Env)
    requires Plausible(env) && Requested(env) != []
    ensures var d := env.decisions[0];
      var confirm, exec := ToConfirm(d.calls, env.needsConfirm), Executable(d.calls, env.needsConfirm);
      Turn(env).log == [User(env.message), AssistantCalls(d.content, d.calls)]
        + (Skips(confirm) + ResultLog(exec, env.run)) + Conclusion(env, confirm, exec).log
  {
    hide Executable, ToConfirm, Closing, Conclusion, SkipMessage, ResultEvent, ResultMessage, RunningStatus;
  }

  lemma SplitLength(calls: seq<ToolCall>, needsConfirm: string -> bool)
    ensures |ToConfirm(calls, needsConfirm)| + |Executable(calls, needsConfirm)| == |calls|
  {
    hide ToConfirm, Executable;
    var confirm, exec := ToConfirm(calls, needsConfirm), Executable(calls, needsConfirm);
    SplitLosesNothing(calls, needsConfirm);
    assert |multiset(confirm + exec)| == |multiset(calls)|;
  }

  lemma ToolsAreTools(confirm: seq<ToolCall>, exec: seq<ToolCall>, run: ToolCall -> Outcome)
    ensures |Skips(confirm) + ResultLog(exec, run)| == |confirm| + |exec|
    ensures forall i | 0 <= i < |confirm| + |exec| :: (Skips(confirm) + ResultLog(exec, run))[i].Tool?
  {
  }
}
