# Document portal: a verified model

The portal serves documents for reading, collaborative editing and questions to an
assistant. This project models the parts of it that carry state, protocols or parsing, in
Dafny 4.11, and proves what they are for. `dafny verify dfyconfig.toml` checks all of it.

One file per component:

| file | component |
|---|---|
| `DocumentCache`, `CacheCoherence`, `InvalidationMessage` | the collaboration server's document cache; several servers over one backend, with every interleaving and failure of saves, loads and invalidations; the signed invalidation message |
| `YjsHtml` | printing a Yjs tree to HTML, with a decoder |
| `DocumentAuthStore` | tokens of the connections to each document |
| `SseClient` | the command-line client's event-stream parser, against the server's encoder |
| `HeadingIds`, `Titles`, `ContentsLine`, `ContentsLinking`, `DocxStructure` | headings, when their titles match, contents lines and their links in DOCX files, alone and as one pipeline |
| `DocumentToc` | contents lists from PDF outlines and headings |
| `HtmlGenerator` | the renderer from document trees to HTML |
| `AssistantTurn`, `ContextWindow`, `ToolRouting` | a turn of the assistant, trimming of messages and history, choice of tools |
| `CollaborationSessions` | collaboration sessions and the activity feed |
| `RefreshTokens`, `LoginSessions` | refresh-token records and their indexed lookup; login sessions, their limit, and the rotation of tokens |
| `DiffScanner`, `DatabaseSplit`, `PlatformMigration` | the debt scanner over diffs, the database splitter, the platform migration |
| `Text`, `Decimal`, `Sequences`, `OrderedMap`, `StableSort`, `Options` | Python strings, numerals, filtering, JavaScript's `Map`, the stable sort, options |

Code that changes things step by step is a class or a method with loops, proved against a
function; what the component promises is then proved about that function, usually over every
run (a sequence of calls) from the start.

## Where the code differs from what it says

Each of these is a lemma in the table below. Except for the caches, where a sufficient condition
is proved and every way it can fail is shown by a run, the condition is exact: the code does what
it says if and only if it holds.

- Event stream (`SseClient.StreamRoundTrip`): the server writes text tokens raw and the client
  reads every payload as JSON when it can, so a token with a line break or a trailing space, and
  one that happens to be JSON (`BareNumberChanges`), reaches the command-line client changed;
  keep-alive comments reach it as empty messages.
- Heading ids (`HeadingIds.DistinctIffNoClash`): "stable" ids of different headings can be equal.
- Contents lines (`ContentsLine.ParsePrint`): a title on its own that holds dots in a row is cut.
- Tool choice (`ToolRouting.KeywordHitsSurvive`): keyword matches do not always survive the cap,
  as the comment at backend/app/assistant/engine.py:495 says; they do when they fit in it, and a
  message as plain as "Review my document" has more (`ReviewOfADocumentLosesAHit`).
- History (`ContextWindow.HistoryIsRecentIff`, `NewestIsForgotten`, `HistoryBudget`): the 100
  oldest messages are fetched, so of a longer conversation the newest are never in the history;
  and the summary form ignores `max_tokens`.
- Caches (`CacheCoherence`): the publishing server drops its own entry too, not only "all other
  instances"; and five kinds of trouble, one witness each, leave stale entries behind until the
  next save of the document is published (`PublishHeals`). A save is given up after ten seconds
  (`SaveTimeout`), and when the backend takes it later even that undoes the healing
  (`LateCommitEndsStale`).
- Refresh tokens (`LoginSessions.LoginTokenIsFound`): a random identifier that happens to begin
  with `pr_` or `ev_` makes a token that can never be exchanged.
- Session ids (`CollaborationSessions.ConsistentIffFresh`): nothing keeps the eight random digits
  from repeating; the counts then no longer match.
- Activity feed (`CollaborationSessions.PagesWhileLogging`, `ReadingEndsIff`): activities that
  come in between two pages make entries show up again, and with a page size of zero there is
  always more.
- Diff scanner (`DiffScanner.SectionInStepIffSteady`, `SectionIsExactIffReadable`): files with a
  space in their name are never scanned, added lines that begin with `++` are misread, and
  `str.splitlines` also breaks at form feeds and other characters that `git` does not take for
  line ends, which shifts line numbers (`FormFeedShifts`) or reports what was not added
  (`RemovedIsReported`).
- Database split (`DatabaseSplit.SplitLosesNothingIffSafe`, `SkippedRowIsLost`): rows can be lost
  by a clean-up, and the verification after it cannot notice.
- Platform migration (`PlatformMigration.SucceedsIffSlugsFree`): names such as "a b" and "a/b"
  make it fail.
- Renderer (`HtmlGenerator.RenderConservesText`): the contents of lists, tables, rows, slides and
  notes, and everything below headings, paragraphs and images, is not rendered.

## Assumptions

- Every request on a database is one transaction; a query without an order returns rows in the
  order they were added. Clocks, random strings, the answers of networks, models, tools and
  permission checks are parameters, so the results hold for all of them.
- Lower-casing, digits and word characters are ASCII.
- `json.loads` and `json.dumps` are parameters of which the results need: a dictionary is written
  on one line and reads as some dictionary; a decimal numeral is that number; the empty text does
  not parse; a JSON string is longer than the text in it. That can be met, with any dictionaries
  reading back as they were (`SseClient.JsonLikeIsPossible`). A float is the text `repr` gives.
- Identifiers and suffixes that come from a random generator do not repeat: a precondition of
  the results that need it (`FreshSuffixes`, `FreshLogins`).
- The password hash is a function `digest`, which for bcrypt reads the first 72 bytes: what has the
  hash of a token that was handed out agrees with it in its first 72 characters (`TellsApart`);
  the lookup results need only that tokens with equal hashes begin alike. Both can be met
  (`LoginSessions.CuttingIsAHash`). No two tokens handed out agree in those characters
  (`AllDifferent`). Session identifiers are compared as if their keyed hashes were injective.
- A request that a server has given up may still be taken by the backend, once; one that has failed
  or whose answer was lost (`SaveFail`) will not be any more.
- Rows of a source table satisfy the uniqueness constraints of the target among themselves.
- Similarities are computed over exact reals; a norm is any non-negative root.
- Decoding a token yields the document it claims, or nothing (RFC 7519 is not modelled).
- `git` prints a tab after a file name that holds a space, and quotes names with other unusual
  characters; the diff results are about names it does not quote.
- A tool that is run on its own does not raise (the registry turns its errors into results), and
  a model's request for tools names at least one.

## Model

| member | source | states |
|---|---|---|
| `DocumentCache.CacheSet` | collab-server/src/persistence.ts:160-173 | Writing an entry keeps the cache well formed and within 200 entries |
| `DocumentCache.Instance.SetEntry` | collab-server/src/persistence.ts:160-173 | The eviction loop computes exactly that write: the entry becomes the newest and the oldest beyond the limit go |
| `DocumentCache.Instance.OnInvalidation` | collab-server/src/persistence.ts:118-129 | An accepted invalidation drops the named entry and nothing else; a rejected one changes nothing |
| `DocumentCache.Instance.LoadDocument` | collab-server/src/persistence.ts:186-225 | A foreign token reads nothing, a cached state is returned unchanged, a non-empty backend answer is cached and returned, an empty answer or a failure is neither |
| `DocumentCache.Instance.SaveDocument` | collab-server/src/persistence.ts:230-269 | A foreign token changes nothing; otherwise the cache holds the new state whether or not the backend took it, and only an accepted save is published |
| `DocumentCache.Instance.ClearDocumentCache` | collab-server/src/persistence.ts:322-325 | Drops the entry |
| `DocumentCache.CacheHoldsTheNewest` | collab-server/src/persistence.ts:160-173 | After any sequence of writes a document is cached exactly when it was written and fewer than 200 other documents were written since; it holds its latest state, and entries stand in order of last write |
| `DocumentCache.CacheIsBoundedSubmap` | collab-server/src/persistence.ts:23-24 | With deletions too, the cache has at most 200 entries and only entries the unbounded map would hold |
| `CacheCoherence.Apply` | collab-server/src/persistence.ts:105-269 | Every step of saves, loads, invalidations and failures, in any interleaving, keeps the world well formed and every cache bounded |
| `CacheCoherence.StepKeepsExplained` | collab-server/src/persistence.ts:105-269 | Each of the thirteen steps, a save given up after its time limit (collab-server/src/adapters/backendDocumentStateTransportAdapter.ts:31,58-70) and its late commit among them, keeps: a stale entry is due for an invalidation, or belongs to a save in flight at its instance, or its invalidation was lost; and every load in flight read a current, due or crossed state |
| `CacheCoherence.EveryRunIsExplained` | collab-server/src/persistence.ts:105-269 | That holds after every run from empty caches, for any number of instances; at rest every stale entry is one whose trouble is recorded |
| `CacheCoherence.QuietRunsAreCoherent` | collab-server/src/persistence.ts:26-28 | A run without failed or given-up saves, rejected invalidations and crossed loads that has come to rest has every cached state equal to the backend |
| `CacheCoherence.Drain` | collab-server/src/persistence.ts:118-129 | From any state without saves in flight, delivering what is pending reaches rest, and evicts each document with a pending invalidation |
| `CacheCoherence.SaveHeals` | collab-server/src/persistence.ts:230-269 | From any state without saves in flight there is a schedule that heals a document: one accepted save and the delivery of what is pending leave no instance caching it (the saving one included) and no trouble with it |
| `CacheCoherence.PublishHeals` | collab-server/src/persistence.ts:105-129 | In every run that publishes a save of a document and goes on without new trouble with that document, no instance holds a stale state of it once its saves and invalidations are through, whatever went wrong before and whatever happens to other documents |
| `CacheCoherence.FailedSaveEndsStale` | collab-server/src/persistence.ts:244-258 | A failed save alone can leave a stale entry at rest |
| `CacheCoherence.CrossedLoadEndsStale` | collab-server/src/persistence.ts:206-211 | An invalidation delivered between a load's backend read and its cache write can leave a stale entry at rest |
| `CacheCoherence.LostResponseEndsStale` | collab-server/src/persistence.ts:247-258 | A save the backend took but whose answer was lost is never published and can leave other instances stale |
| `CacheCoherence.RejectedInvalidationEndsStale` | collab-server/src/persistence.ts:118-123 | A rejected invalidation can leave a stale entry at rest |
| `CacheCoherence.LateCommitEndsStale` | collab-server/src/adapters/backendDocumentStateTransportAdapter.ts:58-70 | A save given up at its time limit and taken by the backend after a newer one was published, delivered and loaded again leaves a stale entry at rest |
| `InvalidationMessage.DecodeEncode` | collab-server/src/persistence.ts:57-103 | A published message is accepted, as its document, exactly while it is at most five minutes off; one for the empty id never |
| `InvalidationMessage.DecodeIff` | collab-server/src/persistence.ts:57-103 | Of all payloads, malformed ones included, exactly those are accepted that name a document and a time at most five minutes away and whose signature reads as the keyed hash of the two |
| `InvalidationMessage.HexRoundTrip` | collab-server/src/persistence.ts:90-91 | Reading the printed signature gives the same bytes back |
| `InvalidationMessage.SignedTextInjective` | collab-server/src/persistence.ts:49-55 | The signed text determines document and time, even when ids hold colons |
| `InvalidationMessage.SignatureIsForOneMessage` | collab-server/src/persistence.ts:85-99 | For every keyed hash, the signature of one message is accepted while fresh for its own document and time, and for another exactly when their texts collide |
| `YjsHtml.EscapeIsCharacterwise` | collab-server/src/persistence.ts:310-317 | The five replacements in sequence equal one map on characters |
| `YjsHtml.XmlFragmentToHtml` | collab-server/src/persistence.ts:283-305 | The appending loop prints the fragment |
| `YjsHtml.AttrString` | collab-server/src/persistence.ts:293-296 | The attribute loop prints the attributes in order |
| `YjsHtml.FragmentRoundTrip` | collab-server/src/persistence.ts:283-317 | Parsing the printed form of a fragment with valid names and no empty or adjacent text nodes gives the fragment and what follows it |
| `YjsHtml.DecodePrinted` | collab-server/src/persistence.ts:283-317 | Every fragment with valid names is read back in its tidied form, so exactly the tidy ones unchanged |
| `YjsHtml.SameHtmlIffSameTidied` | collab-server/src/persistence.ts:283-317 | Two fragments print the same HTML exactly when they tidy to the same one |
| `DocumentAuthStore.Module.RegisterConnection` | collab-server/src/documentAuthStore.ts:73-91 | A token that names another document is refused and nothing changes; otherwise the connection has that token and is a writer exactly if it is write-capable |
| `DocumentAuthStore.Module.UnregisterConnection` | collab-server/src/documentAuthStore.ts:93-107 | The connection is gone, the document with its last one, and the number left is returned |
| `DocumentAuthStore.Module.TokenForLoad` | collab-server/src/documentAuthStore.ts:109-116 | The first writer's token, else the first token; reading touches the document |
| `DocumentAuthStore.Module.TokenForStore` | collab-server/src/documentAuthStore.ts:118-125 | The first writer's token only; reading touches the document |
| `DocumentAuthStore.Module.SweepStaleEntries` | collab-server/src/documentAuthStore.ts:23-30 | Deletes exactly the entries untouched for more than an hour |
| `DocumentAuthStore.Module.ClearDocumentAuth` | collab-server/src/documentAuthStore.ts:127-129 | Forgets the document |
| `DocumentAuthStore.RunIsExplained` | collab-server/src/documentAuthStore.ts:23-129 | In every reachable state a tracked document has a connection, its connections and tokens are exactly the registrations that still stand, its writers exactly the write-capable ones, tokens name their document, and the last access is the last touch; an untracked one has no standing registration |
| `DocumentAuthStore.StoreTokenIsAWriters` | collab-server/src/documentAuthStore.ts:118-125 | A store token is returned exactly when some standing registration is write-capable, and it is the token of one |
| `DocumentAuthStore.LoadTokenPrefersWriters` | collab-server/src/documentAuthStore.ts:109-116 | A load token is returned exactly when some connection stands, prefers writers, and names the document |
| `DocumentAuthStore.StoreTokenIsStable` | collab-server/src/documentAuthStore.ts:58-66 | No registering or leaving of another connection, no read and no call for another document changes the store token |
| `DocumentAuthStore.LoadTokenIsTheEldests` | collab-server/src/documentAuthStore.ts:109-116 | Without a writer the load token is that of the connection that has stood the longest, and no registering or leaving of another connection changes it |
| `DocumentAuthStore.SweepForgetsTheStale` | collab-server/src/documentAuthStore.ts:23-30 | A sweep forgets exactly the documents whose last touch is more than the TTL ago and changes no other |
| `SseClient.ParseSseBlock` | cli/assistant_cli/client.py:62-80 | The line loop reads a block: the last `event: ` line names it, `message` without one, a blank name drops it, and the last `data: ` line is its payload, as the JSON value it parses to or else as text |
| `SseClient.ChatStream` | cli/assistant_cli/client.py:52-59 | For every way of cutting the text, the buffer loop reports the events of the leftmost blocks of the whole text, in order, and keeps the rest |
| `SseClient.BlockSplitUnique` | cli/assistant_cli/client.py:55-56 | Only one list of blocks and rest is the leftmost cut of a text, and glued together it is the text |
| `SseClient.ChunkingIrrelevant` | cli/assistant_cli/client.py:53-59 | Two ways of cutting the same text give the same events and the same rest |
| `SseClient.ParseSentBlock` | cli/assistant_cli/client.py:62-80 | A block as the server writes it, with data on one line, parses to its event with what the payload, less trailing white space, decodes to |
| `SseClient.StreamRoundTrip` | cli/assistant_cli/client.py:52-80 | For every sequence of dictionaries, texts, ids and keep-alives the server writes (backend/app/api/management/assistant.py:145-151) and every cut, the client reports exactly those events if and only if every text is on one line, without trailing white space and not JSON, and every dictionary reads back as it was written; keep-alives come back as empty messages |
| `SseClient.BareNumberChanges` | cli/assistant_cli/client.py:74-78 | A clean text that is a decimal numeral arrives as the number |
| `SseClient.BrokenTextIsLost` | cli/assistant_cli/client.py:52-80 | A text with a line break is lost whatever surrounds it: what arrives holds less text than was sent |
| `SseClient.JsonLikeIsPossible` | cli/assistant_cli/client.py:74-78 | What the three results before ask of reading and writing JSON can be met, for any dictionaries a stream may hold, with each of them surviving |
| `HeadingIds.BaseIsWords` | backend/app/conversion/docx_structure.py:202-203 | The slug is the title's words in lower case joined by dashes |
| `HeadingIds.WordsAreRuns` | backend/app/conversion/docx_structure.py:124 | The words of a text are its maximal runs of ASCII letters and digits, all of them and in order, in lower case |
| `HeadingIds.WordsEqualIffSame` | backend/app/conversion/docx_structure.py:120-124 | Two texts have the same words exactly when their runs agree one by one but for case, whatever stands between them |
| `HeadingIds.StableId` | backend/app/conversion/docx_structure.py:202-206 | The counter of the base goes up by one, the id carries it from the second time on, no other counter moves |
| `HeadingIds.DistinctIffNoClash` | backend/app/conversion/docx_structure.py:164-206 | Ids are pairwise distinct exactly when no base equals another base followed by a dash and a number it reaches |
| `HeadingIds.CollidingTitles` | backend/app/conversion/docx_structure.py:202-206 | The headings "Notes", "Notes", "Notes 2" do collide |
| `Titles.IsNumberIff` | backend/app/conversion/docx_structure.py:46 | The pattern of a section number matches exactly digits with single dots between them |
| `Titles.NormalizedIsWords` | backend/app/conversion/docx_structure.py:120-124 | Normalizing gives the words, with single blanks, of what is left of a text without a leading section number and the white space that must follow it |
| `Titles.TitlesMatchIff` | backend/app/conversion/docx_structure.py:120-124 | Two titles match if and only if, once leaders and a leading section number are passed over, their runs of letters and digits agree but for case; stated on the characters of both |
| `ContentsLine.ParsePrint` | backend/app/conversion/docx_structure.py:127-152 | Parsing the tab-joined line of number, title and page gives the triple back exactly when the title cannot be taken for a number or a page and, standing alone, has no dotted leader |
| `ContentsLine.ParseDotted` | backend/app/conversion/docx_structure.py:127-152 | The same for a line with any dotted leader before its page |
| `ContentsLine.LeadersAreLost` | backend/app/conversion/docx_structure.py:133-135 | A title alone with dots in a row does not survive |
| `ContentsLinking.Link` | backend/app/conversion/docx_structure.py:209-241 | The walk with per-title lists and counters gives each entry the first heading after its title's latest one, of the same level if there is one |
| `ContentsLinking.LinksAreInjective` | backend/app/conversion/docx_structure.py:209-241 | On any input links keep titles, no heading is taken twice, and entries of one title go to later and later headings |
| `ContentsLinking.LinksTakeFirstFree` | backend/app/conversion/docx_structure.py:221-235 | Each entry takes the first heading of its title behind all that earlier entries of the title are linked to, of its level if there is one, and none exactly when there is none |
| `ContentsLinking.ExactRecovery` | backend/app/conversion/docx_structure.py:209-241 | A contents page that lists exactly the headings down to a level, in order, is linked entry by entry to its own headings, for every level and every repetition of titles |
| `DocxStructure.ReadParagraphs` | backend/app/conversion/docx_structure.py:155-199 | The paragraph loop reads the contents lines, the headings with their ids, and the contents paragraphs |
| `DocxStructure.StyleLevelIff` | backend/app/conversion/docx_structure.py:42-44 | A style gives a level exactly when, whatever the case and the white space around it, it is the word, white space and one digit from 1 to 9 |
| `DocxStructure.ReadsTheStyled` | backend/app/conversion/docx_structure.py:166-196 | The headings read are the stripped texts of all paragraphs in a heading style that are not blank, the contents lines the parsed paragraphs in a contents style that have a title, and the contents paragraphs all that are not blank in such a style, in order |
| `DocxStructure.LinkTocToNodes` | backend/app/conversion/docx_structure.py:209-241 | Of the entries and headings returned: each entry points at the id of the first free heading with the same title (runs of letters and digits but for case, leaders and number passed over), of its level if there is one, and at none exactly when none is free; headings without a number take the entry's; all else is unchanged |
| `DocxStructure.ExtractDocxStructure` | backend/app/conversion/docx_structure.py:155-199 | The structure is what was read, with such links between the titles and texts it returns |
| `DocxStructure.GeneratedContentsRecovered` | backend/app/conversion/docx_structure.py:155-241 | End to end: a generated contents page comes back with every number, title and page, each entry pointing at its own heading and giving it its number |
| `DocxStructure.LinksNameOneHeading` | backend/app/conversion/docx_structure.py:202-206 | Without an id clash an entry's id names one heading |
| `DocumentToc.MakeItem` | backend/app/conversion/document_toc.py:34-54 | The id counts the position, the title is trimmed behind its number, the level is at least one, a missing page becomes the position, a blank anchor none |
| `DocumentToc.NamesIff` | backend/app/conversion/document_toc.py:134-149 | An entry names a heading exactly when that is at most a page away and its words, a leading number left out, are some and stand in the words of the entry |
| `DocumentToc.AnchorFor` | backend/app/conversion/document_toc.py:134-149 | The anchor is the id of the first heading within a page of the entry whose normalized title matches or is contained |
| `DocumentToc.AnchorIs` | backend/app/conversion/document_toc.py:143-149 | The anchor is the id of the first heading that the entry names, none when it has no id or there is none |
| `DocumentToc.FindAnchor` | backend/app/conversion/document_toc.py:134-149 | The search loop finds that anchor |
| `DocumentToc.BuildTocFromLayout` | backend/app/conversion/document_toc.py:82-131 | The builder is: collect, sort, renumber |
| `DocumentToc.CollectedFrom` | backend/app/conversion/document_toc.py:92-126 | What is collected is one item for each outline entry with a title and then one for each heading with a title on a page that no such entry is on, in order, with their titles, levels, pages, numbers and anchors |
| `DocumentToc.TocFacts` | backend/app/conversion/document_toc.py:82-131 | The list holds each titled outline entry and each titled heading on an unclaimed page exactly once, stably sorted by page then level, with ids counting up and pages and levels at least one |
| `DocumentToc.BuildTocFromDocxStructure` | backend/app/conversion/document_toc.py:57-79 | One item for each entry with a title, in order, with its number before its title, its level, its declared page or else its position, and its link |
| `HtmlGenerator.RenderIsBalanced` | backend/app/conversion/html_generator.py:11-226 | Every tree whose raw contents are balanced renders to properly nested tags |
| `HtmlGenerator.TableRowsOnceAndInOrder` | backend/app/conversion/html_generator.py:105-128 | The tokens of a table: the wrapper and the table opened, the columns, one `thead` with the rendered header rows (section "thead" in any case) in order, one `tbody` with all other rows in order, and nothing else |
| `HtmlGenerator.RendersAsDescribed` | backend/app/conversion/html_generator.py:11-226 | Every kind of node, as tokens: the tag (`ol` exactly when `ordered` is set, `th` exactly when `header` is, `h` and the level brought between 1 and 6, `img` with its `src` and `alt` or a placeholder exactly when missing or without source, and so on), its classes and attributes, and its contents and children in order, read off the dictionaries |
| `HtmlGenerator.AttrsAre` | backend/app/conversion/html_generator.py:229-276 | Attributes are the classes, trimmed and without blanks, then every plain entry that is not reserved, each once and in order, `true` as a bare name |
| `HtmlGenerator.IntOfPrinted` | backend/app/conversion/html_generator.py:61 | Reading a level or size printed in decimal gives it back, below zero too |
| `HtmlGenerator.IntOfFloat` | backend/app/conversion/html_generator.py:61 | A float is taken toward zero |
| `HtmlGenerator.RenderConservesText` | backend/app/conversion/html_generator.py:11-226 | For every text: its occurrences in the markup and in dropped contents are together those in the tree and those the renderer supplies (badges, summaries, captions, placeholders) |
| `AssistantTurn.ChunksConcat` | backend/app/assistant/engine.py:247-248 | The chunks of a text, put together, are the text; all but the last have 40 characters |
| `AssistantTurn.SeparateCalls` | backend/app/assistant/engine.py:840-848 | The loop splits the calls into those to confirm and those to run |
| `AssistantTurn.SplitLosesNothing` | backend/app/assistant/engine.py:840-848 | Every call is in exactly one of the two groups, decided by whether its tool needs confirmation |
| `AssistantTurn.SplitKeepsOrder` | backend/app/assistant/engine.py:840-848 | Both groups keep the order of the calls |
| `AssistantTurn.RunParallel` | backend/app/assistant/engine.py:871-929 | Several tools: all calls announced, then the results in call order |
| `AssistantTurn.RunToolRound` | backend/app/assistant/engine.py:823-1056 | A round of calls streams and stores what the specification of a round says |
| `AssistantTurn.Chat` | backend/app/assistant/engine.py:530-1086 | The whole turn streams and stores what the specification of a turn says, for every behaviour of model, tools and permissions |
| `AssistantTurn.TurnProtocol` | backend/app/assistant/engine.py:740-1080 | Exactly one terminal event; at most one round; the calls announced are those that need no confirmation, each with one result and one stored message that carry what the tool returned, those to confirm are those that need it, with one stored message each; a turn that is done stores exactly the text shown |
| `AssistantTurn.TurnSpeaks` | backend/app/assistant/engine.py:740-1060 | What the user is shown, in every case: the model's reply as it is; the streamed text, directly or after a round; the request to confirm exactly when all calls need it; the report of failures exactly when none needs it and every call failed; and the turn ends in an error exactly when the conversation is missing, the decision fails or the stream that is used fails |
| `AssistantTurn.ConfirmationNamesAll` | backend/app/assistant/engine.py:255-265 | The request to confirm names every action that waits |
| `AssistantTurn.FailureTellsEach` | backend/app/assistant/engine.py:268-281 | The report of failures gives each of the first four calls its error |
| `AssistantTurn.TurnCloses` | backend/app/assistant/engine.py:561-1080 | A turn that is done stores the user's message first, begins with the conversation id, and ends with the suggestions if there are any, `done`, and the title of a new conversation if there is one |
| `AssistantTurn.TurnOrder` | backend/app/assistant/engine.py:823-969 | Each result comes after all calls, and the stored calls are followed directly by one tool message per call, first those that wait, then those that ran with what they returned |
| `ContextWindow.KeepMiddle` | backend/app/assistant/engine.py:333-341 | The backward loop keeps, in order, the greedy choice from the end |
| `ContextWindow.FitMessages` | backend/app/assistant/engine.py:310-351 | Trimming computes the fitted list |
| `ContextWindow.FittedIsMaximal` | backend/app/assistant/engine.py:310-351 | The result is a subsequence with first and last message, totals at most the larger of the budget and those two, and no dropped message could be added back |
| `ContextWindow.NewestComeFirst` | backend/app/assistant/engine.py:333-341 | A message is dropped only when it does not fit beside the first one and all kept behind it; tokens are the least number of four characters each, the budget is the window less 256 and at least 512 |
| `ContextWindow.FittingTwice` | backend/app/assistant/engine.py:310-351 | Trimming is idempotent |
| `ContextWindow.BuildMessageHistory` | backend/app/assistant/conversation.py:143-217 | Of the oldest 100 stored messages: with a summary and more than ten of them the summary and the last six, otherwise the longest recent run within four characters a token, or all of them without a budget |
| `ContextWindow.NewestIsForgotten` | backend/app/assistant/conversation.py:143-165 | No message stored after the hundredth is ever in the history |
| `ContextWindow.HistoryIsRecentIff` | backend/app/assistant/conversation.py:143-217 | The history is the promised one of the stored conversation if and only if that has at most 100 messages, or nothing is kept either way because under a budget both the hundredth and the newest message exceed it alone |
| `ContextWindow.HistoryBudget` | backend/app/assistant/conversation.py:143-217 | The history is within the budget exactly when it is not a summary that overflows it with the last six fetched |
| `ToolRouting.CauchySchwarz` | backend/app/assistant/tool_router.py:17-24 | The dot product over the common length is bounded by the norms, also for vectors of different length |
| `ToolRouting.CosineBounded` | backend/app/assistant/tool_router.py:17-24 | The similarity lies between -1 and 1 |
| `ToolRouting.CosineSelf` | backend/app/assistant/tool_router.py:17-24 | A vector that is not zero has similarity 1 to itself |
| `ToolRouting.DotIsSum` | backend/app/assistant/tool_router.py:17-24 | The dot product grows by the product of each further pair, and what one vector is longer does not count |
| `ToolRouting.EmbeddingRoute` | backend/app/assistant/tool_router.py:71-80 | Scoring, sorting and cutting compute the route |
| `ToolRouting.RouteSelectsTheBest` | backend/app/assistant/tool_router.py:71-80 | At most top_k tools, all at or above the threshold, and none left out at or above it scores higher than a selected one |
| `ToolRouting.MergeCapped` | backend/app/assistant/engine.py:484-508 | The capped merge loop computes the allowed names |
| `ToolRouting.MergeOrder` | backend/app/assistant/engine.py:484-508 | The merge holds all names when they fit and otherwise exactly as many as the cap: keyword hits first, in their order, then the tools that always belong, then embedding hits |
| `ToolRouting.KeywordHitsSurvive` | backend/app/assistant/engine.py:494-508 | The merge never exceeds the cap, and all keyword hits survive exactly when there are at most that many of them |
| `ToolRouting.ReviewOfADocumentLosesAHit` | backend/app/assistant/engine.py:356-398 | Every message that speaks of a document and a review has at least 25 keyword hits when the tools are on offer (groups at backend/app/assistant/engine.py:35-137), so one of them is cut by the cap of 22 |
| `ToolRouting.SpeaksOfBoth` | backend/app/assistant/engine.py:356-398 | "Review my document" is such a message |
| `ToolRouting.OfferIsBounded` | backend/app/assistant/engine.py:509-510 | Between one tool and the cap is offered |
| `ToolRouting.OfferedInOrder` | backend/app/assistant/engine.py:510-511 | Offered are exactly the tools that are allowed, in their order, or all of them when none is |
| `CollaborationSessions.SessionManager.StartCollaborationSession` | backend/app/collaboration/session_manager.py:31-70 | A row and a joining are added, as spelled out, exactly when the document is readable; a missing document and a denied permission change nothing, each with its error |
| `CollaborationSessions.SessionManager.EndCollaborationSession` | backend/app/collaboration/session_manager.py:72-109 | The first active row of the user with that id is closed with the count, and a leaving with the whole seconds is added; without one nothing changes and an error says so |
| `CollaborationSessions.SessionManager.LogActivity` | backend/app/collaboration/session_manager.py:146-192 | The activity is added exactly when its type is one of the eleven, the document is readable and the session, when given, is an active one of this user on this document; "content_edited" alone counts an edit; otherwise nothing changes, with the error of each case |
| `CollaborationSessions.SessionIdInjective` | backend/app/collaboration/session_manager.py:37 | A session id determines user, document and suffix |
| `CollaborationSessions.StepKeepsConsistent` | backend/app/collaboration/session_manager.py:31-192 | Every request keeps: an active row counts exactly its edits, an ended row's last activity is its end with its count and duration, every activity of an id agrees in user and document |
| `CollaborationSessions.RunIsConsistent` | backend/app/collaboration/session_manager.py:31-192 | So after every run in which no start repeats a suffix |
| `CollaborationSessions.EndedIsFinal` | backend/app/collaboration/session_manager.py:87-109 | Once a session has ended, its row and the activities with its id never change again |
| `CollaborationSessions.ConsistentIffFresh` | backend/app/collaboration/session_manager.py:37-47 | A request keeps the tables consistent exactly when a start's id is new; a repeated id shows no edits whatever its activities hold |
| `CollaborationSessions.PagesCoverTheFeed` | backend/app/collaboration/session_manager.py:194-242 | After any run of requests, following has_more from the start shows exactly the document's activities, each once, the last first, for every page size above zero |
| `CollaborationSessions.FeedIsReversed` | backend/app/collaboration/session_manager.py:205-209 | The feed holds the activities of the document and no others, each once, in reverse of the order they were added |
| `CollaborationSessions.PagesWhileLogging` | backend/app/collaboration/session_manager.py:205-242 | With any requests made between the pages, no entry of the feed is missed and as many too many are shown as activities of the document came in; the feed is shown as it was, each entry once, if and only if none came in |
| `CollaborationSessions.LoggedBetweenRepeats` | backend/app/collaboration/session_manager.py:212-212 | One activity logged between two pages makes the second begin with the entry that ended the first |
| `CollaborationSessions.ReadingEndsIff` | backend/app/api/management/collaboration/activity.py:70-71 | Following has_more ends if and only if the page size is above zero or nothing was left; pages of size zero are empty |
| `RefreshTokens.ParseBuild` | backend/app/auth_context/refresh_token_service.py:29-46 | Parsing a built token gives the identifier back exactly when it is absent, or non-empty, trimmed and without a dot |
| `RefreshTokens.ParsedIsNotBlank` | backend/app/auth_context/refresh_token_service.py:41-46 | A parsed identifier is never blank, so hashing it never fails |
| `RefreshTokens.ParsedIff` | backend/app/auth_context/refresh_token_service.py:41-46 | The identifier parsed is what stands before the first dot, without white space around it, when that is not blank |
| `RefreshTokens.Lookup` | backend/app/auth_context/refresh_token_service.py:77-115 | The record found is live and has the token's hash |
| `RefreshTokens.LookupIff` | backend/app/auth_context/refresh_token_service.py:77-115 | The record found is exactly the first unused, unexpired row with the token's hash under its first eight characters or, when nothing usable is under those, the first one without a prefix; tokens that begin with `pr_` or `ev_` find none |
| `RefreshTokens.LookupAgreesWithScan` | backend/app/auth_context/refresh_token_service.py:77-115 | On records whose prefixes are those of their tokens the indexed lookup finds a record exactly when a full scan does, unless the token's own record has no prefix and another live record shares it |
| `RefreshTokens.LookupAgreesInEveryState` | backend/app/auth_context/refresh_token_service.py:53-123 | That holds in every state reached from any table, rows without a prefix included, by issuing, exchanging and invalidating tokens |
| `RefreshTokens.PrefixedLookupIsScan` | backend/app/auth_context/refresh_token_service.py:53-123 | Without rows older than the prefix column the lookup and the scan agree in every reached state |
| `RefreshTokens.IssueHidesLegacy` | backend/app/auth_context/refresh_token_service.py:96-115 | Issuing a token hides a live row without a prefix whose token begins alike |
| `RefreshTokens.RefreshTokenService.IssueRefreshToken` | backend/app/auth_context/refresh_token_service.py:53-75 | One record is added, with the hash and prefix of the token returned |
| `RefreshTokens.RefreshTokenService.FindValidRecord` | backend/app/auth_context/refresh_token_service.py:77-115 | The two search loops find exactly that row |
| `RefreshTokens.RefreshTokenService.InvalidateUserTokens` | backend/app/auth_context/refresh_token_service.py:117-123 | Exactly the unused records of the user are marked used |
| `LoginSessions.AuthService.RevokeSessionIfInactive` | backend/app/auth_context/session_tokens.py:28-44 | A session is revoked exactly when it is not revoked and was last active more than seven days ago |
| `LoginSessions.AuthService.Authenticate` | backend/app/services/auth_service.py:333-379 | A login adds its session and the record of its token, and changes no row but those of the user's sessions that it revokes |
| `LoginSessions.AuthService.RefreshAccessToken` | backend/app/services/auth_service.py:383-436 | On any tables: a token is handed out if and only if the record is found, the user is active, and the token names no session or one of the user's rows that is not revoked and was active within seven days; then this record is used up and one is added for the next token of the session; otherwise no record changes, the error says why, and only a session left alone too long is marked revoked |
| `LoginSessions.RefreshIsExact` | backend/app/services/auth_service.py:383-436 | The same for the specification, so for every state a run reaches |
| `LoginSessions.OthersAreExact` | backend/app/services/auth_service.py:333-465 | What logging in and out, revoking all of a user's sessions and a reset do to every row |
| `LoginSessions.AuthService.GetCurrentUser` | backend/app/security.py:86-105 | A request is let in exactly when its session is there, not revoked and was active within seven days, and then touches it; one left alone too long is marked revoked |
| `LoginSessions.SessionLimit` | backend/app/services/auth_service.py:336-361 | After every run no user has more than five sessions that are not revoked |
| `LoginSessions.MakeRoomKeepsTheRecent` | backend/app/services/auth_service.py:338-350 | A login revokes the sessions active longest ago |
| `LoginSessions.MakeRoomLeavesFour` | backend/app/services/auth_service.py:338-350 | A login revokes none of the user's sessions while there are fewer than five, and otherwise all but four |
| `LoginSessions.ExchangedOnce` | backend/app/services/auth_service.py:423-432 | A token exchanged once is never found again, under a hash that tells handed-out tokens apart by their first 72 characters |
| `LoginSessions.CuttingIsAHash` | backend/app/auth_context/passwords.py:8-15 | What the results ask of the password hash can be met |
| `LoginSessions.RunKeepsNewestOnly` | backend/app/services/auth_service.py:383-436 | Of the tokens of a session only the newest can be unused |
| `LoginSessions.RevokedUserIsNotFound` | backend/app/auth_context/refresh_token_service.py:117-123 | After a user's tokens are invalidated no record of the user is found until the next login or reset request, whatever token is presented |
| `LoginSessions.RevokedSessionEndsItsTokens` | backend/app/services/auth_service.py:396-413 | No token of a revoked session is ever exchanged |
| `LoginSessions.LoginTokenIsFound` | backend/app/auth_context/refresh_token_service.py:77-97 | The token of a login is found until it expires, exactly when it does not begin like one of another family |
| `DiffScanner.NoMarkerIsSkipped` | backend/scripts/tech_debt_budget.py:25 | Searching on after each match finds a marker at every position where one stands |
| `DiffScanner.MarkersStand` | backend/scripts/tech_debt_budget.py:25 | The markers found are exactly the places where TODO, FIXME, HACK or XXX stands as a whole word in any case, each once and in order |
| `DiffScanner.ScanNewMarkersFromDiff` | backend/scripts/tech_debt_budget.py:88-142 | The loop over the text's lines, as `str.splitlines` cuts them, reports a hit for every marker of every line read as added; nothing when `git` fails |
| `DiffScanner.SplitText` | backend/scripts/tech_debt_budget.py:103-103 | The lines of a printed diff are the pieces of its printed lines, one line after the other |
| `DiffScanner.WholeLine` | backend/scripts/tech_debt_budget.py:103-103 | A printed line is read whole exactly when it holds no break before its ending; a carriage return before the line feed is part of the ending |
| `DiffScanner.HeaderGivesStart` | backend/scripts/tech_debt_budget.py:113-116 | From a hunk header, whatever its heading, the scanner reads the hunk's first new line |
| `DiffScanner.ShownIsTracked` | backend/scripts/tech_debt_budget.py:104-111 | A file is taken for tracked exactly when it is and its name holds no space |
| `DiffScanner.TrackedIff` | backend/scripts/tech_debt_budget.py:26-43 | A path is tracked exactly when it is not the scanner's own and its name, past leading dots, ends with one of the six extensions |
| `DiffScanner.SectionInStepIffSteady` | backend/scripts/tech_debt_budget.py:103-140 | For every section and every position it is read from, each raw line does exactly what the printed line it comes from means, and what follows a break does nothing, if and only if: a tracked file's name has no space; its added lines hold no break and do not begin with two plus signs; another file's added lines do not read as a tracked name; and each piece after a break repeats the name or number the scanner has or is no line of content there |
| `DiffScanner.InStepReads` | backend/scripts/tech_debt_budget.py:103-140 | Reading in step looks at exactly the added lines, at their true numbers |
| `DiffScanner.DiffInStepIffSteady` | backend/scripts/tech_debt_budget.py:88-142 | A whole diff is read in step if and only if every section is steady at the file the ones before leave |
| `DiffScanner.SectionIsExactIffReadable` | backend/scripts/tech_debt_budget.py:103-140 | A section reads as exactly its added lines at their true numbers if and only if, for a tracked file that adds something, its name has no space and its added lines hold no break and do not begin with two plus signs, and for any other section no raw line is taken for an added one of the file the scanner is at (which `UnseenIffNamed` puts in terms of the raw lines, and `SectionInStepIffSteady` in terms of the section); where lines are added to a tracked file, the pieces after a break in removed lines and headings are taken to be neither headers nor content |
| `DiffScanner.UnseenIffNamed` | backend/scripts/tech_debt_budget.py:103-134 | That is so exactly when each raw line with one or two leading plus signs stands where the last file named before it, or the one the scanner came with, is not tracked |
| `DiffScanner.ScanIsExact` | backend/scripts/tech_debt_budget.py:88-142 | On the text of a diff of such sections, or of one read in step, the hits are exactly each marker of each added line of tracked files, in order |
| `DiffScanner.DoublePlusShifts` | backend/scripts/tech_debt_budget.py:121-134 | An added line of two plus signs is skipped and the next one reported a line too early |
| `DiffScanner.FormFeedShifts` | backend/scripts/tech_debt_budget.py:103-140 | An added line is cut at a form feed, and when the rest looks like context the next added line is reported a line too late |
| `DiffScanner.RemovedIsReported` | backend/scripts/tech_debt_budget.py:103-134 | What follows a form feed in a removed line can be reported as added |
| `DiffScanner.MistakesCancel` | backend/scripts/tech_debt_budget.py:103-140 | Two misreadings of one removed line can make up for each other, so that the section reads as what it adds but out of step |
| `DatabaseSplit.CopyTable` | backend/scripts/split_databases.py:88-144 | A table is copied only if the target has fewer rows; the count returned |
| `DatabaseSplit.DeleteMigrated` | backend/scripts/split_databases.py:147-162 | Exactly the listed tables are emptied |
| `DatabaseSplit.SplitDatabases` | backend/scripts/split_databases.py:165-290 | The whole script: a dry run changes nothing, otherwise the three databases afterwards; the exit code is 0 exactly when no target is shorter than the source then is, in a dry run exactly without a clean-up, so after a clean-up always |
| `DatabaseSplit.InsertedIsAccepted` | backend/scripts/split_databases.py:133-138 | Inserting adds, in order, exactly the rows that the target's NOT NULL and CHECK constraints allow and that clash with none already there |
| `DatabaseSplit.CopiedRowsInOrder` | backend/scripts/split_databases.py:118-139 | A target shorter than the source gets, behind its own rows and in their order, exactly the rows that fit and clash with none of its own; any other stays as it is |
| `DatabaseSplit.RowIsKeptIff` | backend/scripts/split_databases.py:118-138 | A row is in the target afterwards exactly when it was there, or the target was shorter and the row is not refused |
| `DatabaseSplit.CopiedKeepsTarget` | backend/scripts/split_databases.py:133-139 | Rows of the target stay, first and in order, and other tables are untouched |
| `DatabaseSplit.CopyingAgainChangesNothing` | backend/scripts/split_databases.py:9 | Copying twice is copying once |
| `DatabaseSplit.DryRunPredicts` | backend/scripts/split_databases.py:129-144 | A dry run announces the number copied exactly when no row is refused |
| `DatabaseSplit.SplitLosesNothingIffSafe` | backend/scripts/split_databases.py:238-257 | After copying and emptying every row is in the new database exactly when each table was skipped with all rows already there, or each row was there or is allowed and clashes with none |
| `DatabaseSplit.EmptyTargetIsSafeIffFitting` | backend/scripts/split_databases.py:104-139 | Into a target without rows nothing is lost, and all rows arrive in order, exactly when the target's constraints allow every row |
| `DatabaseSplit.SkippedRowIsLost` | backend/scripts/split_databases.py:118-138 | A row that is refused, or whose table is skipped, and that was not there is gone after a clean-up, and the check passes |
| `PlatformMigration.Database.Upgrade` | backend/alembic/versions/20260321_0001_h14_consolidate_platform.py:22-68 | The loop, in its transaction, makes the upgraded tables or changes nothing |
| `PlatformMigration.LinksByName` | backend/alembic/versions/20260321_0001_h14_consolidate_platform.py:41-68 | Every pending document is linked to the platform of its key in the final table, equal names to the same one; other documents and earlier platforms are unchanged |
| `PlatformMigration.LinkNamesPlatform` | backend/alembic/versions/20260321_0001_h14_consolidate_platform.py:41-68 | A link names a platform with the document's name up to case and blanks |
| `PlatformMigration.UpgradeGivesTheWanted` | backend/alembic/versions/20260321_0001_h14_consolidate_platform.py:25-68 | In terms of the names: a document without a platform id and with a name that is not blank is linked to the last platform with its trimmed name in some case, all others stay; platforms stay, and each one added has a wanted name that none before it has, a slug in lower case with dashes for blanks and slashes, and a greater id |
| `PlatformMigration.UpgradedTwice` | backend/alembic/versions/20260321_0001_h14_consolidate_platform.py:25-34 | Running it again changes nothing |
| `PlatformMigration.SucceedsIffSlugsFree` | backend/alembic/versions/20260321_0001_h14_consolidate_platform.py:49-56 | It succeeds exactly when the names that need a new platform have slugs that are free and different; it adds one platform for each |

## Left out

- HTTP, Redis, SQL and file access, the React front end, the command line's display, routes, prompts, configuration, audit logs and seed data.
- The grammar of JSON: `json.loads` and `json.dumps` are parameters in `SseClient`; invalidation messages and activity details are the values they parse to.
- The WHATWG event-stream rules the client does not implement (comments, `id`, `retry`, several data lines, carriage returns).
- What the assistant puts into prompts: documents, history wording, summaries; token counts; the automatic summary of long conversations.
- Building the keyword groups and the embedding cache of the tool router; the cache is keyed by the number of tools.
- Escaping and percentage printing of attribute values in `HtmlGenerator`: attributes and text are kept as values. A level or size that `int` cannot read raises in the source; here the level defaults and the size is left out. Text that reads as a number is not taken for a column width, and infinite and undefined floats do not occur.
- Object identity in `DocumentCache` and `DocumentAuthStore`: states are values in a map, so sharing of a state object between callers is not captured.
- The network-level lifetime of subscriptions: a server that misses messages while disconnected is a server that rejects them (`Reject`).
- Lost updates of a session's edit count when two edits are logged at the same moment: requests are taken one after another here.
- Locking of accounts, passwords, e-mail verification and tenants around a login.
- Order of activities with equal timestamps in the feed; negative page sizes and offsets, which each database takes its own way; users' names in the listings.
- Backups, journal modes and foreign-key switches of the database splitter, and the totals it prints.
- The directory scan and the budget of the debt script; names `git` quotes.
- The other migrations, the audience policy, review workflow, outbox and idempotency middleware.
- HtmlGenerator.TableRowsOnceAndInOrder: rows are told apart by ASCII lower-casing of their section.
- ToolRouting.MergeCapped: Python sets are sequences in whatever order they are iterated, so which names beyond the cap are cut depends on that order.
