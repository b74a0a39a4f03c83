# Model of the client and OCR logic of DEEIX Chat

A Dafny 4.11 project that models the parts of the chat client and of its OCR services in which
state, text scanning or interleaving decide what happens, and proves what they guarantee on every
input, every run and every interleaving. `dafny verify dfyconfig.toml` checks it.

| file | what it models |
|---|---|
| `Wrappers.dfy` | optional values and how sequences come apart, for all the others |
| `JsText.dfy` | white space, `trim` and joining as ECMAScript defines them |
| `JsonScanner.dfy` | the brace scanner that cuts JSON objects out of a growing buffer |
| `JsonGrammar.dfy` | JSON texts as RFC 8259 writes them (sections 2 and 4 to 7), as a reference for the scanner |
| `ConversationStream.dfy` | the reader of a conversation response, from chunks to callbacks and result |
| `EventFrames.dfy` | the two server-sent-event readers |
| `SessionStore.dfy` | one tab's session snapshot, its revision, and the request that may clear it |
| `SessionTabs.dfy` | any number of tabs and callers, messages in flight, the refresh lock: one state machine |
| `RefreshClient.dfy` | the refresh promise of one tab, and that the state machine does in each tab just this |
| `SessionSafety.dfy` | what the protocol guarantees over whole runs |
| `SessionOutcomes.dfy` | what each step leaves behind, and what every refresh comes to |
| `SessionProgress.dfy` | that the protocol takes boundedly many steps and never blocks |
| `SessionBroadcast.dfy` | that what a tab posts reaches every listening tab |
| `FilePolling.dfy` | the polling effect: timer, request, visibility, unmount, and files that stay absent |
| `SvgProlog.dfy` | the recogniser of SVG documents and its grammar |
| `PageRanges.dfy` | the page-range parser both OCR services share |
| `Notifications.dfy` | bounded de-duplication of notifications |
| `SidebarHover.dfy`, `SidebarReveal.dfy` | hover locks with their collapse timer; the reveal transition |
| `ConversationLabels.dfy` | normalising labels and lists of labels |
| `UploadRetry.dfy` | the upload loop on top of a request that refreshes its token |

Where the client mutates variables the model is a class or a method with a loop, proved equal to a
function of its input or of its old state; what the client promises is then proved about that
function, or about runs of it. Foreign steps are parameters: `JSON.parse` is a function to an
optional event, a lock excludes, a timer or a message arrives at any later step or never, the
clock and the jitter of a retry are given numbers. Text is a sequence of Unicode scalar values.

The main results, hardest first:

- The scanner's answer is the one maximal split of its input, so cutting a response differently
  changes nothing a caller can see, and objects printed as RFC 8259 allows come out one by one,
  although the scanner only counts braces outside strings.
- A refresh that comes back empty-handed clears its tab's session if and only if nothing changed
  there since its request went out, not even a change that was undone; with the browser's lock at
  most one request is out over all tabs, and exclusion holds in exactly that setting and for a
  single tab.
- While a page is mounted and visible exactly one of a running poll and an armed timer exists.
- The refresh protocol takes at most three steps for each refresh and rests only when every caller
  has an answer.
- The SVG recogniser accepts exactly its grammar; split and printer agree for event frames; a
  printed page list is parsed back.

Three properties one might expect are false of the code. Each has a run or an input that shows it,
and the exact condition under which it does hold:

- without locks two tabs can refresh at once (`TwoTabsRace`, `ExclusionExactly`);
- normalising a label list twice is not normalising it once when a label starts with `#`
  (`HashSurvivesOnce`, `LabelsTwice`);
- the sidebar can stay expanded with nobody there and no timer armed, when a touch follows a mouse
  within the collapse delay (`TouchLeavesOpen`, `LeftOpenExactly`).

The reveal transition never sticks as long as its layout effect runs only when a dependency
changed. React also runs layout effects again when a boundary around them (`Suspense`, `Activity`)
hid its content and shows it again. The project layout has no such boundary around its sidebar;
under one, a transition under way would lose its timer. `ReshowingSticks` is that run and
`SticksExactly` the exact condition.

The event-frame readers follow a subset of the WHATWG HTML Standard, sections 9.2.5 and 9.2.6, and
depart from it: a lone carriage return ends no line, all white space after `data:` is dropped, and
a frame the stream ends in is delivered without its blank line. The model follows the code.

## Model

| member | source | states |
|---|---|---|
| JsonScanner.ExtractJSONDocuments | frontend/shared/api/conversation.ts:161-231 | the loop over index, depth, inString, escaped and startIndex computes the function `Extract`, on every source |
| JsonScanner.ExtractIsTheSplit | frontend/shared/api/conversation.ts:161-231 | a list of documents and a remainder is the scanner's answer if and only if the source is white space, shortest balanced documents and white space in turn, followed by a remainder from which no document can be taken; nothing is lost and the split is unique |
| JsonScanner.ExtractAppend | frontend/shared/api/conversation.ts:161-231 | scanning a, keeping the remainder and scanning it with b added gives the documents and the remainder of a + b |
| JsonScanner.ExtractRemainder | frontend/shared/api/conversation.ts:220-230 | scanning a remainder again finds nothing and leaves it as it is |
| JsonScanner.FirstClose | frontend/shared/api/conversation.ts:206-217 | the least length at which all braces outside strings are matched |
| JsonGrammar.ValuePasses | frontend/shared/api/conversation.ts:184-211 | a printed JSON value of any nesting, with any escapes, leaves the brace depth as it found it and never goes below it |
| JsonGrammar.PrintedObjectIsDocument | frontend/shared/api/conversation.ts:184-217 | the last brace of a printed object is the first point at which the scanner sees it closed |
| JsonGrammar.PrintedObjectsAreExtracted | frontend/shared/api/conversation.ts:161-231 | objects printed with any white space inside and between them are extracted text by text, and nothing remains |
| ConversationStream.ReadConversationStream | frontend/shared/api/conversation.ts:1212-1268 | the loop over chunks with its carried buffer, the early throw and the tail: callbacks, completed result and blocked event are those of reading the joined text in one piece |
| ConversationStream.ChunksDoNotMatter | frontend/shared/api/conversation.ts:1235-1265 | two cuttings of one response give the same callbacks in the same order, the same result and the same failure, whether the stream ends or breaks off |
| ConversationStream.NothingIsLost | frontend/shared/api/conversation.ts:1247-1267 | when a read returns, the response was white space around exactly the texts that were parsed, in order |
| ConversationStream.ReadThrows | frontend/shared/api/conversation.ts:1226-1265 | a read throws if and only if some text does not parse or carries an error without payload or an unknown kind, and then the texts up to the first such one were parsed and no other |
| ConversationStream.ReadReturns | frontend/shared/api/conversation.ts:1226-1234 | the result is the payload of the last completed or error event that has one, and the moderation verdict is the last blocked event |
| ConversationStream.HandleAnnounces | frontend/shared/api/conversation.ts:233-319 | the callbacks of an event are, each once and in order, its positive sequence number, the terminal callback for completed, error and blocked events, and the one callback its kind and payload call for; a delta is a snapshot if and only if it replaces |
| ConversationStream.OneAnnouncement | frontend/shared/api/conversation.ts:233-319 | there is only one such list |
| ConversationStream.ReadCalls | frontend/shared/api/conversation.ts:1226-1234 | the callbacks of a read are, text by text in order, those of the events the texts parse to, and no others |
| ConversationStream.PrintedResponseIsRead | frontend/shared/api/conversation.ts:161-231 | a response of printed objects, cut anywhere, is dispatched object by object |
| EventFrames.FrameReader.constructor | frontend/shared/api/conversation.ts:629-631 | a reader starts with an empty buffer |
| EventFrames.FrameReader.ConsumeFrames | frontend/shared/api/conversation.ts:632-655 | consumes all frames but the last, or all on a flush, and keeps the rest in the buffer |
| EventFrames.FrameReader.DeliverFrames | frontend/shared/api/conversation.ts:960-977 | delivers one event per frame with data that parses and is accepted, in order |
| EventFrames.StreamEvents | frontend/shared/api/conversation.ts:657-669 | for every cutting of the text, also inside a blank line, the events are those of the whole text split at blank lines, without the end those of all frames but the last; and however the text may be written as frames, exactly one event for each frame whose data lines spell a text that is not empty, parses and is of a wanted type, in frame order |
| EventFrames.SplitAppend | frontend/shared/api/conversation.ts:634-635 | splitting a, keeping the last piece and splitting it with b added gives the pieces of a + b |
| EventFrames.SplitIsTheCut | frontend/shared/api/conversation.ts:634 | a list of pieces is the split if and only if each runs up to the first match and the last to the end |
| EventFrames.PrintedFramesAreRead | frontend/shared/api/conversation.ts:636-655 | the same for frames written with LF or CRLF, any padding and other fields in between, and a last frame without its blank line, which counts if and only if the stream ends |
| EventFrames.FrameSpells | frontend/shared/api/conversation.ts:636-645 | the text taken from a frame is its payloads with line feeds between them, trimmed |
| SessionStore.Session.constructor | frontend/shared/auth/session.ts:20-27 | an empty snapshot at revision 0, the channel not yet asked for |
| SessionStore.Session.ApplySessionSnapshot | frontend/shared/auth/session.ts:82-94 | merges the given fields; only a change raises the revision, opens the channel and, unless told otherwise, posts the snapshot |
| SessionStore.Session.OnMessage | frontend/shared/auth/session.ts:50-56 | a peer's snapshot is taken over whole and nothing is posted |
| SessionStore.Session.ReadAccessToken | frontend/shared/auth/session.ts:96-99 | returns the token, opens the channel and changes nothing else |
| SessionStore.Session.ReadSessionRevision | frontend/shared/auth/session.ts:113-116 | returns the revision, opens the channel and changes nothing else |
| SessionStore.Session.ClearSessionSnapshot | frontend/shared/auth/session.ts:126-134 | both fields are empty afterwards, as one change |
| SessionStore.BeginRefresh | frontend/shared/api/authed-client.ts:74-81 | a token other than the failed one settles the refresh at once; otherwise the revision is noted before the request |
| SessionStore.AnswerRefresh | frontend/shared/api/authed-client.ts:45-72 | a token is stored and posted; no token or a terminating 401 clears only at the noted revision, without a post; any other failure changes nothing |
| RefreshClient.AuthClient.RefreshAccessToken | frontend/shared/api/authed-client.ts:91-98 | joins the promise there is, and makes one only when there is none |
| RefreshClient.AuthClient.OnLockGranted | frontend/shared/api/authed-client.ts:74-88 | the refresh begins inside the lock |
| RefreshClient.AuthClient.OnReply | frontend/shared/api/authed-client.ts:45-72 | the answer settles the promise and changes the session as `AnswerRefresh` says |
| RefreshClient.AuthClient.OnFinally | frontend/shared/api/authed-client.ts:92-96 | the variable is cleared and every caller that joined gets the one outcome |
| RefreshClient.OthersUntouched | frontend/shared/api/authed-client.ts:74-98 | a step in one tab leaves session and promise of every other tab alone |
| RefreshClient.SystemStepsAreClientSteps | frontend/shared/api/authed-client.ts:45-98 | every step of the many-tab system is, in its tab, the step of that tab's client; the messages it sends are what the client posts, and the answers it gives are what the client hands out |
| SessionTabs.StepInv | frontend/shared/api/authed-client.ts:74-98 | every step, in any order, keeps promise, lock and callers consistent over all tabs |
| SessionSafety.OnePendingPerTab | frontend/shared/api/authed-client.ts:91-98 | in every reachable state a tab has at most one unfinished refresh, and its promise stands for it |
| SessionSafety.EveryCallerServed | frontend/shared/api/authed-client.ts:91-98 | a caller has an answer exactly when the one refresh it joined is done, and it is that refresh's outcome |
| SessionProgress.ProtocolIsBounded | frontend/shared/api/authed-client.ts:74-98 | over every run the steps of the protocol, lock, answer and `finally`, are at most those left at the beginning and three for each refresh started since |
| SessionProgress.UnfinishedCanMove | frontend/shared/api/authed-client.ts:74-98 | in every reachable state an unfinished refresh can be brought on, by its own next step or by the answer to the one that holds the lock, whatever that answer is |
| SessionProgress.RestMeansServed | frontend/shared/api/authed-client.ts:91-98 | no step of the protocol is enabled if and only if no work is left, and then every caller has the outcome of the refresh it joined |
| SessionSafety.LockedRefreshesExclude | frontend/shared/api/authed-client.ts:83-88 | with the lock at most one refresh request is in flight over all tabs |
| SessionSafety.ExclusionExactly | frontend/shared/api/authed-client.ts:83-88 | exclusion over all runs holds if and only if there are locks or at most one tab |
| SessionSafety.TwoTabsRace | frontend/shared/api/authed-client.ts:84-86 | without locks a run of any two tabs has two requests in flight |
| SessionSafety.NoNeedlessRequest | frontend/shared/api/authed-client.ts:75-81 | a request goes out only for a tab whose token is missing or is the one that failed |
| SessionOutcomes.BeginsExactly | frontend/shared/api/authed-client.ts:74-81 | a refresh that begins asks the server if and only if its tab's token is empty or the one that failed, and notes the revision; otherwise it settles at once with that token |
| SessionOutcomes.RefreshJoins | frontend/shared/api/authed-client.ts:91-98 | a caller joins the unfinished refresh of its tab or the only new one, and is not lost |
| SessionOutcomes.ReplySettles | frontend/shared/api/authed-client.ts:45-72 | callers get the granted token, an empty one when the session ends, or a rejection |
| SessionOutcomes.OutcomeIsGiven | frontend/shared/api/authed-client.ts:45-98 | over every run the outcome of a refresh was given by one step: an early answer other than the failed token, or a reply that says so |
| SessionOutcomes.FailedTokenIsNotReturned | frontend/shared/api/authed-client.ts:74-81 | no caller is handed the token that failed, unless the server granted that very token anew |
| SessionOutcomes.SnapshotAfter | frontend/shared/auth/session.ts:82-134 | the session each step leaves, field by field: given fields replace, absent ones are kept, a clear empties both |
| SessionOutcomes.MessagesAfter | frontend/shared/auth/session.ts:82-94 | a step adds one message for every other listening tab exactly when it is a write that syncs or a granted token and changes the session |
| SessionOutcomes.ListensAfter | frontend/shared/auth/session.ts:38-62 | a tab opens its channel when it reads the session, begins a refresh, is told its session ends, or its session changes; it never closes it |
| SessionSafety.SettledTokenIsHeld | frontend/shared/api/authed-client.ts:58-62 | a token a refresh settles with is the tab's token in that moment |
| SessionSafety.ClearStaysLocal | frontend/shared/api/authed-client.ts:51-69 | a refresh that ends the session sends no message and changes no other tab |
| SessionSafety.RevisionTellsChange | frontend/shared/auth/session.ts:82-94 | the revision is the same at two points of a run if and only if the snapshot was the same all the way between them |
| SessionSafety.StartedRevisionHeld | frontend/shared/api/authed-client.ts:46 | a request in flight keeps the revision its tab had when it went out |
| SessionSafety.NoStaleClear | frontend/shared/api/authed-client.ts:45-72 | over every interleaving a failed or token-less refresh empties the session if and only if it was undisturbed since the request, and otherwise leaves it as it is |
| SessionBroadcast.PostReachesEveryone | frontend/shared/auth/session.ts:50-94 | after a change posted into a quiet network, by a write or by a token a refresh brought, and any steps that change no session but by a delivery, as many deliveries as messages empty the network, and then every tab that was listening holds what was posted |
| SessionBroadcast.CalmSteps | frontend/shared/api/authed-client.ts:45-98 | which steps those are: reads, all of the refresh protocol but an answer that changes the session, writes of what is there |
| SessionBroadcast.DeliveriesSpread | frontend/shared/auth/session.ts:50-56 | a delivery never creates a message: the network shrinks by one with each, and by nothing else |
| SessionBroadcast.DrainNeverBlocks | frontend/shared/auth/session.ts:50-56 | in every reachable state with messages one can be delivered |
| FilePolling.FileStatusPolling.constructor | frontend/shared/hooks/use-file-processing-status-polling.ts:54-60 | the effect starts with a poll, unless the page is hidden |
| FilePolling.FileStatusPolling.ScheduleNext | frontend/shared/hooks/use-file-processing-status-polling.ts:61-68 | arms a timer only while mounted and visible |
| FilePolling.FileStatusPolling.StartPoll | frontend/shared/hooks/use-file-processing-status-polling.ts:69-76 | a second poll, a hidden page and an unmounted effect start nothing |
| FilePolling.FileStatusPolling.Finally | frontend/shared/hooks/use-file-processing-status-polling.ts:89-95 | the run ends, its controller is dropped, the next one is scheduled |
| FilePolling.FileStatusPolling.OnToken | frontend/shared/hooks/use-file-processing-status-polling.ts:78-82 | without a token, after an abort, an unmount or on a hidden page nothing is loaded |
| FilePolling.FileStatusPolling.OnRejected | frontend/shared/hooks/use-file-processing-status-polling.ts:84-95 | a rejection counts as a failure unless it was aborted |
| FilePolling.FileStatusPolling.HandleVisibilityChange | frontend/shared/hooks/use-file-processing-status-polling.ts:121-131 | clears the timer, then aborts or polls |
| FilePolling.FileStatusPolling.Cleanup | frontend/shared/hooks/use-file-processing-status-polling.ts:135-142 | aborts the request and clears the timer for good |
| FilePolling.FileStatusPolling.OnLoaded | frontend/shared/hooks/use-file-processing-status-polling.ts:82-119 | a snapshot resets the failures and is looked at unless the effect is gone; the answer is, in the order asked, exactly the requested files absent without a break since an earlier snapshot at least two intervals and at least 3000 ms ago |
| FilePolling.FileStatusPolling.Process | frontend/shared/hooks/use-file-processing-status-polling.ts:96-119 | the loop over the requested files keeps, for each, length and start of its current absence over the whole history, and gives this answer |
| FilePolling.StepKeeps | frontend/shared/hooks/use-file-processing-status-polling.ts:54-142 | every event keeps the scheduler invariant |
| FilePolling.ExactlyOneOfPollAndTimer | frontend/shared/hooks/use-file-processing-status-polling.ts:54-142 | in every state of every run: no overlap; mounted and visible, exactly one of poll and timer; else no timer, and a request still out is aborted |
| FilePolling.TimerStartsPoll | frontend/shared/hooks/use-file-processing-status-polling.ts:61-73 | an armed timer that fires always starts a run |
| FilePolling.PollsAtOnce | frontend/shared/hooks/use-file-processing-status-polling.ts:121-134 | a page that is visible at the start, or becomes visible, is polled at once |
| FilePolling.LoadsExactly | frontend/shared/hooks/use-file-processing-status-polling.ts:78-82 | the statuses are asked for if and only if there is a token and the run is mounted, visible and not aborted |
| FilePolling.AbortedExactly | frontend/shared/hooks/use-file-processing-status-polling.ts:121-142 | over every run a poll is aborted if and only if the page was hidden or unmounted while it was under way |
| FilePolling.BackoffCountsFailures | frontend/shared/hooks/use-file-processing-status-polling.ts:61-88 | the delay is one, two or four intervals after none, one or more failures in a row, aborted ones aside |
| FilePolling.ReportedExactly | frontend/shared/hooks/use-file-processing-status-polling.ts:96-118 | a file is reported if and only if it is absent, was absent earlier in the same unbroken run, and the run began at least two intervals and at least 3000 ms ago |
| SvgProlog.SkipDocumentWhitespace | frontend/shared/lib/artifact-preview.ts:11-27 | stops at the first character that is no document white space |
| SvgProlog.FindDoctypeEnd | frontend/shared/lib/artifact-preview.ts:47-74 | finds the first `>` outside quotes and brackets, or none |
| SvgProlog.ItemEnd | frontend/shared/lib/artifact-preview.ts:33-76 | the end of the comment, instruction or svg doctype at the cursor, none, or not ended |
| SvgProlog.HasSVGDocumentRoot | frontend/shared/lib/artifact-preview.ts:29-85 | the cursor strictly advances and the answer is yes if and only if the code is in the grammar |
| SvgProlog.DoctypeIsPieces | frontend/shared/lib/artifact-preview.ts:47-74 | the quote and depth scanner first stops at the end of a text if and only if the text is quoted literals, bracketed groups of any nesting and other characters, then `>` |
| SvgProlog.RecogniserIsGrammar | frontend/shared/lib/artifact-preview.ts:29-85 | accepted are exactly white space, comments, instructions and svg doctypes followed by an svg root tag |
| SvgProlog.RootIsTag | frontend/shared/lib/artifact-preview.ts:5 | the root pattern is `<`, a prefix and colon or nothing, svg in either case, and white space, `>` or `/>` |
| SvgProlog.DoctypeStartIsWritten | frontend/shared/lib/artifact-preview.ts:4 | the doctype pattern is the word in either case, white space, svg in either case, and white space, `[` or `>` |
| SvgProlog.TagIsAccepted | frontend/shared/lib/artifact-preview.ts:29-85 | such a tag is accepted behind any items |
| SvgProlog.ItemInFront | frontend/shared/lib/artifact-preview.ts:32-82 | one more such item in front of any text never changes the verdict |
| PageRanges.ParsePageRanges | docker/rapidocr/app.py:19-50 | no pages for a total of zero or less; otherwise the sorted selection of the text as it came, stripped or not |
| PageRanges.CollectPages | docker/tesseract/app.py:29-53 | the loop over the parts collects the union of what each part asks for |
| PageRanges.AddRange | docker/rapidocr/app.py:41-42 | the inner loop adds every page of a range |
| PageRanges.PagesAreTheSelection | docker/rapidocr/app.py:50 | not empty, strictly increasing, exactly the selected pages, all within the document, so one less is always a page index |
| PageRanges.StripKeepsPages | docker/rapidocr/app.py:22-27 | white space around the text makes no difference |
| PageRanges.PartsAreASet | docker/rapidocr/app.py:26-49 | the order of parts and their repetition make no difference |
| PageRanges.PrintedSegmentsAreSelected | docker/rapidocr/app.py:30-49 | parts written with blanks, plus signs and leading zeros select exactly the pages they name within the document, or all if they name none; a backward range and one to a negative number is its first page; page 0, a range that lacks a number, an empty part and a part that is no number are ignored |
| PageRanges.Underscores | docker/rapidocr/app.py:33-45 | `int` skips single underscores between digits and takes no others |
| PageRanges.PrintedPagesComeBack | docker/tesseract/app.py:23-54 | a strictly increasing list of existing pages, printed and parsed, comes back |
| Notifications.Subscription.EmitOnce | frontend/shared/events/file-library-events.ts:93-103 | a known nonce is dropped; a new one is handled and remembered, alone once the set is full |
| Notifications.HandledInBlocks | frontend/shared/events/file-library-events.ts:93-103 | over every run the handled notifications fall into blocks of 50 with different nonces, and at most 50 are remembered |
| Notifications.SuppressedExactly | frontend/shared/events/file-library-events.ts:94-96 | a call is dropped if and only if its nonce is in the block being filled |
| Notifications.RepeatIsSuppressed | frontend/shared/events/file-library-events.ts:94-101 | a nonce repeated at once is always dropped |
| Notifications.RarelyHandledTwice | frontend/shared/events/file-library-events.ts:93-103 | among h handled notifications a nonce occurs at most h/50 times, rounded up |
| SidebarHover.HoverExpansion.AcquireHoverExpansionLock | frontend/components/ui/sidebar.tsx:394-398 | a new closure, one more lock, no timer |
| SidebarHover.HoverExpansion.ReleaseLock | frontend/components/ui/sidebar.tsx:399-408 | a second release does nothing; the last one outside the sidebar arms the timer |
| SidebarHover.HoverExpansion.HandlePointerEnter | frontend/components/ui/sidebar.tsx:452-467 | the timer goes; a mouse expands a sidebar that may |
| SidebarHover.HoverExpansion.HandlePointerLeave | frontend/components/ui/sidebar.tsx:469-481 | only a mouse arms the timer, and only without a lock |
| SidebarHover.HoverExpansion.OnConfiguration | frontend/components/ui/sidebar.tsx:416-421 | a sidebar that is open anyway or may not hover is not hover-expanded |
| SidebarHover.StepKeeps | frontend/components/ui/sidebar.tsx:386-481 | every event keeps the counter equal to the closures not released; the clamp at zero never acts; a second release changes nothing |
| SidebarHover.LocksAreCounted | frontend/components/ui/sidebar.tsx:386-409 | over every run an armed timer means the pointer is outside and no lock is held |
| SidebarHover.ExpandedExactly | frontend/components/ui/sidebar.tsx:378-421 | over every run the sidebar is expanded if and only if a mouse entered it while it may expand, and neither the timer nor a change of configuration collapsed it since |
| SidebarHover.ArmedExactly | frontend/components/ui/sidebar.tsx:378-481 | over every run the timer is armed if and only if a mouse left with no lock held or the last lock was released outside, and since then nobody came |
| SidebarHover.InsideExactly | frontend/components/ui/sidebar.tsx:452-481 | the pointer counts as inside if and only if it entered later than it left |
| SidebarHover.LeftOpenExactly | frontend/components/ui/sidebar.tsx:469-481 | a run leaves the sidebar expanded with nobody there at some point if and only if at some point a pointer other than a mouse leaves it expanded, unlocked and without a timer |
| SidebarHover.MouseNeverLeavesOpen | frontend/components/ui/sidebar.tsx:386-481 | with a mouse alone that never happens |
| SidebarHover.TouchLeavesOpen | frontend/components/ui/sidebar.tsx:452-481 | a run of five events in which it does |
| SidebarReveal.RevealTransition.SettleTransition | frontend/components/ui/sidebar.tsx:370-376 | clears the timer and settles only the target that is wanted |
| SidebarReveal.RevealTransition.LayoutEffect | frontend/components/ui/sidebar.tsx:423-442 | syncs without animation, returns early, or begins a transition with its timer |
| SidebarReveal.NeverSticks | frontend/components/ui/sidebar-hover-transition.ts:20-47 | over every run whose layout effect runs on changed dependencies, or again while nothing is resizing: reducer target, remembered target and shown target agree; resizing if and only if a timer will settle that target; laid out collapsed only when to be collapsed |
| SidebarReveal.RenderExplained | frontend/components/ui/sidebar.tsx:423-442 | without hover reveal or with reduced motion a render ends laid out as shown, with no transition; else a new target starts one, laid out expanded at once or collapsed only at its end |
| SidebarReveal.StaleSettleIgnored | frontend/components/ui/sidebar-hover-transition.ts:38-40 | a settle for another target changes nothing |
| SidebarReveal.EveryTransitionSettles | frontend/components/ui/sidebar.tsx:439-497 | timer and transition end come to the same: laid out as the target, no longer resizing |
| SidebarReveal.SticksExactly | frontend/components/ui/sidebar.tsx:423-442 | a run reaches a state that is resizing without a timer if and only if the effect runs again, dependencies unchanged, in the middle of a transition with motion allowed |
| SidebarReveal.ReshowingSticks | frontend/components/ui/sidebar.tsx:423-435 | a run of two events that does |
| ConversationLabels.NormalizeConversationLabels | frontend/shared/lib/conversation-labels.ts:8-24 | the loop with its early exit gives the first six case-insensitively first labels that are not empty and at most 24 long, after normalising each |
| ConversationLabels.LabelsAreFirsts | frontend/shared/lib/conversation-labels.ts:8-24 | the result is, of all labels that normalise to 1 to 24 characters and are the first such but for case, the first six in their order |
| ConversationLabels.NormalizeSpells | frontend/shared/lib/conversation-labels.ts:4-6 | white space, all hashes, white space and words with gaps normalise to the words with one blank between them |
| ConversationLabels.NormalizeEmpty | frontend/shared/lib/conversation-labels.ts:4-6 | hashes between white space normalise to nothing |
| ConversationLabels.EveryLabelIsSpelled | frontend/shared/lib/conversation-labels.ts:4-6 | every label is of one of these two forms |
| ConversationLabels.NormalizeTwice | frontend/shared/lib/conversation-labels.ts:4-6 | a normalised label normalises to itself if and only if it does not start with `#` |
| ConversationLabels.LabelsTwice | frontend/shared/lib/conversation-labels.ts:8-24 | normalising a result again is the identity if and only if none of its labels starts with `#` |
| ConversationLabels.HashSurvivesOnce | frontend/shared/lib/conversation-labels.ts:4-6 | an input on which it is not |
| ConversationLabels.LabelsShape | frontend/shared/lib/conversation-labels.ts:8-24 | at most six labels, all normalised, short and not empty, no two equal but for case |
| UploadRetry.UploadFile | frontend/shared/api/file.ts:81-118 | for every sequence of outcomes at most three attempts; another if and only if the last ended in a network error nobody aborted and its wait was not cut short; one request for each and a second exactly after a recovered 401; the waits are 250 and 500 ms with their jitter; the result or failure is that of the last attempt |
| UploadRetry.RequestExplained | frontend/shared/api/authed-client.ts:108-146 | a request brings the first answer, or after a recovered 401 the second one; each failure is traced to the abort, the first request, the recovery or the second request |

## Left out

- `JSON.parse`, `normalizeStreamEvent` and the trace normalisers: one function from text to an optional event; what the events contain beyond kind, sequence number and payload is not modelled.
- `fetch`, `TextDecoder`, `BroadcastChannel`, Web Locks and DOM events: abstract steps; text arrives as chunks already decoded, and a surrogate pair is one character.
- `postMessageStream`, `resumeMessageGenerationStream` and the other request wrappers in conversation.ts: they pick one of the two results of the reader.
- SessionTabs.StepInv: does not model a tab that is closed, which would drop its jobs and free the lock.
- SessionSafety.NoStaleClear: does not cover the clear after a rejected retry (authed-client.ts:139-143); it is a step of the system (`RetryRejected`) and unconditional in the code.
- SessionProgress.ProtocolIsBounded: does not bound how often one waiting tab is overtaken, because which request a free lock goes to is left open.
- `recoverAccessToken` (authed-client.ts:100-106): its shortcut is the same test `Begin` makes; callers that take it start no step.
- Messages of another shape on the session channel, which are ignored; the window event a snapshot change dispatches, and the `refresh` wrapper in auth.ts, which takes no lock.
- FilePolling.FileStatusPolling.Process: file identifiers that contain the separator character NUL are not modelled; the list of requested files is taken as already distinct.
- The failure of `selectStatuses` or `onResult` in a caller's code.
- `resolveArtifactPreviewKind` and its HTML pattern: a table of language names in front of the recogniser.
- PageRanges.ParsePageRanges: `int` accepts ASCII digits with underscores; digits of other scripts and the interpreter's limit on very long numbers are not modelled.
- PageRanges.AddRange, PageRanges.CollectPages, SvgProlog.ItemEnd, ConversationStream.ConsumeDocuments, EventFrames.FrameReader.DeliverFrames, FilePolling.FileStatusPolling.Process: parts the source has inline, given a method of their own here.
- `createInvalidatedDetail`, the storage and channel listeners: each only calls `emitOnce`.
- `parseConversationLabelsJSON`: only calls; `toLowerCase` is an arbitrary function.
- UploadRetry.UploadFile: a wait that is aborted counts in full towards the 1048 ms.
- SidebarReveal.RevealTransition.LayoutEffect: dispatching takes effect at once; batching by React is not modelled.
- The Go backend: its circuit breaker, quota, queue and billing code is not part of this model.
