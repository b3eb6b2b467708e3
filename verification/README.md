# C64 chat — a Dafny model of its terminal and its proxy

The system is a browser terminal that imitates a Commodore 64 screen, backed by
a small HTTP proxy that forwards a conversation to a completion service.

The model covers the logic that decides what the screen shows and what the
proxy answers:

- **Screen** (`screen.dfy`) holds `splitWithPrefix` and `getLineColor`.
  - `splitWithPrefix` cuts a turn of text into display blocks of at most 46
    characters, and keeps the turn prefix `"< "` or `"> "` on every block.
  - The global regular expression `.{1,46}` is modelled exactly. Line
    terminators (`\n`, `\r`, U+2028, U+2029) are passed over, as the regular
    expression does. Other runs are cut greedily.
  - Only the shape lemmas assume a text without terminators.
- **Terminal** (`terminal.dfy`) is a class for the React component's state.
  - Its fields are the screen lines, the input field, the BASIC/chat mode
    switch, the typing flag, the conversation history and the typewriter's
    interval state.
  - `addLine`, the `simulateTyping` set-up and ticks, `handleCommand` and
    `handleChange` are methods on it.
  - `Valid()` is the class invariant. The input holds at most 80 characters.
    While a reply is being typed, the lines from the typewriter's base line on
    are exactly the blocks of the text revealed so far.
  - Every tick keeps the lines above the base line. That is the typewriter's
    promise never to overwrite preceding lines.
- **Server** (`server.dfy`) holds both request handlers as functions.
  - `/api/verify-password` checks the input format, then compares against the
    configured password ignoring case, with the default `pass123`.
  - `/api/chat` validates the request, keeps the last 20 messages, and maps the
    completion outcome to a status and a body.
  - The completion service is a function parameter of the handler.
- **Ascii** (`ascii.dfy`) is the upper-casing used on both sides.
- **Recent** (`recent.dfy`) is the "last n entries" window (`slice(-n)`) used
  on both sides.
- **Wrappers** (`wrappers.dfy`) is an `Option` type.

Timer delays are collapsed. The lines a command prints after `setTimeout` are
appended within the same step, in order, and the mode flip comes last. One
interval firing of the typewriter is one call of `Tick`.

The source calls `simulateTyping` from one place only. Its completion callback
appends the `"> "` prompt and clears the input, so `Finish` does exactly that.

A few consequences of the code that the model makes explicit:

- `addLine("")` needs no special case, because `splitWithPrefix("")` is already
  `[""]` (`LinesForIsSplit`).
- The typewriter never has fewer lines after a tick than before it
  (`MatchesGrow`). At the end, the lines from the base on are exactly
  `splitWithPrefix(text)` for a non-empty body (`Animate`, `TypeOut`). For an
  empty body they are the reserved empty line.
- The browser sends its last 12 history entries. The system prompt stops being
  sent once the history holds more than 12 entries (`Recent.Last`).
  The proxy's cut to 20 never drops any of those 12 entries
  (`ClientWindowForwardedWhole`).
- A completion whose list of choices is empty makes `choices[0].message`
  throw. The handler catches this and answers 500 "OpenAI request failed"
  (`Answer`).

## Model

| member | source | states |
|---|---|---|
| Screen.Matches | src/App.js:42 | the global matches of `.{1,46}`: terminators are skipped and each match is the greedy run `Run` from there; its properties are stated by `MatchesBlocks`, `MatchesConcat`, `MatchesFull`, `MatchesCount` and `MatchesGrow` |
| Screen.Chunks | src/App.js:42 | the match list, or `[""]` when there is no match, as the fallback after the match gives; stated by `ChunksConcat`, `ChunksShape` and `ChunksOfLine` |
| Screen.HasTurnPrefix | src/App.js:39 | a text has a turn prefix exactly when it starts with "< " or "> " |
| Screen.TurnPrefix | src/App.js:40 | the first two characters of a prefixed text, otherwise the empty string; `PrefixThenBody` states that prefix and body rebuild the text |
| Screen.Body | src/App.js:41 | the text after the turn prefix, or the whole text when there is none; `PrefixThenBody` states that prefix and body rebuild the text |
| Screen.PrefixEach | src/App.js:43 | the `map(c => prefix + c)` over the blocks; `PrefixEachAt` states its length and each line |
| Screen.SplitWithPrefix | src/App.js:38-44 | `splitWithPrefix`: the body's blocks, each with the turn prefix when there is one; stated by `SplitLines`, `SplitIsPrefixEach`, `SplitWidth`, `SplitRoundTrip` and `ShortLine` |
| Screen.Run | src/App.js:42 | the greedy match of `.{1,k}` at the start of a text: at most k characters, none a terminator, and it stops early only at a terminator or at the end of the text |
| Screen.MatchesBlocks | src/App.js:42 | every match of `.{1,46}` holds 1 to 46 characters and no line terminator |
| Screen.MatchesConcat | src/App.js:42 | the matches, concatenated in order, are exactly the text with its line terminators removed |
| Screen.MatchesFull | src/App.js:42 | on a text without terminators, every match but the last holds exactly 46 characters |
| Screen.MatchesCount | src/App.js:42 | on a text without terminators, there is one match per started 46 characters |
| Screen.MatchesGrow | src/App.js:113 | appending text never reduces the number of matches |
| Screen.ChunksGrow | src/App.js:113 | appending text never reduces the number of blocks (the match list, or `[""]` when it is empty) |
| Screen.ChunksConcat | src/App.js:42 | the blocks (the match list, or `[""]` when it is empty), concatenated in order, are the text with its line terminators removed |
| Screen.ChunksShape | src/App.js:42 | the match list, or `[""]` when there is no match, yields at least one block; each block has at most 46 characters and no terminator; together the blocks are the text without terminators |
| Screen.ChunksOfLine | src/App.js:42 | for a text without terminators: it gives `[""]` exactly when it is empty; otherwise every block holds 1..46 characters, all but the last hold 46, and there are ceil(n/46) blocks |
| Screen.PrefixEachAt | src/App.js:43 | copying the prefix keeps the number of blocks, and line k is the prefix followed by block k |
| Screen.PrefixThenBody | src/App.js:39-41 | a text is its turn prefix ("< ", "> " or nothing) followed by the body that gets split |
| Screen.SplitLines | src/App.js:38-44 | `splitWithPrefix` gives at least one line; line k is the turn prefix followed by block k of the body; with a prefix, every line starts with the input's two prefix characters; without one, the lines are the unaltered blocks |
| Screen.PrefixEachEmpty | src/App.js:43 | copying an empty prefix onto the blocks changes nothing |
| Screen.SplitIsPrefixEach | src/App.js:38-44 | `splitWithPrefix` equals copying the turn prefix, possibly empty, onto every block of the body, which is the typewriter's computation at line 113 |
| Screen.SplitWidth | src/App.js:38-44 | no line is longer than 48 characters: 46 of body and 2 of prefix |
| Screen.UnsplitPrefixEach | src/App.js:43 | taking the prefix off every prefixed block and concatenating the rest gives the blocks' concatenation |
| Screen.SplitRoundTrip | src/App.js:38-44 | round trip: for a text without terminators, the prefix followed by the lines with the prefix removed is the original text |
| Screen.ShortLine | src/App.js:38-44 | a non-empty text of at most 46 characters, with no prefix and no terminator, is exactly one line |
| Screen.LineColor | src/App.js:30-35 | the colour of a line is one of the three colours `#d5df7c`, `#ffffff` and `#9F9FFF` |
| Screen.LineColorCases | src/App.js:30-35 | `#d5df7c` exactly when the line starts with '<'; `#ffffff` exactly when it starts with '>'; `#9F9FFF` exactly for the empty line and any other first character |
| Screen.SplitKeepsColor | src/App.js:30-44 | every line of a prefixed turn has the colour of the turn, so a wrapped reply stays one colour |
| Terminal.LinesFor | src/App.js:82-84 | the lines one `addLine(text)` appends: one empty line for the empty text, `splitWithPrefix(text)` otherwise; `LinesForIsSplit` shows the two agree |
| Terminal.BasicAnswer | src/App.js:146-165 | the texts printed after the echo: the loading lines for `LOAD CHAT`, the listing and `READY.` for `LIST`, `?SYNTAX ERROR` and `READY.` otherwise; `BasicAnswerPlain` states each is one line |
| Terminal.LinesForIsSplit | src/App.js:82-85 | the lines `addLine(text)` appends are `splitWithPrefix(text)` for every text, the empty text included |
| Terminal.PlainLines | src/App.js:82-84 | texts that are empty, or short with no prefix and no terminator, each appear as exactly one line, unchanged and in order |
| Terminal.PromptLine | src/App.js:186 | the prompt `"> "` appended after a reply is one line |
| Terminal.FarewellIsPlain | src/App.js:171-174 | the texts printed on `EXIT` each fit one line |
| Terminal.BasicAnswerPlain | src/App.js:146-165 | every text the BASIC interpreter prints after the echo fits one line |
| Terminal.AddedLinesStep | src/App.js:82-85 | one more `addLine` call extends what the earlier calls appended |
| Terminal.Overlay | src/App.js:116-126 | writing blocks from `base` on keeps every line below `base`; it puts block k at `base + k`; it keeps the lines beyond the blocks; the new length is max(old length, base + number of blocks) |
| Terminal.OverlayCovers | src/App.js:119-125 | when the blocks reach at least the old last line, the result is the lines below `base` followed by the blocks |
| Terminal.Typewritten | src/App.js:113-126 | the typewriter's lines from its base on: the reserved empty line before the first tick, then the revealed text's prefixed blocks; `TypewrittenComplete` and `TypewrittenGrows` state its properties |
| Terminal.TypewrittenComplete | src/App.js:101-113 | once the whole non-empty body is revealed, the typewriter's lines are `splitWithPrefix(text)` |
| Terminal.TypewrittenGrows | src/App.js:111-126 | revealing one more character never shrinks the number of lines the reveal occupies |
| Terminal.Terminal.Valid | src/App.js:89-133 | the invariant every method keeps: the input has at most 80 characters, and while typing the lines from `base` on are exactly what the typewriter has revealed |
| Terminal.Terminal.constructor | src/App.js:48-60 | the boot screen, empty input, BASIC mode, not typing, and a history holding the system prompt |
| Terminal.Terminal.AddLine | src/App.js:82-85 | the lines afterwards are the old lines followed by the text's lines |
| Terminal.Terminal.AddLines | src/App.js:148-152 | consecutive `addLine` calls append their lines in call order |
| Terminal.Terminal.HandleChange | src/App.js:227-229 | the input becomes the new value if it has at most 80 characters; otherwise it is unchanged |
| Terminal.Terminal.WriteChunks | src/App.js:116-127 | the `forEach` that pushes or overwrites produces `Overlay(old lines, base, blocks)` |
| Terminal.Terminal.StartTyping | src/App.js:89-107 | typing starts: one empty line is reserved at index `base` = old length; the prefix and body are split off; nothing has been revealed yet |
| Terminal.Terminal.RevealNext | src/App.js:111-127 | one more body character is revealed, and the lines become the overlay of the revealed text's prefixed blocks at `base` |
| Terminal.Terminal.Finish | src/App.js:128-132 | typing ends, the prompt line is appended and the input is cleared |
| Terminal.Terminal.Tick | src/App.js:110-133 | the lines below `base` never change; a tick reveals the next character while one remains, otherwise it stops typing and runs the completion callback |
| Terminal.Terminal.Animate | src/App.js:110-133 | the interval runs exactly one tick per remaining character plus one final tick; then `typed` is the whole body; the lines are the untouched lines below `base`, then the typed blocks, then the prompt |
| Terminal.Terminal.TypeOut | src/App.js:89-134 | a whole `simulateTyping(text)` appends `splitWithPrefix(text)`, or a single empty line for an empty body, and then the prompt, taking one tick per body character plus one |
| Terminal.Terminal.ReceiveReply | src/App.js:182-185 | the reply joins the history; a message reply starts the typewriter on "< " + the upper-cased content; an error reply types nothing and leaves the lines and a running typewriter (its base, prefix, body, revealed text and position) untouched |
| Terminal.Terminal.BasicCommand | src/App.js:143-165 | BASIC mode: the command is echoed; then either the five loading lines followed by chat mode on, or the three listing lines and `READY.`, or `?SYNTAX ERROR` and `READY.` |
| Terminal.Terminal.ChatCommand | src/App.js:166-190 | chat mode: the command is echoed with "> "; `EXIT` prints the farewell and leaves chat mode; anything else joins the history as a user message, and the request is the last min(12, n) entries of the history |
| Terminal.Terminal.HandleCommand | src/App.js:137-192 | a no-op unless the key is Enter and no reply is being typed; otherwise the input is upper-cased and cleared, then handled per mode as above; the typewriter's base, prefix, body, revealed text and position never change |
| Server.Truthy | server.mjs:33 | JavaScript truthiness of a JSON value: everything but null, false, 0 and the empty string; `VerifyPassword` and `PlanChat` state the resulting rejections |
| Server.ConfiguredPassword | server.mjs:38 | the configured password when it is set and non-empty, otherwise "pass123"; never empty |
| Server.VerifyPassword | server.mjs:28-46 | 400 "Invalid password format" exactly when the password is missing, empty or not a string; otherwise 200 with `valid` true exactly when the password and the configured password are equal ignoring case |
| Server.PasswordCaseInsensitive | server.mjs:40-41 | a password and its upper-cased form get the same verdict |
| Server.PasswordSymmetric | server.mjs:41 | swapping the typed and the configured password gives the same verdict |
| Server.DefaultPasswordAccepted | server.mjs:38-41 | with no password configured, exactly the strings equal to "pass123" ignoring case are accepted |
| Server.PlanChat | server.mjs:56-64 | anything but an array is rejected with 400 "Invalid messages format"; an array, even an empty one, is forwarded as its last min(20, n) entries, which form a suffix of it |
| Server.Answer | server.mjs:73-85 | 200 with the first choice's message exactly on a completion with a choice; 429 exactly for a 429 failure; a 429 carries "Rate limit exceeded. Please try again later."; a 401 failure gives 500 "API key configuration error"; any other failure and a completion without choices give 500 "OpenAI request failed" |
| Server.HandleChat | server.mjs:54-86 | an invalid request is answered 400; a valid one is answered with the mapping of what the service returns for the forwarded messages |
| Server.InvalidChatSkipsCompletion | server.mjs:59-61 | for an invalid request, the answer is 400 and is the same whatever the completion service would return |
| Server.ForwardedWindow | server.mjs:64 | the forwarded list holds min(20, n) entries, and entry k is entry n - min(20, n) + k of the request, so order is kept |
| Server.ClientWindowForwardedWhole | server.mjs:64 | a request holding the browser's last 12 entries is forwarded unchanged |
| Ascii.UpperChar | src/App.js:140 | one character upper-cased: 'a'..'z' become 'A'..'Z', everything else is kept |
| Ascii.Upper | src/App.js:140 | upper-casing keeps the length and maps each character by itself: 'a'..'z' to 'A'..'Z', any other character unchanged |
| Ascii.UpperIdempotent | src/App.js:140 | upper-casing twice is upper-casing once |
| Ascii.SameIgnoringCaseCharwise | server.mjs:40-41 | two strings compare equal after upper-casing exactly when they have the same length and agree position by position after upper-casing |
| Ascii.SameIgnoringCaseIsEquivalence | server.mjs:41 | comparing after upper-casing is reflexive, symmetric and transitive |
| Ascii.UpperSameIgnoringCase | server.mjs:41 | a string equals its upper-cased form ignoring case |
| Recent.Last | server.mjs:64 | `slice(-n)` for positive n: min(n, len) elements, forming a suffix of the input |
| Recent.LastInOrder | src/App.js:182 | element k of the window is element len - min(n, len) + k of the history |
| Recent.LastAppend | src/App.js:179-182 | adding one entry and taking the window again gives the old window plus the entry, shifted by one once the window is full |
| Recent.LastWithin | server.mjs:64 | a history that fits the window passes unchanged, and a narrower window survives a wider one |

## Left out

- Rendering is not modelled: JSX, inline styles, the blink keyframes, focus and auto-scroll effects, and the `"> "` shown before the input in chat mode.
- Timers are not modelled: the 30 ms interval, the 100/1000/500 ms timeouts and React's batching of state updates. Each is one sequential step.
- A reply that arrives while another is being typed restarts the typewriter, as `clearInterval` does (`StartTyping`). The history-update race between two overlapping chat requests is not modelled: `ReceiveReply` appends to the current history, not to the copy captured when the command was sent.
- The network calls are not modelled: `fetch` to the proxy and the completion call. The request is the value `HandleCommand` returns, the reply is the argument of `ReceiveReply`, and on the server the service is a function parameter.
- The server's `Failure` outcome carries the value of `err.response?.status`. The SDK's own error objects are not part of this model.
- Ascii.Upper: handles the ASCII letters only. `toUpperCase` also maps other letters, and some of them change the string's length.
- Characters are Dafny characters. JavaScript strings count UTF-16 code units, so the 46- and 80-character bounds differ for characters outside the Basic Multilingual Plane.
- Server.Value: JSON numbers are integers, so `NaN` as a falsy value is not modelled.
- The catch-all 500 "Password verification failed" is not modelled. Nothing the handler does on a string password can throw.
- An error reply is not modelled beyond its first step. It has no `content`, so `reply.content.toUpperCase()` throws after the reply has joined the history. The model records the history update and types nothing.
- The server's plumbing is not modelled: the Express set-up, CORS, the body size limit, request logging, the health endpoint, static files, the start-up banner and shutdown handling.
- The model, temperature and token limit sent to the completion service are not modelled.
