# Petoncle core, modelled in Dafny

Petoncle wraps an interactive shell in a pseudo-terminal and adds an AI chat overlay for
pentesters. This project models its sequential core and proves properties of it. The model has
two halves.

The Rust half:

- **Capture engine** (`CommandCapture`, src/capture.rs). The shell hook announces each command
  with OSC 133 control strings: `ESC ] 133 ; C ; <command> BEL` before the command runs and
  `ESC ] 133 ; D ; <exit status> BEL` after it (ECMA-48 section 8.3.89, with the BEL terminator
  xterm accepts). The engine keeps three things: an append-only history of records, at most one
  open record, and a window of the last 4096 bytes of output that feeds a prompt heuristic.
  Text is modelled as the UTF-8 bytes of Rust's `&str`.
- **Key encoder and the two terminal loops** (src/main.rs). `key_event_to_bytes` turns a key
  press into bytes for the shell. `input_loop` dispatches key presses. The reader thread handles
  each chunk read from the shell: it feeds the capture engine, keeps a buffer of at most
  100 000 bytes, and echoes to the terminal unless the chat has paused the echo.
  `enter_chat_mode` sets and clears that pause flag.
- **Chat overlay state** (`ChatState`, src/chat.rs). This covers the message list and scrolling,
  the loading message shown while a request is pending, the spinner, and the key and paste arms of
  `run_chat_loop`.

The Python half:

- **Intent router** (python/agents/orchestrator.py). It scores a message against three keyword
  lists and routes it to an agent.
- **Command extractor** (python/agent_service.py, `_extract_commands`). It picks up to nine
  command lines from an agent's reply.
- **Conversation bookkeeping** (`ChatAgent`, python/agents/chat_agent.py). It builds the system
  prompt, keeps a history of at most twenty entries after a successful call, and classifies
  failed calls.

Every object whose fields the source updates in place is a Dafny `class`:

- `Capture.CommandCapture`;
- `Chat.ChatState`;
- `Conversation.ChatAgent`;
- `Multiplexer.Session`, which holds the state the reader thread and the input loop share.

Each method of these classes is proved against a pure transition function. The lemmas prove what
the source promises about those functions. The loops of the source are `while` loops with their
invariants:

- `count_total_lines`;
- the cleaning loop of `strip_osc_sequences`;
- the scoring loop of `detect_intent`;
- the nested loops of `_extract_commands`;
- the reader thread and `input_loop`.

The environment is passed in as data. This covers:

- the next terminal event;
- whether a write to the shell or a terminal step fails;
- what a read from the shell returns;
- the result of the gRPC or Mistral call;
- the clock, as integer nanoseconds or as an opaque integer timestamp.

Shared modules:

- `Text`: sequence search, split, join and Rust `str::lines`;
- `Utf8`: well-formedness per table 3-7 of the Unicode Standard, character encoding and
  boundaries;
- `PyStr`: Python `isspace`, `strip` and `lower`;
- `Wrappers`: `Option` and `Result`.

An end marker only sets the open record's exit status. A record reaches the history only when the
next command starts (see `Capture.EndMarkerOnlySetsExitCode` and `Capture.ListingScenario`).

Four corrections are built into the model; see "## Findings":

- **Window trim**: `CommandCapture` trims the prompt window with the corrected `KeepTail`.
- **Prompt heuristic**: `CommandCapture.ProcessOutput` answers with the corrected `DetectPrompt`,
  which checks the prompt endings before the window is trimmed.
- **Scrolling down**: `ChatState.ScrollDown` uses the corrected `ScrollDownOffset`.
- **Key encoder**: `KeyToBytes` uses the corrected `FunctionKeyBytes`. The as-written members
  stand beside the corrected ones with the counterexamples.

Three more behaviours are modelled as the source has them and left uncorrected:

- **Long chats**: `Chat.MaxScrollWraps` shows that the scroll offset is truncated to 16 bits.
  Past 65 535 lines, `scroll_to_bottom` therefore lands near the top of the chat instead of at
  its end.
- **Reads that end inside a character**: `Multiplexer.SplitCharacterChunkIsSkipped` shows that
  such a read is not well-formed UTF-8, so the capture engine sees none of it. Any OSC 133
  marker in that read is lost with it.
- **Failed calls**: `Conversation.FailuresPassTheCap` shows that the history is cut back only
  after a successful call. While calls keep failing it grows past `MAX_HISTORY_MESSAGES`.

## Model

| member | source | states |
|---|---|---|
| Capture.ParseI32 | src/capture.rs:115 | `str::parse::<i32>`: a parse succeeds only on an optional sign followed by one or more ASCII digits, and its value is those digits' value, negated exactly when the sign is a minus |
| Capture.ParseFormatI32 | src/capture.rs:114-115 | parsing the status the shell hook prints gives that status back, for every i32 |
| Capture.ParseUnsigned | src/capture.rs:115 | digits alone parse to their value exactly when it is below 2^31 |
| Capture.ParsePlus | src/capture.rs:115 | a plus sign followed by digits parses to their value exactly when it is below 2^31 |
| Capture.ParseNegative | src/capture.rs:115 | a minus sign followed by digits parses to the negated value exactly when it is at least -2^31 |
| Capture.CapturedCommand.AppendOutput | src/capture.rs:35-37 | `append_output`: the new output is the old output followed by the chunk; command, status, time and directory are unchanged |
| Capture.CapturedCommand.SetExitCode | src/capture.rs:40-42 | `set_exit_code`: the status becomes the given one, whatever it was; everything else is unchanged |
| Capture.NewCommand | src/capture.rs:24-32 | `CapturedCommand::new`: the given command and directory, no output and no status |
| Capture.RecordCompletion | src/capture.rs:24-47 | `is_complete`: a new record is incomplete, appending output leaves completeness as it was, and setting a status completes the record |
| Capture.FindMarker | src/capture.rs:97-98 | only the FIRST occurrence of a marker prefix counts, together with the first BEL after it; a marker is found iff both exist |
| Capture.MarkerFoundIffClosed | src/capture.rs:97-98 | a payload is found exactly when some occurrence of the prefix has a BEL somewhere after it |
| Capture.MarkerPayloadShape | src/capture.rs:99 | the payload holds no BEL and is followed by BEL right after the prefix's first occurrence |
| Capture.StripOnce | src/capture.rs:130-132 | one cleaning step makes the text strictly shorter |
| Capture.StripOnceApplies | src/capture.rs:130-135 | a step applies exactly when some `ESC ] 133 ;` has a BEL after it; otherwise the loop stops |
| Capture.StripOnceDeletes | src/capture.rs:132 | a step only deletes bytes (multiset inclusion) |
| Capture.Stripped | src/capture.rs:126-139 | the cleaning loop stops only on text to which no further cleaning step applies |
| Capture.StrippedHasNoClosedMarker | src/capture.rs:130-136 | cleaned output holds no `ESC ] 133 ;` with a BEL after it |
| Capture.StrippedOnlyDeletes | src/capture.rs:126-139 | cleaning never adds or changes a byte and never lengthens the text |
| Capture.StrippedUnchanged | src/capture.rs:126-139 | output without the marker prefix, or without any BEL, is returned unchanged |
| Capture.StrippedIdempotent | src/capture.rs:126-139 | cleaning twice is cleaning once |
| Capture.StartArchivesOpenRecord | src/capture.rs:180-189 | `start_command` appends the open record (if any) to the end of the history and opens a fresh, incomplete record with no output |
| Capture.FinalizeCompletesOpenRecord | src/capture.rs:192-196 | `finalize_command` sets the open record's exit status, making it complete; it never touches the history and does nothing without an open record |
| Capture.ChunkHistoryAppendOnly | src/capture.rs:103-105 | each chunk keeps the old history as a prefix and adds at most one record; it adds one iff a start marker arrives while a record is open, and that record is the one added |
| Capture.ChunkWithStartMarkerOpensRecord | src/capture.rs:73-109 | a chunk with a start marker opens a record whose command is the payload, whose output is the whole cleaned chunk (text before the marker included) and whose status is the one the same chunk announces |
| Capture.EndMarkerOnlySetsExitCode | src/capture.rs:112-122 | an end marker whose payload parses overwrites the open record's exit status; any other end marker, or none, changes nothing; it never moves a record to the history |
| Capture.ChunkOutputGoesToOpenRecord | src/capture.rs:84-88 | the cleaned chunk is appended to the record open AFTER the markers are parsed; with none open it is dropped |
| Capture.StartHookRoundTrip | src/capture.rs:97-109 | a chunk that is exactly the hook's start marker for a command opens a record for that command |
| Capture.EndHookRoundTrip | src/capture.rs:112-122 | a chunk that is exactly the hook's end marker for a status sets that status on the open record |
| Capture.WholeCommandChunk | src/capture.rs:73-92 | a chunk holding start marker, output and end marker opens one record with that command, exactly that output and that status |
| Capture.ListingScenario | src/capture.rs:73-92 | `ESC]133;C;ls -la BEL total 0 LF ESC]133;D;0 BEL` on an empty engine leaves an empty history and one open, complete record |
| Capture.DrainAsWritten | src/capture.rs:79-82 | the trim as written panics exactly when the window exceeds 4096 bytes and the cut falls off a character boundary; otherwise it keeps a suffix of at most 4096 bytes |
| Capture.DrainPanicsInsideCharacter | src/capture.rs:80-82 | on "é" followed by 4095 'a' (well-formed UTF-8) the window trim as written cuts inside a character, i.e. panics |
| Capture.KeepTail | src/capture.rs:79-82 | corrected trim: the window is a suffix of the old window plus the chunk, at most 4096 bytes, well-formed, at most three bytes short of 4096, and equal to the code as written whenever that does not panic |
| Capture.TrailingSpaceChar | src/capture.rs:144 | whatever the byte table takes for a trailing white-space character is the UTF-8 encoding of a character with Rust's White_Space property |
| Capture.TrailingSpaceComplete | src/capture.rs:144 | conversely, every White_Space character at the end of any text is recognised with its full width |
| Capture.TrimEnd | src/capture.rs:144 | Rust `trim_end`: a prefix of the input that ends in no Unicode white space, and the input itself when it does not end in white space |
| Capture.TrimEndCutsOnlySpace | src/capture.rs:144 | what `trim_end` cuts is the encoding of a run of White_Space characters; with the two rows above it is the longest such run |
| Capture.DetectPromptAsWritten | src/capture.rs:142-177 | `detect_prompt` as written: a window that is empty or all white space is never a prompt (the full decision is stated by the next row) |
| Capture.DetectPromptCharacterization | src/capture.rs:142-177 | `detect_prompt` as written is true iff the trimmed window is non-empty, its last line is under 200 bytes, and that line holds "➜" or the window holds `ESC [ 0 m`; the checks for endings in a space can never fire |
| Capture.DetectPromptOnText | src/capture.rs:143-173 | as written, on a window that is not all white space, the decision depends only on the arrow, the reset sequence and the 200-byte limit |
| Capture.PlainTextIsNoPromptAsWritten | src/capture.rs:143-173 | as written, a window holding neither the first byte of "➜" nor ESC is never a prompt, whatever it ends with |
| Capture.PromptTestAsWrittenFails | src/capture.rs:220-231 | as written, the two windows the prompt test expects to be prompts ("some output" LF "user@host:~/projects % ", and "~ % ") are not prompts |
| Capture.DetectPrompt | src/capture.rs:142-177 | corrected `detect_prompt`: every window the code as written takes for a prompt is still one |
| Capture.PromptEndingIsPrompt | src/capture.rs:148-166 | corrected: a window ending in "% ", "$ ", "λ ", "❯ ", "> ", "→ ", "» " or "✗ " is a prompt |
| Capture.PlainLineIsNoPrompt | src/capture.rs:143-177 | corrected: a window holding neither the first byte of "➜" nor ESC, whose last line does not end in a space, is not a prompt |
| Capture.PromptTestIntended | src/capture.rs:220-231 | corrected: the prompt test holds: no prompt after "some output" LF, a prompt once "user@host:~/projects % " follows, and a prompt on "~ % " |
| Capture.CommandCapture.constructor | src/capture.rs:63-69 | empty history, no open record, empty window |
| Capture.CommandCapture.ProcessOutput | src/capture.rs:73-92 | the history and open record follow the chunk transition; the window is the corrected trim of old window plus chunk and a suffix of it; the result is the corrected `detect_prompt` on the new window |
| Capture.CommandCapture.ParseOscSequences | src/capture.rs:95-123 | start marker first, then end marker, as the marker transition says |
| Capture.CommandCapture.StripOscSequences | src/capture.rs:126-139 | the in-place cleaning loop computes the cleaned text |
| Capture.CommandCapture.StripFirstMarker | src/capture.rs:130-135 | one pass of the cleaning loop: it removes something exactly when a cleaning step applies, and removes what that step removes |
| Capture.CommandCapture.StartCommand | src/capture.rs:180-189 | the state follows the `start_command` transition |
| Capture.CommandCapture.FinalizeCommand | src/capture.rs:192-196 | the state follows the `finalize_command` transition |
| Capture.CommandCapture.GetCommands | src/capture.rs:199-201 | returns the history |
| Capture.CommandCapture.Current | src/capture.rs:204-206 | returns the open record |
| Capture.CommandCapture.Clear | src/capture.rs:209-213 | empties the history, the open record and the window |
| Multiplexer.KeyToBytes | src/main.rs:359-402 | every key press encodes to at most five bytes of well-formed UTF-8 |
| Multiplexer.ControlKeysUseCaretNotation | src/main.rs:362-372 | Ctrl with 'a'..'z' or `@ [ \ ] ^ _` sends the single caret-notation code (1..26 for letters), computed independently of the encoder |
| Multiplexer.OtherCharactersAreUtf8 | src/main.rs:361-377 | every other character, with or without Ctrl (upper-case letters included), is sent as its UTF-8 encoding |
| Multiplexer.SilentKeys | src/main.rs:392-401 | a key sends nothing exactly when it is an unlisted key or a function key outside F1..F12 |
| Multiplexer.FunctionKeys | src/main.rs:392-399 | F1..F4 send `ESC O P..S`; F5..F12 send `ESC [ d d ~` with a number that grows with the key |
| Multiplexer.FunctionKeyBytesAsWritten | src/main.rs:392-399 | the function-key arm as written: F5..F12 send the four bytes `ESC [ ('0' + n - 5) ~`; every other key number sends what the corrected encoding sends |
| Multiplexer.FunctionKeysAsWrittenCollide | src/main.rs:388-397 | as written, F7, F8, F10 and F11 send exactly the bytes of Insert, Delete, Page Up and Page Down |
| Multiplexer.FunctionKeyBytes | src/main.rs:392-399 | corrected function-key encoding (xterm numbering): at most five bytes of well-formed UTF-8 |
| Multiplexer.SpecialKeysDecode | src/main.rs:378-401 | every non-character key that sends something can be read back from its bytes |
| Multiplexer.SpecialKeysAreDistinguishable | src/main.rs:378-401 | two different non-character keys that send something send different bytes |
| Multiplexer.Dispatch | src/main.rs:276-314 | a key press is sent only as its own non-empty encoding, and ignored only when it encodes to nothing |
| Multiplexer.DispatchSendsTheEncoding | src/main.rs:276-314 | '!' without Ctrl opens the chat whatever the other modifiers; Ctrl+D sends EOT; every other key press that encodes to something sends exactly its encoding, and the rest are ignored |
| Multiplexer.ChatModeLeavesEchoPausedOnTerminalFailure | src/main.rs:328-356 | after `enter_chat_mode` the echo is still paused exactly when a terminal step failed; the chat loop's own result is passed on |
| Multiplexer.UndisturbedLoopForwardsEveryKey | src/main.rs:268-323 | when nothing fails, the input loop writes to the shell exactly the encodings of the keys typed, in order, except those that open the chat, and it keeps running |
| Multiplexer.WriteFailures | src/main.rs:294-314 | a failed EOT write is ignored and the loop goes on; a failed write of any other key ends the loop with nothing more written |
| Multiplexer.Retain | src/main.rs:207-214 | the retained buffer after a read is a suffix of the old buffer plus the chunk, never longer than both together |
| Multiplexer.RetainDropsOldest | src/main.rs:207-214 | the retained buffer is a suffix of old plus chunk; exactly the oldest 50 000 bytes go, and only when it exceeds 100 000 |
| Multiplexer.RetainStaysBounded | src/main.rs:181-214 | a buffer of at most 100 000 bytes stays within 100 000 after a read of at most 8192 |
| Multiplexer.RetainedIsSuffixOfAllRead | src/main.rs:207-214 | after any series of reads the retained buffer is a suffix of everything read |
| Multiplexer.RetainedStaysBounded | src/main.rs:181-214 | after any series of reads of at most 8192 bytes the buffer holds at most 100 000 |
| Multiplexer.SplitCharacterChunkIsSkipped | src/main.rs:198-204 | a chunk ending on the leading byte of a split character is not given to the capture engine at all |
| Multiplexer.Session.constructor | src/main.rs:156-173 | running, not paused, empty retained buffer, nothing echoed or written |
| Multiplexer.Session.ConsumeChunk | src/main.rs:193-219 | the capture engine gets a well-formed chunk, the retained buffer always, the terminal while not paused; the prompt window grows by the chunk and is trimmed when the chunk is well-formed, and stays as it was otherwise |
| Multiplexer.Session.FeedCapture | src/main.rs:198-204 | the capture engine's history, open record and prompt window change only for a well-formed chunk |
| Multiplexer.Session.ReadOne | src/main.rs:186-226 | a read with data is consumed and the thread goes on; end of file or an error clears `running` |
| Multiplexer.Session.ReaderLoop | src/main.rs:179-228 | the thread consumes reads until the first that is not data; the retained buffer, echo and capture log are what those reads make of the start |
| Multiplexer.Session.EnterChatMode | src/main.rs:328-356 | pauses the echo first and resumes it only when no terminal step failed; returns the chat loop's result, or the terminal failure |
| Multiplexer.Session.InputIterationStep | src/main.rs:269-321 | one iteration writes, pauses and stops as the iteration function says |
| Multiplexer.Session.InputLoop | src/main.rs:258-325 | the writes, final pause flag and ending of the loop are those of the run function |
| Text.LinesCount | src/chat.rs:89 | Rust `lines().count()`: the number of line feeds, plus one for an unterminated last line |
| Chat.TotalLinesAppend | src/chat.rs:84-95 | adding a message adds 5 plus its line count to the total |
| Chat.TotalLinesAtLeast | src/chat.rs:84-95 | the total is at least 5 per message, and at least 5 plus the line feeds of any one message |
| Chat.MaxScroll | src/chat.rs:111-120 | 0 when everything fits; otherwise total minus visible, truncated to u16 by `as u16` |
| Chat.MaxScrollWraps | src/chat.rs:104-116 | the `as u16` truncation: 65 561 lines in a 20-line view give a maximum offset of 5 |
| Chat.ScrollDownAsWrittenWraps | src/chat.rs:125 | as written, offset 65 530 scrolled down by 10 (maximum 65 530) wraps to 4; corrected, it stays at 65 530 |
| Chat.ScrollDownOffsetAsWritten | src/chat.rs:123-127 | scroll down as written: never past the maximum, but whenever offset + n overflows u16 the view moves UP, above the old offset |
| Chat.ScrollDownOffset | src/chat.rs:123-127 | corrected scroll down is min(offset + n, maximum): exactly offset + n when that fits, the maximum otherwise; never moves up from a valid offset |
| Chat.ScrollDownAgreesBelowWrap | src/chat.rs:125 | the correction agrees with the code as written whenever offset + n fits in u16 |
| Chat.ScrollUpOffset | src/chat.rs:130-133 | saturating subtraction: offset - n, or 0 |
| Chat.OnlyLastLoadingIsExactlyOne | src/chat.rs:157-175 | with a request pending, exactly one message is loading and it is the last |
| Chat.AppendReady | src/chat.rs:135-155 | appending a ready message keeps "no message is loading" |
| Chat.AppendLoading | src/chat.rs:157-166 | appending the loading message to a list without one makes it the only one, at the end |
| Chat.UpdateLast | src/chat.rs:168-175 | keeps the length and every earlier message; sets the last one's content, state Ready and agent; nothing on an empty list |
| Chat.UpdateLastClosesLoading | src/chat.rs:168-175 | updating the last message when only it was loading leaves none loading |
| Chat.InitialIsValid | src/chat.rs:58-81 | the new state holds one welcome message, nothing pending, and satisfies the loading invariant |
| Chat.SubmitOnlyWhenIdle | src/chat.rs:474-484 | Enter changes the state iff the input is not empty and nothing is pending; it then appends the user's message and the loading message, clears the input, sends the text and leaves a request pending |
| Chat.SubmitKeepsInvariant | src/chat.rs:474-484 | Enter preserves the loading invariant |
| Chat.CheckResponseOnlyWhenArrived | src/chat.rs:222-239 | `check_response` returns true iff a result has arrived; it then answers the last message, keeps the others and clears the pending request; otherwise it changes nothing |
| Chat.CheckResponseKeepsInvariant | src/chat.rs:222-239 | `check_response` preserves the loading invariant |
| Chat.FailedCallArrivesAsReply | src/chat.rs:199-211 | a failed call arrives as a successful reply: the service-unavailable text from agent "error" |
| Chat.SpinnerStaysInRange | src/chat.rs:242-247 | the frame stays below 10 and advances by one modulo 10 only after more than 80 ms |
| Chat.PollKeepsInvariant | src/chat.rs:407-413 | one poll (check the response, then tick the spinner while pending) preserves the loading invariant |
| Chat.OnEvent | src/chat.rs:434-496 | an event closes the chat exactly when it is Esc, and only Enter changes the messages, the pending request or the text sent |
| Chat.OnEventKeepsInvariant | src/chat.rs:436-493 | every paste or key event preserves the loading invariant |
| Chat.EditingKeys | src/chat.rs:436-493 | only Esc closes; paste and Char append; Backspace pops one character (nothing on empty input); Home goes to the top and stops auto-scroll; End requests auto-scroll |
| Chat.ScrollKeysStayInBounds | src/chat.rs:449-464 | Up/PageUp never move down; Down/PageDown never pass the maximum offset; all four stop auto-scroll and touch nothing else |
| Chat.Pop | src/chat.rs:489-492 | `String::pop`: drops the last character, or nothing |
| Chat.ChatState.constructor | src/chat.rs:58-81 | the initial state, which is valid |
| Chat.ChatState.CountTotalLines | src/chat.rs:84-95 | the loop computes the total line count |
| Chat.ChatState.ScrollToBottom | src/chat.rs:98-108 | sets the offset to the maximum offset and nothing else |
| Chat.ChatState.MaxScrollOffset | src/chat.rs:111-120 | returns the maximum offset, which never exceeds the total |
| Chat.ChatState.ScrollDown | src/chat.rs:123-127 | sets the corrected scroll-down offset and clears auto-scroll |
| Chat.ChatState.ScrollUp | src/chat.rs:130-133 | sets the saturating scroll-up offset and clears auto-scroll |
| Chat.ChatState.AddUserMessage | src/chat.rs:135-144 | appends a ready user message without agent; keeps the invariant while nothing is pending |
| Chat.ChatState.AddAssistantMessage | src/chat.rs:146-155 | appends a ready assistant message; keeps the invariant while nothing is pending |
| Chat.ChatState.AddLoadingMessage | src/chat.rs:157-166 | appends the loading message without agent |
| Chat.ChatState.UpdateLastMessage | src/chat.rs:168-175 | the state follows `UpdateLast` |
| Chat.ChatState.ClearInput | src/chat.rs:177-179 | empties the input and nothing else |
| Chat.ChatState.StartGenerateResponse | src/chat.rs:182-219 | sends the text, leaves a request pending and appends the loading message; keeps the invariant from an idle state |
| Chat.ChatState.Deliver | src/chat.rs:193-211 | the worker's result (failures turned into the unavailable reply) arrives |
| Chat.ChatState.CheckResponse | src/chat.rs:222-239 | the state and result follow the `check_response` transition |
| Chat.ChatState.UpdateSpinner | src/chat.rs:242-247 | the state follows the spinner transition |
| Chat.ChatState.PollStep | src/chat.rs:407-413 | the state follows one poll |
| Chat.ChatState.HandleEvent | src/chat.rs:434-496 | the state and "closed" result follow the event transition |
| PyStr.Lower | python/agents/orchestrator.py:38 | `str.lower` keeps the length and lowers each character on its own |
| PyStr.LowerIdempotent | python/agents/orchestrator.py:38 | lowering twice is lowering once, so lowering the message again changes nothing |
| Orchestration.IntentName | python/agents/orchestrator.py:28 | the result is always one of "command_help", "research", "report", "general" |
| Orchestration.Score | python/agents/orchestrator.py:43 | the score is at most the number of keywords, and 0 exactly when no keyword is a substring |
| Orchestration.ScoreSingle | python/agents/orchestrator.py:43 | one keyword scores 1 when it is a substring of the text and 0 otherwise |
| Orchestration.ScoreAppend | python/agents/orchestrator.py:43 | the score of two keyword lists together is the sum of their scores, so a score counts the keywords that occur, one per list entry |
| Orchestration.Scores | python/agents/orchestrator.py:41-44 | one score per keyword list, in order |
| Orchestration.MaxOf | python/agents/orchestrator.py:47 | `max`: one of the values, and no value is larger |
| Orchestration.ChosenIndex | python/agents/orchestrator.py:47-51 | the chosen position, if any, is a position of the table |
| Orchestration.NoneIffNoKeyword | python/agents/orchestrator.py:41-51 | for any table, nothing is chosen iff no keyword of any list is a substring |
| Orchestration.ChosenIsFirstBest | python/agents/orchestrator.py:47-48 | for any table, the chosen list scores above 0 and highest, and every earlier list scores strictly less (first wins a tie) |
| Orchestration.IntentAt | python/agents/orchestrator.py:47-51 | "general" iff nothing is chosen; otherwise the intent at the chosen position |
| Orchestration.GeneralIffNoKeyword | python/agents/orchestrator.py:38-51 | the intent is "general" iff no keyword of `INTENT_KEYWORDS` occurs in the lowered message |
| Orchestration.ChosenIntentIsFirstBest | python/agents/orchestrator.py:41-48 | any other intent has maximal score, and every intent listed before it scores strictly less |
| Orchestration.ChooseIndex | python/agents/orchestrator.py:41-48 | the scoring loop and the two `max` calls compute the first best position |
| Orchestration.DetectIntent | python/agents/orchestrator.py:28-51 | the intent depends only on the lowered message and is the chosen one |
| Orchestration.Route | python/agents/orchestrator.py:53-76 | the detected intent, the table's agent for it, and the message unchanged |
| PyStr.Strip | python/agent_service.py:85 | `str.strip()` never lengthens, and a non-empty result starts and ends on a non-space |
| PyStr.StripCutsOnlySpace | python/agent_service.py:85 | the result is a slice of the input, and everything cut is white space |
| PyStr.StripEmpty | python/agent_service.py:85 | the result is empty iff the line is all white space |
| PyStr.StripIdempotent | python/agent_service.py:85 | stripping twice is stripping once |
| AgentService.KeepLine | python/agent_service.py:85-89 | each line contributes at most one element |
| AgentService.KeptAppend | python/agent_service.py:84-89 | kept lines follow line order: two blocks of lines give their kept lines in the order of the blocks |
| AgentService.KeptElements | python/agent_service.py:84-89 | no more elements than lines; each element is stripped and starts with a prefix followed by a space |
| AgentService.KeptStep | python/agent_service.py:84-89 | one more line extends the kept lines by that line's contribution only |
| AgentService.Take | python/agent_service.py:91 | `s[:n]`: the first min(n, len) elements |
| AgentService.EmptyTextGivesNothing | python/agent_service.py:84-91 | empty text gives no command |
| AgentService.MatchLine | python/agent_service.py:85-89 | the inner loop with `break` strips the line and matches iff some prefix plus a space starts it |
| AgentService.ExtractCommands | python/agent_service.py:74-91 | the result is the first nine kept lines, at most nine, each a stripped line starting with a prefix plus a space |
| Conversation.ShellLines | python/agents/chat_agent.py:59 | one "$ cmd" line per command, in order |
| Conversation.SystemPrompt | python/agents/chat_agent.py:45-60 | the base prompt for no or empty context; otherwise the base prompt, "\n\nRecent terminal commands:\n", then the command block |
| Conversation.ContextLinesRecoverable | python/agents/chat_agent.py:58-60 | the command block splits back into 1 to 5 "$ cmd" lines whose commands are the last ones of the context |
| Conversation.Classify | python/agents/chat_agent.py:80-88 | an exception re-raised is raised unchanged |
| Conversation.ClassifyOrder | python/agents/chat_agent.py:82-88 | "timeout" in the lowered text gives the timeout error, checked first; otherwise "connection" or "network" gives the connection error; otherwise re-raise |
| Conversation.Answered | python/agents/chat_agent.py:93-102 | after an answer the history holds at most twenty entries and is a suffix of the old history followed by the question and the answer |
| Conversation.Failed | python/agents/chat_agent.py:63-88 | after a failed call the history is one entry longer: the old history intact, then the question |
| Conversation.AnsweredKeepsRecent | python/agents/chat_agent.py:93-102 | after an answer the history is the last twenty of old history plus question and answer, and ends with the question followed by the answer |
| Conversation.FailuresPassTheCap | python/agents/chat_agent.py:63-88 | each failed call adds one entry untrimmed, so a full history of twenty grows past the cap |
| Conversation.ChatAgent.constructor | python/agents/chat_agent.py:31 | empty history |
| Conversation.ChatAgent.Chat | python/agents/chat_agent.py:33-104 | the request is the system prompt plus the history with the question; a failure is classified and leaves the question in the history; a success returns the reply and leaves the trimmed history |
| Conversation.ChatAgent.Reset | python/agents/chat_agent.py:106-108 | empties the history |

## Left out

- Terminal and process I/O is not modelled:
  - the PTY, spawning the shell and the zsh hook script (only the marker format is modelled);
  - raw mode, the alternate screen and `stdout` writes;
  - logging and `eprintln!` messages.
- Threads, `Arc`, `Mutex` and `AtomicBool` are not modelled. `Multiplexer.Session` keeps the
  shared state in one object, and each loop iteration is atomic.
- `render_chat_ui`, `centered_rect` and the draw and poll-timeout parts of `run_chat_loop` are not
  modelled. This includes their effect on `last_visible_height` and `auto_scroll`. The model
  takes `last_visible_height` as state that only the renderer changes.
- The gRPC client, the tokio runtime and the client swap in `start_generate_response` are not
  modelled. The worker's answer is a parameter of `ChatState.Deliver`.
- The mpsc channel is modelled as a three-state `Pending` value: idle, awaiting, or arrived with
  its result. A sender that disappears without sending is not modelled; with it, `try_recv`
  would keep failing and the request would stay pending forever.
- Timestamps (`Local::now`, `Instant`) are integer parameters. The spinner compares nanoseconds
  against 80 000 000.
- The working directory of a record is an uninterpreted byte string.
- `ChatAgent.__init__` is not modelled beyond the empty history. Reading the API key from the
  environment and creating the Mistral client are configuration and I/O.
- The Mistral call is the `call` parameter of `Conversation.ChatAgent.Chat`: a reply text or the
  text of the exception it raised.
- `usize` overflow in `count_total_lines` and in the spinner index is not modelled. Those counts
  are unbounded integers here; they cannot realistically reach 2^64.
- PyStr.Lower: lowers ASCII and Latin-1 upper-case letters only. Python's `str.lower` also covers
  the rest of Unicode, including characters whose lower case is longer. This can change
  `Conversation.Classify`: Python lowers KELVIN SIGN (U+212A) to 'k', so an exception text
  "NETWOR\u212A unreachable" becomes a connection error in Python but is re-raised by the model.
  `Orchestration.DetectIntent` is not affected. The other letters outside Latin-1 whose lower case
  falls in Latin-1 are U+0178 (to 'ÿ'), U+1E9E (to 'ß'), U+212B (to 'å') and U+0130 (to 'i'
  followed by U+0307). No intent keyword contains 'k', 'ÿ', 'ß' or 'å', and none ends in 'i'.
- The working copy that `strip_osc_sequences` drains in place is modelled as a sequence value
  that the loop reassigns.

## Findings

| source | as written | input that shows it | evidently intended | confidence | as-written member | corrected member |
|---|---|---|---|---|---|---|
| src/capture.rs:80-82 | `output_buffer.drain(..len - 4096)` cuts at a fixed byte offset, and `String::drain` panics when that offset is not a character boundary | a window holding "é" (bytes C3 A9) followed by 4095 'a': the cut at byte 1 falls inside "é" | keep at most the last 4096 bytes, cutting at the next character boundary | high (not executed) | Capture.DrainAsWritten, Capture.DrainPanicsInsideCharacter | Capture.KeepTail |
| src/capture.rs:143-166 | the window is trimmed with `trim_end` before its last line is checked for "% ", "$ " and the glyph endings, and every one of those endings finishes with a space, so none of these checks can fire | the module's own test: "~ % " and "some output" LF "user@host:~/projects % " are expected to be prompts, and neither is | check the endings on the last line of the window before trimming | high (not executed) | Capture.DetectPromptAsWritten, Capture.PromptTestAsWrittenFails | Capture.DetectPrompt, Capture.PromptEndingIsPrompt, Capture.PromptTestIntended |
| src/main.rs:397 | F5..F12 send `ESC [ ('0' + n - 5) ~` | F7 sends `ESC [ 2 ~`, which is Insert; likewise F8 is Delete, F10 is Page Up and F11 is Page Down | xterm's `ESC [ 15 ~`, `17 ~` … `24 ~`, so that every key is distinguishable | high (not executed) | Multiplexer.FunctionKeyBytesAsWritten, Multiplexer.FunctionKeysAsWrittenCollide | Multiplexer.FunctionKeyBytes, Multiplexer.SpecialKeysAreDistinguishable |
| src/chat.rs:125 | `(self.scroll_offset + n).min(max_offset)` adds in u16; a release build wraps around and a debug build panics | offset 65 530, n = 10, maximum offset 65 530: the sum wraps to 4 and the view jumps to the top | stay at the maximum offset | medium (not executed) | Chat.ScrollDownOffsetAsWritten, Chat.ScrollDownAsWrittenWraps | Chat.ScrollDownOffset, Chat.ScrollDownAgreesBelowWrap |
