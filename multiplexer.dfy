/**
 * The terminal multiplexer of src/main.rs: how a key press becomes bytes for the shell
 * (`key_event_to_bytes`), how the input loop dispatches key presses (`input_loop`), what the
 * reader thread does with each chunk it reads from the shell, and how `enter_chat_mode` sets and
 * clears the flag that pauses the shell's echo.
 *
 * Terminal I/O, the PTY and the threads are not modelled: what the environment answers (the next
 * event, whether a write fails, what a read returns, whether a terminal step fails) is passed in
 * as data. The state shared between the two threads is the class `Session`.
 */
module Multiplexer {
  import opened Wrappers
  import opened Text
  import opened Utf8
  import Capture

  type u8 = x: int | 0 <= x < 0x100

  datatype Modifier = Shift | Control | Alt | Super | Hyper | Meta

  /** The crossterm key codes the encoder distinguishes; `OtherKey` stands for all the rest. */
  datatype KeyCode =
    | Char(c: char)
    | Enter | Backspace | Tab | Esc
    | Up | Down | Right | Left | Home | End
    | PageUp | PageDown | Delete | Insert
    | F(n: u8)
    | OtherKey

  datatype KeyEvent = KeyEvent(code: KeyCode, modifiers: set<Modifier>)

  // ---------------------------------------------------------------------------------------------
  // key_event_to_bytes
  // ---------------------------------------------------------------------------------------------

  /** The characters that Ctrl turns into a C0 control code. */
  predicate HasCaretCode(c: char) {
    'a' <= c <= 'z' || c == '@' || c == '[' || c == '\\' || c == ']' || c == '^' || c == '_'
  }

  /** Caret notation, independently of the encoder: Ctrl+X is the code of upper-case X minus 0x40. */
  function CaretCode(c: char): int {
    (if 'a' <= c <= 'z' then c as int - 0x20 else c as int) - 0x40
  }

  /** `key_event_to_bytes`: what is written to the shell for one key press. */
  function KeyToBytes(ev: KeyEvent): (r: seq<byte>)
    ensures |r| <= 5 && Utf8.Valid(r)
  {
    match ev.code
    case Char(c) =>
      if Control in ev.modifiers then
        if 'a' <= c <= 'z' then AsciiBytes([c as int - 'a' as int + 1])
        else if c == '@' then AsciiBytes([0])
        else if c == '[' then AsciiBytes([27])
        else if c == '\\' then AsciiBytes([28])
        else if c == ']' then AsciiBytes([29])
        else if c == '^' then AsciiBytes([30])
        else if c == '_' then AsciiBytes([31])
        else Encode(c)
      else Encode(c)
    case Enter => AsciiBytes([0x0D])
    case Backspace => AsciiBytes([127])
    case Tab => AsciiBytes([0x09])
    case Esc => AsciiBytes([27])
    case Up => AsciiBytes([27, 91, 65])
    case Down => AsciiBytes([27, 91, 66])
    case Right => AsciiBytes([27, 91, 67])
    case Left => AsciiBytes([27, 91, 68])
    case Home => AsciiBytes([27, 91, 72])
    case End => AsciiBytes([27, 91, 70])
    case PageUp => AsciiBytes([27, 91, 53, 126])
    case PageDown => AsciiBytes([27, 91, 54, 126])
    case Delete => AsciiBytes([27, 91, 51, 126])
    case Insert => AsciiBytes([27, 91, 50, 126])
    case F(n) => FunctionKeyBytes(n)
    case OtherKey => []
  }

  /** The number xterm puts in `ESC [ number ~` for F5..F12. */
  function XtermNumber(n: u8): (x: int)
    requires 5 <= n <= 12
    ensures 15 <= x <= 24
  {
    if n == 5 then 15 else if n == 6 then 17 else if n == 7 then 18 else if n == 8 then 19
    else if n == 9 then 20 else if n == 10 then 21 else if n == 11 then 23 else 24
  }

  /**
   * A function key as xterm sends it: F1..F4 in the SS3 form `ESC O P..S`, F5..F12 as
   * `ESC [ number ~`; any other function key sends nothing.
   */
  function FunctionKeyBytes(n: u8): (r: seq<byte>)
    ensures |r| <= 5 && Utf8.Valid(r)
  {
    if 1 <= n <= 4 then AsciiBytes([27, 79, 79 + n])
    else if 5 <= n <= 12 then
      var x := XtermNumber(n);
      AsciiBytes([27, 91, 0x30 + x / 10, 0x30 + x % 10, 126])
    else []
  }

  /** The function-key arm as the source writes it: F5..F12 send `ESC [ d ~` with d the digit n - 5. */
  function FunctionKeyBytesAsWritten(n: u8): (r: seq<byte>)
    ensures |r| <= 4
    ensures 5 <= n <= 12 ==> |r| == 4 && r[..2] == [27, 91] && r[2] == 0x30 + (n - 5) && r[3] == 126
    ensures !(5 <= n <= 12) ==> r == FunctionKeyBytes(n)
  {
    if 1 <= n <= 4 then [27, 79, 79 + n]
    else if 5 <= n <= 12 then [27, 91, 0x30 + (n - 5), 126]
    else []
  }

  /**
   * As written, F7, F8, F10 and F11 send exactly what Insert, Delete, Page Up and Page Down send,
   * so the shell cannot tell them apart.
   */
  lemma FunctionKeysAsWrittenCollide()
    ensures FunctionKeyBytesAsWritten(7) == KeyToBytes(KeyEvent(Insert, {}))
    ensures FunctionKeyBytesAsWritten(8) == KeyToBytes(KeyEvent(Delete, {}))
    ensures FunctionKeyBytesAsWritten(10) == KeyToBytes(KeyEvent(PageUp, {}))
    ensures FunctionKeyBytesAsWritten(11) == KeyToBytes(KeyEvent(PageDown, {}))
  {
  }

  /** A literal byte string below 0x80, which is well-formed UTF-8. */
  function AsciiBytes(s: seq<byte>): (r: seq<byte>)
    requires forall j :: 0 <= j < |s| ==> s[j] < 0x80
    ensures r == s && Utf8.Valid(r)
  {
    AsciiValid(s);
    s
  }

  /** Ctrl with a letter or one of `@ [ \ ] ^ _` sends the single C0 code of caret notation. */
  lemma ControlKeysUseCaretNotation(c: char, modifiers: set<Modifier>)
    requires Control in modifiers && HasCaretCode(c)
    ensures 0 <= CaretCode(c) < 0x20
    ensures KeyToBytes(KeyEvent(Char(c), modifiers)) == [CaretCode(c)]
    ensures 'a' <= c <= 'z' ==> 1 <= CaretCode(c) <= 26
  {
  }

  /** Every other character, with or without Ctrl (upper-case letters included), is sent as its UTF-8 encoding. */
  lemma OtherCharactersAreUtf8(c: char, modifiers: set<Modifier>)
    requires !(Control in modifiers && HasCaretCode(c))
    ensures KeyToBytes(KeyEvent(Char(c), modifiers)) == Encode(c)
  {
  }

  /** A key press sends nothing exactly when it is an unlisted key or a function key outside F1..F12. */
  lemma SilentKeys(ev: KeyEvent)
    ensures KeyToBytes(ev) == [] <==> ev.code.OtherKey? || (ev.code.F? && !(1 <= ev.code.n <= 12))
  {
  }

  predicate IsAsciiDigit(b: byte) {
    0x30 <= b <= 0x39
  }

  /** The number in an `ESC [ d d ~` sequence. */
  function EscapeNumber(r: seq<byte>): int
    requires |r| == 5
  {
    var tens: int := r[2];
    var units: int := r[3];
    (tens - 0x30) * 10 + (units - 0x30)
  }

  /**
   * F1..F4 send `ESC O` and the letters P..S in order; F5..F12 send `ESC [ number ~` with a
   * two-digit number that grows with the key.
   */
  lemma FunctionKeys(m: u8, n: u8)
    requires 1 <= m < n <= 12
    ensures m <= 4 ==> KeyToBytes(KeyEvent(F(m), {})) == [27, 79, 79 + m]
    ensures 5 <= n ==> var r := KeyToBytes(KeyEvent(F(n), {}));
      |r| == 5 && r[..2] == [27, 91] && IsAsciiDigit(r[2]) && IsAsciiDigit(r[3]) && r[4] == 126
    ensures 5 <= m ==> EscapeNumber(KeyToBytes(KeyEvent(F(m), {}))) < EscapeNumber(KeyToBytes(KeyEvent(F(n), {})))
  {
    FunctionKeyEvent(m);
    FunctionKeyEvent(n);
    if 5 <= m {
      FunctionKeyNumber(m);
      XtermNumberGrows(m, n);
    }
    if 5 <= n {
      FunctionKeyNumber(n);
    }
  }

  /** A function key press sends its function-key bytes, whatever the modifiers. */
  lemma FunctionKeyEvent(n: u8)
    ensures forall modifiers :: KeyToBytes(KeyEvent(F(n), modifiers)) == FunctionKeyBytes(n)
  {
  }

  lemma XtermNumberGrows(m: u8, n: u8)
    requires 5 <= m < n <= 12
    ensures XtermNumber(m) < XtermNumber(n)
  {
  }

  lemma FunctionKeyNumber(n: u8)
    requires 5 <= n <= 12
    ensures var r := FunctionKeyBytes(n);
      |r| == 5 && r[..2] == [27, 91] && IsAsciiDigit(r[2]) && IsAsciiDigit(r[3]) && r[4] == 126
      && EscapeNumber(r) == XtermNumber(n)
  {
  }

  /** The function key xterm numbers `x`, if any. */
  function XtermKey(x: int): (n: Option<u8>)
    ensures n.Some? ==> 5 <= n.value <= 12 && XtermNumber(n.value) == x
  {
    if x == 15 then Some(5) else if x == 17 then Some(6) else if x == 18 then Some(7)
    else if x == 19 then Some(8) else if x == 20 then Some(9) else if x == 21 then Some(10)
    else if x == 23 then Some(11) else if x == 24 then Some(12) else None
  }

  /** Reads back which key other than a character produced the bytes, as the shell's line editor does. */
  function DecodeSpecialKey(r: seq<byte>): Option<KeyCode> {
    if |r| == 1 then
      if r[0] == 13 then Some(Enter) else if r[0] == 127 then Some(Backspace)
      else if r[0] == 9 then Some(Tab) else if r[0] == 27 then Some(Esc) else None
    else if |r| == 3 && r[0] == 27 && r[1] == 79 then
      if 80 <= r[2] <= 83 then Some(F(r[2] - 79)) else None
    else if |r| == 3 && r[0] == 27 && r[1] == 91 then
      if r[2] == 65 then Some(Up) else if r[2] == 66 then Some(Down)
      else if r[2] == 67 then Some(Right) else if r[2] == 68 then Some(Left)
      else if r[2] == 72 then Some(Home) else if r[2] == 70 then Some(End) else None
    else if |r| == 4 && r[0] == 27 && r[1] == 91 && r[3] == 126 then
      if r[2] == 53 then Some(PageUp) else if r[2] == 54 then Some(PageDown)
      else if r[2] == 51 then Some(Delete) else if r[2] == 50 then Some(Insert) else None
    else if |r| == 5 && r[0] == 27 && r[1] == 91 && r[4] == 126 then
      match XtermKey(EscapeNumber(r))
      case Some(n) => Some(F(n))
      case None => None
    else None
  }

  /** Every key other than a character that sends something can be read back from its bytes. */
  lemma SpecialKeysDecode(ev: KeyEvent)
    requires !ev.code.Char? && KeyToBytes(ev) != []
    ensures DecodeSpecialKey(KeyToBytes(ev)) == Some(ev.code)
  {
    match ev.code
    case F(n) => FunctionKeyDecodes(n);
    case _ =>
  }

  lemma FunctionKeyDecodes(n: u8)
    requires 1 <= n <= 12
    ensures DecodeSpecialKey(FunctionKeyBytes(n)) == Some(F(n))
  {
    if 5 <= n {
      FunctionKeyNumberDecodes(n);
    } else {
      var r := FunctionKeyBytes(n);
      assert r == [27, 79, 79 + n];
      assert DecodeSpecialKey(r) == Some(F(r[2] - 79));
    }
  }

  lemma FunctionKeyNumberDecodes(n: u8)
    requires 5 <= n <= 12
    ensures DecodeSpecialKey(FunctionKeyBytes(n)) == Some(F(n))
  {
    var r := FunctionKeyBytes(n);
    FunctionKeyNumber(n);
    XtermKeyOfNumber(n);
    assert !(|r| == 3 || |r| == 4 || |r| == 1);
  }

  /** `XtermKey` reads back the key from its number. */
  lemma XtermKeyOfNumber(n: u8)
    requires 5 <= n <= 12
    ensures XtermKey(XtermNumber(n)) == Some(n)
  {
  }

  /** Keys other than characters that send something send different bytes, so the shell can tell them apart. */
  lemma SpecialKeysAreDistinguishable(a: KeyEvent, b: KeyEvent)
    requires !a.code.Char? && !b.code.Char? && a.code != b.code
    requires KeyToBytes(a) != [] && KeyToBytes(b) != []
    ensures KeyToBytes(a) != KeyToBytes(b)
  {
    SpecialKeysDecode(a);
    SpecialKeysDecode(b);
  }

  // ---------------------------------------------------------------------------------------------
  // input_loop: dispatch of one key press
  // ---------------------------------------------------------------------------------------------

  datatype Action = OpenChat | SendEndOfTransmission | SendBytes(bytes: seq<byte>) | Ignore

  /** The key-press arm of `input_loop`. */
  function Dispatch(ev: KeyEvent): (a: Action)
    ensures a.SendBytes? ==> a.bytes == KeyToBytes(ev) && a.bytes != []
    ensures a == Ignore ==> KeyToBytes(ev) == []
  {
    if ev.code == Char('!') && Control !in ev.modifiers then OpenChat
    else if ev.code == Char('d') && Control in ev.modifiers then SendEndOfTransmission
    else
      var bytes := KeyToBytes(ev);
      if |bytes| == 0 then Ignore else SendBytes(bytes)
  }

  /**
   * '!' without Ctrl opens the chat, whatever the other modifiers; every other key press that
   * encodes to something reaches the shell as exactly its encoding (Ctrl+D's EOT included).
   */
  lemma DispatchSendsTheEncoding(ev: KeyEvent)
    ensures Dispatch(ev) == OpenChat <==> ev.code == Char('!') && Control !in ev.modifiers
    ensures Dispatch(ev) == Ignore <==> Dispatch(ev) != OpenChat && KeyToBytes(ev) == []
    ensures Dispatch(ev) == SendEndOfTransmission ==> KeyToBytes(ev) == [4]
    ensures Dispatch(ev).SendBytes? ==> Dispatch(ev).bytes == KeyToBytes(ev) != []
  {
  }

  /** A terminal event as `event::read` reports it; `PollFailure` is an error from `poll` or `read`. */
  datatype TermEvent = Key(key: KeyEvent) | Resize(columns: int, rows: int) | OtherEvent | PollFailure(reason: string)

  /** The terminal operations of `enter_chat_mode` that can fail. */
  datatype TerminalStep = EnterAlternateScreen | CreateTerminal | ClearScreen | LeaveAlternateScreen

  /** What the environment does during one chat session: the first terminal step that fails, and the chat loop's result. */
  datatype ChatRun = ChatRun(failure: Option<TerminalStep>, chatResult: Result<(), string>)

  /** One iteration of `input_loop` as the environment answers it. */
  datatype InputStep = InputStep(
    running: bool,            // the shared `running` flag at the top of the iteration
    event: Option<TermEvent>, // None: `poll` timed out
    writeFails: bool,         // whether the write to the shell fails
    chat: ChatRun)            // what happens if this event opens the chat

  datatype LoopEnd = ShellGone | WriteFailed | PollFailed(reason: string) | StillRunning

  /** Every write to the shell in order, the pause flag afterwards, and why the loop stopped. */
  datatype InputRun = InputRun(writes: seq<seq<byte>>, paused: bool, end: LoopEnd)

  /** The pause flag after `enter_chat_mode`, and what it returns. */
  datatype ChatOutcome = ChatOutcome(pausedAfter: bool, result: Result<(), string>)

  /** `enter_chat_mode`: the result, and whether the shell's echo is still paused afterwards. */
  function ChatMode(run: ChatRun): ChatOutcome {
    match run.failure
    case Some(step) => ChatOutcome(true, Failure("terminal step failed"))
    case None => ChatOutcome(false, run.chatResult)
  }

  /**
   * `enter_chat_mode` pauses the echo first and resumes it only on the normal path: when any
   * terminal step fails, the echo stays paused. The chat loop's own error does not prevent the
   * resume and is passed on.
   */
  lemma ChatModeLeavesEchoPausedOnTerminalFailure(run: ChatRun)
    ensures ChatMode(run).pausedAfter <==> run.failure.Some?
    ensures ChatMode(run).result.Success? <==> run.failure.None? && run.chatResult.Success?
    ensures run.failure.None? ==> ChatMode(run).result == run.chatResult
  {
  }

  function Prepend(writes: seq<seq<byte>>, run: InputRun): InputRun {
    run.(writes := writes + run.writes)
  }

  /** What one iteration does: the bytes it gets to the shell, the pause flag after it, and whether it ends the loop. */
  datatype Iteration = Iteration(writes: seq<seq<byte>>, paused: bool, stop: Option<LoopEnd>)

  /** One iteration of `input_loop`; a failed write gets nothing to the shell. */
  function InputIteration(step: InputStep, paused: bool): Iteration {
    if !step.running then Iteration([], paused, Some(ShellGone))
    else if step.event.None? then Iteration([], paused, None)
    else EventIteration(step.event.value, step.writeFails, step.chat, paused)
  }

  function EventIteration(event: TermEvent, writeFails: bool, chat: ChatRun, paused: bool): Iteration {
    match event
    case PollFailure(reason) => Iteration([], paused, Some(PollFailed(reason)))
    case Key(ev) => KeyIteration(Dispatch(ev), writeFails, chat, paused)
    case _ => Iteration([], paused, None)
  }

  function KeyIteration(action: Action, writeFails: bool, chat: ChatRun, paused: bool): Iteration {
    match action
    case OpenChat => Iteration([], ChatMode(chat).pausedAfter, None)
    case SendEndOfTransmission => Iteration(if writeFails then [] else [[4]], paused, None)
    case SendBytes(bytes) =>
      if writeFails then Iteration([], paused, Some(WriteFailed))
      else Iteration([bytes], paused, None)
    case Ignore => Iteration([], paused, None)
  }

  /** `input_loop` from iteration `i` on, over the iterations the environment provides. */
  function RunInput(steps: seq<InputStep>, i: nat, paused: bool): InputRun
    requires i <= |steps|
    decreases |steps| - i
  {
    if i == |steps| then InputRun([], paused, StillRunning)
    else
      var it := InputIteration(steps[i], paused);
      match it.stop
      case Some(end) => InputRun(it.writes, it.paused, end)
      case None => Prepend(it.writes, RunInput(steps, i + 1, it.paused))
  }

  lemma PrependNothing(run: InputRun)
    ensures Prepend([], run) == run
  {
    assert [] + run.writes == run.writes;
  }

  /** The loop's bookkeeping after one more iteration that does not stop it. */
  lemma RunInputAdvance(steps: seq<InputStep>, i: nat, p0: bool, paused: bool, sent: seq<seq<byte>>, it: Iteration)
    requires i < |steps| && it == InputIteration(steps[i], paused) && it.stop.None?
    requires RunInput(steps, 0, p0) == Prepend(sent, RunInput(steps, i, paused))
    ensures RunInput(steps, 0, p0) == Prepend(sent + it.writes, RunInput(steps, i + 1, it.paused))
  {
  }

  /** The loop's result when an iteration stops it. */
  lemma RunInputStops(steps: seq<InputStep>, i: nat, p0: bool, paused: bool, sent: seq<seq<byte>>, it: Iteration)
    requires i < |steps| && it == InputIteration(steps[i], paused) && it.stop.Some?
    requires RunInput(steps, 0, p0) == Prepend(sent, RunInput(steps, i, paused))
    ensures RunInput(steps, 0, p0) == InputRun(sent + it.writes, it.paused, it.stop.value)
  {
  }

  /** The key presses of the iterations from `i` on, in order. */
  function Keys(steps: seq<InputStep>, i: nat): seq<KeyEvent>
    requires i <= |steps|
    decreases |steps| - i
  {
    if i == |steps| then []
    else
      var event := steps[i].event;
      (if event.Some? && event.value.Key? then [event.value.key] else []) + Keys(steps, i + 1)
  }

  /** Reference: the encoding of each key press that does not open the chat and encodes to something. */
  function Encodings(keys: seq<KeyEvent>): seq<seq<byte>>
    decreases |keys|
  {
    if |keys| == 0 then []
    else
      var ev := keys[0];
      var sent := if (ev.code == Char('!') && Control !in ev.modifiers) || KeyToBytes(ev) == [] then [] else [KeyToBytes(ev)];
      sent + Encodings(keys[1..])
  }

  /** Nothing stops the loop: the shell runs, every poll succeeds and every write goes through. */
  predicate Undisturbed(steps: seq<InputStep>) {
    forall i :: 0 <= i < |steps| ==>
      steps[i].running && !steps[i].writeFails && !(steps[i].event.Some? && steps[i].event.value.PollFailure?)
  }

  /** Undisturbed, the loop writes to the shell exactly the encodings of the keys typed, '!' aside. */
  lemma {:induction false} UndisturbedLoopForwardsEveryKey(steps: seq<InputStep>, i: nat, paused: bool)
    requires i <= |steps| && Undisturbed(steps)
    ensures RunInput(steps, i, paused).writes == Encodings(Keys(steps, i))
    ensures RunInput(steps, i, paused).end == StillRunning
    decreases |steps| - i
  {
    if i < |steps| {
      var step := steps[i];
      var it := InputIteration(step, paused);
      UndisturbedLoopForwardsEveryKey(steps, i + 1, it.paused);
      var rest := Keys(steps, i + 1);
      if step.event.Some? && step.event.value.Key? {
        var ev := step.event.value.key;
        DispatchSendsTheEncoding(ev);
        assert Keys(steps, i) == [ev] + rest;
        assert ([ev] + rest)[1..] == rest;
      } else {
        assert Keys(steps, i) == rest;
      }
    }
  }

  /** A failed EOT write is ignored and the loop carries on; a failed write of any other key ends the loop. */
  lemma WriteFailures(steps: seq<InputStep>, i: nat, paused: bool, ev: KeyEvent)
    requires i < |steps| && steps[i].running && steps[i].event == Some(Key(ev)) && steps[i].writeFails
    ensures Dispatch(ev) == SendEndOfTransmission ==> RunInput(steps, i, paused) == RunInput(steps, i + 1, paused)
    ensures Dispatch(ev).SendBytes? ==> RunInput(steps, i, paused) == InputRun([], paused, WriteFailed)
  {
    PrependNothing(RunInput(steps, i + 1, paused));
  }

  // ---------------------------------------------------------------------------------------------
  // The reader thread
  // ---------------------------------------------------------------------------------------------

  const ReadBufferSize: nat := 8192
  const RetainLimit: nat := 100_000
  const RetainDrop: nat := 50_000

  /** The retained buffer after one chunk: append, then drop the oldest 50 000 bytes if over 100 000. */
  function Retain(retained: seq<byte>, data: seq<byte>): (r: seq<byte>)
    ensures EndsWith(retained + data, r)
    ensures |r| <= |retained + data|
  {
    var grown := retained + data;
    if |grown| > RetainLimit then grown[RetainDrop..] else grown
  }

  /** Exactly the oldest 50 000 bytes go, and only when the buffer outgrows 100 000; the rest is kept in order. */
  lemma RetainDropsOldest(retained: seq<byte>, data: seq<byte>)
    ensures EndsWith(retained + data, Retain(retained, data))
    ensures |retained + data| > RetainLimit ==> |Retain(retained, data)| == |retained + data| - RetainDrop
    ensures |retained + data| <= RetainLimit ==> Retain(retained, data) == retained + data
  {
  }

  /** A buffer within 100 000 bytes stays within 100 000 bytes after a chunk of at most 8192. */
  lemma RetainStaysBounded(retained: seq<byte>, data: seq<byte>)
    requires |retained| <= RetainLimit && |data| <= ReadBufferSize
    ensures |Retain(retained, data)| <= RetainLimit
  {
  }

  function Concat(chunks: seq<seq<byte>>): seq<byte>
    decreases |chunks|
  {
    if |chunks| == 0 then [] else Concat(chunks[..|chunks| - 1]) + chunks[|chunks| - 1]
  }

  /** The retained buffer after a series of chunks, starting from `start`. */
  function RetainAll(start: seq<byte>, chunks: seq<seq<byte>>): seq<byte>
    decreases |chunks|
  {
    if |chunks| == 0 then start else Retain(RetainAll(start, chunks[..|chunks| - 1]), chunks[|chunks| - 1])
  }

  /** The retained buffer is always a suffix of everything read into it. */
  lemma {:induction false} RetainedIsSuffixOfAllRead(start: seq<byte>, chunks: seq<seq<byte>>)
    ensures EndsWith(start + Concat(chunks), RetainAll(start, chunks))
    decreases |chunks|
  {
    if |chunks| == 0 {
      assert start + [] == start;
    } else {
      var init := chunks[..|chunks| - 1];
      var last := chunks[|chunks| - 1];
      RetainedIsSuffixOfAllRead(start, init);
      var before := RetainAll(start, init);
      RetainDropsOldest(before, last);
      SuffixOfSuffix(start + Concat(init), before, last, Retain(before, last));
      AppendAssociates(start, Concat(init), last);
    }
  }

  /** With reads of at most 8192 bytes into a buffer that starts within bounds, the retained buffer stays within 100 000 bytes. */
  lemma {:induction false} RetainedStaysBounded(start: seq<byte>, chunks: seq<seq<byte>>)
    requires |start| <= RetainLimit
    requires forall k :: 0 <= k < |chunks| ==> |chunks[k]| <= ReadBufferSize
    ensures |RetainAll(start, chunks)| <= RetainLimit
    decreases |chunks|
  {
    if |chunks| > 0 {
      var init := chunks[..|chunks| - 1];
      assert forall k :: 0 <= k < |init| ==> init[k] == chunks[k];
      RetainedStaysBounded(start, init);
      RetainStaysBounded(RetainAll(start, init), chunks[|chunks| - 1]);
    }
  }

  lemma SuffixOfSuffix(all: seq<byte>, kept: seq<byte>, data: seq<byte>, trimmed: seq<byte>)
    requires EndsWith(all, kept) && EndsWith(kept + data, trimmed)
    ensures EndsWith(all + data, trimmed)
  {
    var whole := all + data;
    assert whole[|whole| - |kept + data|..] == kept + data;
    assert whole[|whole| - |trimmed|..] == (kept + data)[|kept + data| - |trimmed|..];
  }

  /** What `reader.read` returns: some bytes (none at all is end of file), or an error. */
  datatype ReadResult = Read(bytes: seq<byte>) | ReadError

  /** A read that hands over data, which keeps the reader thread going. */
  predicate IsData(read: ReadResult) {
    read.Read? && |read.bytes| > 0
  }

  /** The first `n` reads all handed over data. */
  predicate AllData(results: seq<ReadResult>, n: nat)
    requires n <= |results|
  {
    n == 0 || (AllData(results, n - 1) && IsData(results[n - 1]))
  }

  /** The data of the first `n` reads. */
  function Received(results: seq<ReadResult>, n: nat): (chunks: seq<seq<byte>>)
    requires n <= |results|
    ensures |chunks| == n
  {
    if n == 0 then []
    else Received(results, n - 1) + [if results[n - 1].Read? then results[n - 1].bytes else []]
  }

  /** One more read that hands over data adds its bytes to the received chunks. */
  lemma ReceivedStep(results: seq<ReadResult>, n: nat)
    requires n < |results| && AllData(results, n) && IsData(results[n])
    ensures AllData(results, n + 1)
    ensures Received(results, n + 1) == Received(results, n) + [results[n].bytes]
  {
  }

  /** The capture engine's log after the chunks it was given: a chunk that is not well-formed UTF-8 is skipped. */
  function Captured(log: Capture.Log, chunks: seq<seq<byte>>, workingDir: seq<byte>, now: int): Capture.Log
    decreases |chunks|
  {
    if |chunks| == 0 then log
    else Feed(Captured(log, chunks[..|chunks| - 1], workingDir, now), chunks[|chunks| - 1], workingDir, now)
  }

  /** One chunk offered to the capture engine, which only sees it if it is well-formed UTF-8. */
  function Feed(log: Capture.Log, data: seq<byte>, workingDir: seq<byte>, now: int): Capture.Log {
    if Utf8.Valid(data) then Capture.AfterChunk(log, data, workingDir, now) else log
  }

  lemma CapturedOneMore(log: Capture.Log, chunks: seq<seq<byte>>, data: seq<byte>, workingDir: seq<byte>, now: int)
    ensures Captured(log, chunks + [data], workingDir, now) == Feed(Captured(log, chunks, workingDir, now), data, workingDir, now)
  {
    assert (chunks + [data])[..|chunks|] == chunks;
  }

  lemma RetainAllOneMore(start: seq<byte>, chunks: seq<seq<byte>>, data: seq<byte>)
    ensures RetainAll(start, chunks + [data]) == Retain(RetainAll(start, chunks), data)
  {
    assert (chunks + [data])[..|chunks|] == chunks;
  }

  lemma ConcatOneMore(chunks: seq<seq<byte>>, data: seq<byte>)
    ensures Concat(chunks + [data]) == Concat(chunks) + data
  {
    assert (chunks + [data])[..|chunks|] == chunks;
  }

  /** The reader thread's three records after one more chunk: retained buffer, echo and capture log. */
  lemma ReaderBookkeeping(start: seq<byte>, echo0: seq<byte>, log0: Capture.Log, chunks: seq<seq<byte>>, data: seq<byte>,
                          retained: seq<byte>, echoed: seq<byte>, log: Capture.Log, paused: bool, workingDir: seq<byte>, now: int)
    requires retained == RetainAll(start, chunks)
    requires echoed == echo0 + (if paused then [] else Concat(chunks))
    requires log == Captured(log0, chunks, workingDir, now)
    ensures Retain(retained, data) == RetainAll(start, chunks + [data])
    ensures echoed + (if paused then [] else data) == echo0 + (if paused then [] else Concat(chunks + [data]))
    ensures Feed(log, data, workingDir, now) == Captured(log0, chunks + [data], workingDir, now)
  {
    RetainAllOneMore(start, chunks, data);
    CapturedOneMore(log0, chunks, data, workingDir, now);
    if !paused {
      ConcatOneMore(chunks, data);
      AppendAssociates(echo0, Concat(chunks), data);
    }
  }

  /** A chunk that ends on the leading byte of a character split across two reads is not captured at all. */
  lemma SplitCharacterChunkIsSkipped(log: Capture.Log, chunks: seq<seq<byte>>, data: seq<byte>, workingDir: seq<byte>, now: int)
    requires |data| > 0 && data[|data| - 1] >= 0xC0
    ensures Captured(log, chunks + [data], workingDir, now) == Captured(log, chunks, workingDir, now)
  {
    assert (chunks + [data])[..|chunks|] == chunks;
    CutCharacterInvalid(data);
  }

  /** The state the two threads share. */
  class Session {
    /** The `running` flag. */
    var running: bool
    /** The `output_paused` flag. */
    var outputPaused: bool
    /** The retained output buffer. */
    var retained: seq<byte>
    /** Everything echoed to the user's terminal. */
    var echoed: seq<byte>
    /** Everything written to the shell. */
    var written: seq<seq<byte>>
    /** The capture engine. */
    const capture: Capture.CommandCapture

    ghost predicate Valid()
      reads this, capture
    {
      capture.Valid() && |retained| <= RetainLimit
    }

    constructor (capture: Capture.CommandCapture)
      requires capture.Valid()
      ensures Valid() && this.capture == capture
      ensures running && !outputPaused && retained == [] && echoed == [] && written == []
    {
      this.capture := capture;
      running := true;
      outputPaused := false;
      retained := [];
      echoed := [];
      written := [];
    }

    /**
     * What the reader thread does with a chunk it has read: the capture engine gets it when it is
     * well-formed, the retained buffer always, and the user's terminal while not paused.
     */
    method ConsumeChunk(data: seq<byte>, workingDir: seq<byte>, now: int)
      requires Valid() && |data| <= ReadBufferSize
      modifies this`retained, this`echoed, capture
      ensures Valid()
      ensures retained == Retain(old(retained), data)
      ensures echoed == old(echoed) + (if outputPaused then [] else data)
      ensures Capture.Log(capture.commands, capture.currentCommand)
        == Feed(Capture.Log(old(capture.commands), old(capture.currentCommand)), data, workingDir, now)
      ensures capture.outputBuffer
        == if Utf8.Valid(data) then Capture.KeepTail(old(capture.outputBuffer) + data) else old(capture.outputBuffer)
    {
      FeedCapture(data, workingDir, now);
      RetainStaysBounded(retained, data);
      retained := Retain(retained, data);
      if !outputPaused {
        echoed := echoed + data;
      }
    }

    /** The capture engine's part of a chunk: it sees the chunk only when the chunk is well-formed. */
    method FeedCapture(data: seq<byte>, workingDir: seq<byte>, now: int)
      requires capture.Valid()
      modifies capture
      ensures capture.Valid()
      ensures Capture.Log(capture.commands, capture.currentCommand)
        == Feed(Capture.Log(old(capture.commands), old(capture.currentCommand)), data, workingDir, now)
      ensures capture.outputBuffer
        == if Utf8.Valid(data) then Capture.KeepTail(old(capture.outputBuffer) + data) else old(capture.outputBuffer)
    {
      if Utf8.Valid(data) {
        var _ := capture.ProcessOutput(data, workingDir, now);
      }
    }

    /**
     * The retained buffer, the echo and the capture log are what `chunks` make of `start`, `echo0`
     * and `log0`.
     */
    ghost predicate Reflects(start: seq<byte>, echo0: seq<byte>, log0: Capture.Log, chunks: seq<seq<byte>>, workingDir: seq<byte>, now: int)
      reads this, capture
    {
      && retained == RetainAll(start, chunks)
      && echoed == echo0 + (if outputPaused then [] else Concat(chunks))
      && Capture.Log(capture.commands, capture.currentCommand) == Captured(log0, chunks, workingDir, now)
    }

    /** One pass of the reader thread's loop: a read that hands over data is consumed, any other stops the thread. */
    method ReadOne(read: ReadResult, ghost start: seq<byte>, ghost echo0: seq<byte>, ghost log0: Capture.Log,
                   ghost chunks: seq<seq<byte>>, workingDir: seq<byte>, now: int) returns (more: bool)
      requires Valid() && running && Reflects(start, echo0, log0, chunks, workingDir, now)
      requires read.Read? ==> |read.bytes| <= ReadBufferSize
      modifies this`running, this`retained, this`echoed, capture
      ensures Valid() && more == IsData(read) && running == more
      ensures Reflects(start, echo0, log0, if more then chunks + [read.bytes] else chunks, workingDir, now)
    {
      match read {
        case ReadError =>
          running := false;
          return false;
        case Read(data) =>
          if |data| == 0 {
            running := false;
            return false;
          }
          ghost var retainedBefore, echoedBefore := retained, echoed;
          ghost var logBefore := Capture.Log(capture.commands, capture.currentCommand);
          ConsumeChunk(data, workingDir, now);
          ReaderBookkeeping(start, echo0, log0, chunks, data, retainedBefore, echoedBefore, logBefore, outputPaused, workingDir, now);
          return true;
      }
    }

    /**
     * The reader thread: reads until end of file or an error, which clear `running`.
     * `consumed` counts the reads that handed over data; the one after them, if any, stopped the thread.
     */
    method ReaderLoop(results: seq<ReadResult>, workingDir: seq<byte>, now: int) returns (consumed: nat)
      requires Valid() && running
      requires forall k :: 0 <= k < |results| && results[k].Read? ==> |results[k].bytes| <= ReadBufferSize
      modifies this`running, this`retained, this`echoed, capture
      ensures Valid()
      ensures consumed <= |results| && (running <==> consumed == |results|)
      ensures AllData(results, consumed)
      ensures consumed < |results| ==> !IsData(results[consumed])
      ensures retained == RetainAll(old(retained), Received(results, consumed))
      ensures echoed == old(echoed) + (if outputPaused then [] else Concat(Received(results, consumed)))
      ensures Capture.Log(capture.commands, capture.currentCommand)
        == Captured(Capture.Log(old(capture.commands), old(capture.currentCommand)), Received(results, consumed), workingDir, now)
    {
      consumed := 0;
      ghost var log0 := Capture.Log(capture.commands, capture.currentCommand);
      while consumed < |results|
        invariant Valid() && running && consumed <= |results|
        invariant AllData(results, consumed)
        invariant Reflects(old(retained), old(echoed), log0, Received(results, consumed), workingDir, now)
        decreases |results| - consumed
      {
        var more := ReadOne(results[consumed], old(retained), old(echoed), log0, Received(results, consumed), workingDir, now);
        if !more {
          return;
        }
        ReceivedStep(results, consumed);
        consumed := consumed + 1;
      }
    }

    /** `enter_chat_mode`: pauses the echo, and resumes it only if no terminal step failed. */
    method EnterChatMode(run: ChatRun) returns (result: Result<(), string>)
      modifies this`outputPaused
      ensures ChatOutcome(outputPaused, result) == ChatMode(run)
    {
      outputPaused := true;
      match run.failure {
        case Some(step) =>
          result := Failure("terminal step failed");
          return;
        case None =>
      }
      result := run.chatResult;
      outputPaused := false;
    }

    /** One iteration of `input_loop`. */
    method InputIterationStep(step: InputStep, ghost it: Iteration) returns (stop: Option<LoopEnd>)
      requires it == InputIteration(step, outputPaused)
      modifies this`outputPaused, this`written
      ensures written == old(written) + it.writes && outputPaused == it.paused && stop == it.stop
    {
      if !step.running {
        return Some(ShellGone);
      }
      stop := None;
      match step.event {
        case None =>
        case Some(PollFailure(reason)) =>
          stop := Some(PollFailed(reason));
        case Some(Resize(_, _)) =>
        case Some(OtherEvent) =>
        case Some(Key(ev)) =>
          match Dispatch(ev) {
            case OpenChat =>
              var _ := EnterChatMode(step.chat);
            case SendEndOfTransmission =>
              if !step.writeFails {
                written := written + [[4]];
              }
            case SendBytes(bytes) =>
              if step.writeFails {
                stop := Some(WriteFailed);
              } else {
                written := written + [bytes];
              }
            case Ignore =>
          }
      }
    }

    /** `input_loop` over the iterations the environment provides. */
    method InputLoop(steps: seq<InputStep>) returns (end: LoopEnd)
      modifies this`outputPaused, this`written
      ensures var run := RunInput(steps, 0, old(outputPaused));
        written == old(written) + run.writes && outputPaused == run.paused && end == run.end
    {
      var i := 0;
      ghost var sent: seq<seq<byte>> := [];
      PrependNothing(RunInput(steps, 0, outputPaused));
      AppendNothing(written);
      while i < |steps|
        invariant 0 <= i <= |steps| && Tracks(steps, i, old(outputPaused), old(written), sent)
        decreases |steps| - i
      {
        var stop;
        stop, sent := InputOne(steps, i, old(outputPaused), old(written), sent);
        if stop.Some? {
          return stop.value;
        }
        i := i + 1;
      }
      AppendNothing(sent);
      end := StillRunning;
    }

    /** The loop has written `sent` so far, and what is left of it accounts for the rest of the run. */
    ghost predicate Tracks(steps: seq<InputStep>, i: nat, p0: bool, w0: seq<seq<byte>>, sent: seq<seq<byte>>)
      requires i <= |steps|
      reads this
    {
      written == w0 + sent && RunInput(steps, 0, p0) == Prepend(sent, RunInput(steps, i, outputPaused))
    }

    /** One pass of `input_loop`, with the loop's bookkeeping. */
    method InputOne(steps: seq<InputStep>, i: nat, ghost p0: bool, ghost w0: seq<seq<byte>>, ghost sent: seq<seq<byte>>)
      returns (stop: Option<LoopEnd>, ghost sentAfter: seq<seq<byte>>)
      requires i < |steps| && Tracks(steps, i, p0, w0, sent)
      modifies this`outputPaused, this`written
      ensures stop.None? ==> Tracks(steps, i + 1, p0, w0, sentAfter)
      ensures stop.Some? ==> var run := RunInput(steps, 0, p0);
        written == w0 + run.writes && outputPaused == run.paused && stop.value == run.end
    {
      ghost var it := InputIteration(steps[i], outputPaused);
      ghost var paused := outputPaused;
      stop := InputIterationStep(steps[i], it);
      AppendAssociates(w0, sent, it.writes);
      sentAfter := sent + it.writes;
      if stop.Some? {
        RunInputStops(steps, i, p0, paused, sent, it);
      } else {
        RunInputAdvance(steps, i, p0, paused, sent, it);
      }
    }
  }
}
