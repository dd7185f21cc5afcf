/**
 * The chat overlay of src/chat.rs: the message list, the input line, line-based scrolling, the
 * spinner and the one request that can be pending at a time (`ChatState`), and the arms of
 * `run_chat_loop` that react to a key press or a paste.
 *
 * Rendering, the terminal and the gRPC worker thread are not modelled. The worker's channel is the
 * `Pending` value: no receiver, a receiver with nothing in it yet, or a receiver holding the
 * worker's result. Clock readings are integer parameters in nanoseconds.
 */
module Chat {
  import opened Wrappers
  import opened Text

  type u16 = x: int | 0 <= x < 0x1_0000

  datatype Role = User | Assistant

  datatype MessageState = Loading | Ready

  datatype ChatMessage = ChatMessage(role: Role, content: string, timestamp: int, state: MessageState, agent: Option<string>)

  /** What the agent service answers: the reply text and the agent that produced it. */
  datatype Reply = Reply(message: string, agent: string)

  /** `response_receiver`: no request, a request whose result has not arrived, or one whose result is waiting. */
  datatype Pending = Idle | Awaiting | Arrived(result: Result<Reply, string>)

  /** Every field of `ChatState` that the model keeps, as one value; `sent` lists the texts handed to the service. */
  datatype ChatView = ChatView(
    messages: seq<ChatMessage>,
    input: string,
    scrollOffset: u16,
    autoScroll: bool,
    lastVisibleHeight: u16,
    spinnerFrame: nat,
    lastSpinnerUpdate: int,
    pending: Pending,
    sent: seq<string>)

  const SpinnerFrames: seq<string> :=
    ["\U{280B}", "\U{2819}", "\U{2839}", "\U{2838}", "\U{283C}", "\U{2834}", "\U{2826}", "\U{2827}", "\U{2807}", "\U{280F}"]

  /** The spinner moves on when more than 80 ms have passed. */
  const SpinnerInterval: int := 80_000_000

  const WelcomeText: string :=
    "\U{1F44B} Bienvenue dans Petoncle!\n\n\U{1F916} Connexion au service IA en cours...\n\U{1F4A1} Appuyez sur ESC pour fermer"

  const LoadingText: string := "R\U{E9}flexion en cours"

  const ErrorAgent: string := "error"

  /** The reply the worker thread makes up when the service cannot be reached. */
  function ServiceUnavailable(error: string): string {
    UnavailableHead + error + UnavailableTail
  }

  const UnavailableHead: string := "\U{26A0}\U{FE0F} Service IA non disponible\n\nErreur: "

  const UnavailableTail: string :=
    "\n\n\U{1F4A1} Assurez-vous que le service Python est d\U{E9}marr\U{E9}:\ncd python && python agent_service.py"

  /** The text `check_response` shows for an error that reached the channel. */
  function ErrorText(error: string): string {
    "\U{274C} Error: " + error
  }

  /** `ChatState::new`. */
  function Initial(now: int): ChatView {
    ChatView([ChatMessage(Assistant, WelcomeText, now, Ready, None)], [], 0, true, 20, 0, now, Idle, [])
  }

  // ---------------------------------------------------------------------------------------------
  // Lines and scrolling
  // ---------------------------------------------------------------------------------------------

  /** The lines one message takes: a header, a blank, its content lines (Rust `lines`), a blank, a separator, a blank. */
  function MessageLines(m: ChatMessage): nat {
    5 + |Lines(m.content, '\n', '\r')|
  }

  /** `count_total_lines`, as a sum over the messages. */
  function TotalLines(ms: seq<ChatMessage>): nat
    decreases |ms|
  {
    if |ms| == 0 then 0 else MessageLines(ms[0]) + TotalLines(ms[1..])
  }

  /** Adding a message adds its own lines to the total. */
  lemma {:induction false} TotalLinesAppend(ms: seq<ChatMessage>, m: ChatMessage)
    ensures TotalLines(ms + [m]) == TotalLines(ms) + MessageLines(m)
    decreases |ms|
  {
    if |ms| > 0 {
      assert (ms + [m])[1..] == ms[1..] + [m];
      TotalLinesAppend(ms[1..], m);
    }
  }

  /** Each message takes at least five lines, plus one per line feed in its content. */
  lemma {:induction false} TotalLinesAtLeast(ms: seq<ChatMessage>)
    ensures TotalLines(ms) >= 5 * |ms|
    ensures forall k :: 0 <= k < |ms| ==> TotalLines(ms) >= 5 + multiset(ms[k].content)['\n']
    decreases |ms|
  {
    if |ms| > 0 {
      TotalLinesAtLeast(ms[1..]);
      LinesCount(ms[0].content, '\n', '\r');
      forall k | 1 <= k < |ms| ensures TotalLines(ms) >= 5 + multiset(ms[k].content)['\n'] {
        assert ms[k] == ms[1..][k - 1];
      }
    }
  }

  /**
   * `max_scroll_offset`: how far the view can scroll so that the last line is at the bottom;
   * `as u16` keeps only the low 16 bits of the difference.
   */
  function MaxScroll(total: nat, visible: u16): (r: u16)
    ensures total <= visible ==> r == 0
    ensures total > visible ==> r == (total - visible) % 0x1_0000
    ensures total > visible && total - visible < 0x1_0000 ==> r == total - visible
    ensures r <= if total > visible then total - visible else 0
  {
    if total > visible then (total - visible) % 0x1_0000 else 0
  }

  /** Past 65 535 lines of overflow the cast wraps, and scrolling to the bottom lands near the top. */
  lemma MaxScrollWraps()
    ensures MaxScroll(0x1_0000 + 25, 20) == 5
  {
  }

  /** `scroll_down` as written: `scroll_offset + n` in u16, which wraps in a release build (and panics in a debug build). */
  function ScrollDownOffsetAsWritten(offset: u16, n: u16, maxOffset: u16): (r: u16)
    ensures r <= maxOffset
    ensures offset + n >= 0x1_0000 ==> r < offset
  {
    var sum := (offset + n) % 0x1_0000;
    if sum < maxOffset then sum else maxOffset
  }

  /** `scroll_down` as intended: move down by `n`, but never past the last line. */
  function ScrollDownOffset(offset: u16, n: u16, maxOffset: u16): (r: u16)
    ensures r <= maxOffset
    ensures offset + n <= maxOffset ==> r == offset + n
    ensures offset <= maxOffset ==> offset <= r
    ensures offset + n >= maxOffset ==> r == maxOffset
  {
    if offset + n < maxOffset then offset + n else maxOffset
  }

  /** As written, scrolling down from near the end of a very long conversation jumps back to the top. */
  lemma ScrollDownAsWrittenWraps()
    ensures ScrollDownOffsetAsWritten(65530, 10, 65530) == 4
    ensures ScrollDownOffset(65530, 10, 65530) == 65530
  {
  }

  /** The two agree whenever the sum fits in 16 bits, which covers every conversation under 65 536 lines. */
  lemma ScrollDownAgreesBelowWrap(offset: u16, n: u16, maxOffset: u16)
    requires offset + n < 0x1_0000
    ensures ScrollDownOffsetAsWritten(offset, n, maxOffset) == ScrollDownOffset(offset, n, maxOffset)
  {
  }

  /** `scroll_up`: `saturating_sub`. */
  function ScrollUpOffset(offset: u16, n: u16): (r: u16)
    ensures r <= offset
    ensures n <= offset ==> r == offset - n
    ensures n >= offset ==> r == 0
  {
    if n <= offset then offset - n else 0
  }

  // ---------------------------------------------------------------------------------------------
  // The loading message
  // ---------------------------------------------------------------------------------------------

  predicate NoLoading(ms: seq<ChatMessage>) {
    forall k :: 0 <= k < |ms| ==> ms[k].state == Ready
  }

  /** The last message, and only it, is loading. */
  predicate OnlyLastLoading(ms: seq<ChatMessage>) {
    |ms| > 0 && ms[|ms| - 1].state == Loading && NoLoading(ms[..|ms| - 1])
  }

  /** With nothing pending no message is loading; with a request pending exactly the last one is. */
  predicate LoadingInvariant(ms: seq<ChatMessage>, pending: Pending) {
    if pending.Idle? then NoLoading(ms) else OnlyLastLoading(ms)
  }

  /** The state the chat loop keeps: a spinner frame that exists, and the loading invariant. */
  predicate Valid(v: ChatView) {
    v.spinnerFrame < |SpinnerFrames| && LoadingInvariant(v.messages, v.pending)
  }

  /** "Only the last is loading" means exactly one message is loading, the last. */
  lemma OnlyLastLoadingIsExactlyOne(ms: seq<ChatMessage>)
    requires OnlyLastLoading(ms)
    ensures forall k :: 0 <= k < |ms| ==> (ms[k].state == Loading <==> k == |ms| - 1)
  {
    forall k | 0 <= k < |ms| - 1 ensures ms[k].state == Ready {
      assert ms[k] == ms[..|ms| - 1][k];
    }
  }

  lemma AppendReady(ms: seq<ChatMessage>, m: ChatMessage)
    requires NoLoading(ms) && m.state == Ready
    ensures NoLoading(ms + [m])
  {
  }

  lemma AppendLoading(ms: seq<ChatMessage>, m: ChatMessage)
    requires NoLoading(ms) && m.state == Loading
    ensures OnlyLastLoading(ms + [m])
  {
    assert (ms + [m])[..|ms|] == ms;
  }

  /** `update_last_message`: the last message gets the new content, agent and the Ready state; nothing else moves. */
  function UpdateLast(ms: seq<ChatMessage>, content: string, agent: Option<string>): (r: seq<ChatMessage>)
    ensures |r| == |ms|
    ensures |ms| > 0 ==> r[..|ms| - 1] == ms[..|ms| - 1]
    ensures |ms| > 0 ==> var last := r[|ms| - 1];
      && last.content == content && last.state == Ready && last.agent == agent
      && last.role == ms[|ms| - 1].role && last.timestamp == ms[|ms| - 1].timestamp
  {
    if |ms| == 0 then ms
    else ms[..|ms| - 1] + [ms[|ms| - 1].(content := content, state := Ready, agent := agent)]
  }

  /** Answering the loading message leaves no message loading. */
  lemma UpdateLastClosesLoading(ms: seq<ChatMessage>, content: string, agent: Option<string>)
    requires OnlyLastLoading(ms)
    ensures NoLoading(UpdateLast(ms, content, agent))
  {
    var r := UpdateLast(ms, content, agent);
    forall k | 0 <= k < |r| ensures r[k].state == Ready {
      if k < |ms| - 1 {
        assert r[k] == r[..|ms| - 1][k];
        assert ms[k] == ms[..|ms| - 1][k];
      }
    }
  }

  // ---------------------------------------------------------------------------------------------
  // Transitions of the state, one per method of `ChatState`
  // ---------------------------------------------------------------------------------------------

  /** `add_user_message` / `add_assistant_message` / `add_loading_message`: push, and ask for auto-scroll. */
  function AddMessage(v: ChatView, m: ChatMessage): ChatView {
    v.(messages := v.messages + [m], autoScroll := true)
  }

  function UserMessage(content: string, now: int): ChatMessage {
    ChatMessage(User, content, now, Ready, None)
  }

  function LoadingMessage(now: int): ChatMessage {
    ChatMessage(Assistant, LoadingText, now, Loading, None)
  }

  function UpdateLastView(v: ChatView, content: string, agent: Option<string>): ChatView {
    v.(messages := UpdateLast(v.messages, content, agent), autoScroll := v.autoScroll || |v.messages| > 0)
  }

  /** `start_generate_response` without the thread: the request is sent and the loading message shown. */
  function StartGenerate(v: ChatView, userInput: string, now: int): ChatView {
    AddMessage(v.(pending := Awaiting, sent := v.sent + [userInput]), LoadingMessage(now))
  }

  /** What the worker thread puts in the channel: a failed call still arrives as a reply, from agent "error". */
  function WorkerResult(call: Result<Reply, string>): Result<Reply, string> {
    match call
    case Success(reply) => Success(reply)
    case Failure(error) => Success(Reply(ServiceUnavailable(error), ErrorAgent))
  }

  /** The worker thread finishes: its result reaches the channel of a pending request. */
  function Delivered(v: ChatView, call: Result<Reply, string>): ChatView {
    if v.pending.Awaiting? then v.(pending := Arrived(WorkerResult(call))) else v
  }

  /** `check_response`: a result that has arrived answers the loading message and clears the request. */
  function Checked(v: ChatView): (ChatView, bool) {
    match v.pending
    case Arrived(Success(reply)) => (UpdateLastView(v, reply.message, Some(reply.agent)).(pending := Idle), true)
    case Arrived(Failure(error)) => (UpdateLastView(v, ErrorText(error), Some(ErrorAgent)).(pending := Idle), true)
    case _ => (v, false)
  }

  /** `update_spinner`: the next frame, but only once more than 80 ms have passed. */
  function SpinnerTick(v: ChatView, now: int): ChatView {
    if now - v.lastSpinnerUpdate > SpinnerInterval
    then v.(spinnerFrame := (v.spinnerFrame + 1) % |SpinnerFrames|, lastSpinnerUpdate := now)
    else v
  }

  /** The top of each pass of `run_chat_loop`: look for a result, then move the spinner while a request is pending. */
  function Poll(v: ChatView, now: int): ChatView {
    var (checked, _) := Checked(v);
    if checked.pending.Idle? then checked else SpinnerTick(checked, now)
  }

  /** The keys the chat loop reacts to; `OtherKey` stands for all the rest. */
  datatype ChatKey = EscKey | UpKey | DownKey | PageUpKey | PageDownKey | HomeKey | EndKey | EnterKey | CharKey(c: char) | BackspaceKey | OtherKey

  datatype ChatEvent = Paste(text: string) | KeyPress(key: ChatKey) | OtherEvent

  /** Rust `String::pop`: drop the last character, if any. */
  function Pop(s: string): (r: string)
    ensures |s| > 0 ==> s == r + [s[|s| - 1]]
    ensures |s| == 0 ==> r == []
  {
    if |s| == 0 then s else s[..|s| - 1]
  }

  /** The Enter arm: submit the input, if there is some and no request is pending. */
  function Submit(v: ChatView, now: int): ChatView {
    if |v.input| > 0 && v.pending.Idle? then
      StartGenerate(AddMessage(v, UserMessage(v.input, now)).(input := []), v.input, now)
    else v
  }

  /** The event arms of `run_chat_loop`: the new state, and whether the chat closes. */
  function OnEvent(v: ChatView, ev: ChatEvent, now: int): (r: (ChatView, bool))
    ensures r.1 <==> ev == KeyPress(EscKey)
    ensures ev != KeyPress(EnterKey) ==> r.0.messages == v.messages && r.0.pending == v.pending && r.0.sent == v.sent
  {
    match ev
    case Paste(text) => (v.(input := v.input + text), false)
    case OtherEvent => (v, false)
    case KeyPress(key) =>
      match key
      case EscKey => (v, true)
      case UpKey => (v.(scrollOffset := ScrollUpOffset(v.scrollOffset, 1), autoScroll := false), false)
      case DownKey => (ScrollDownView(v, 1), false)
      case PageUpKey => (v.(scrollOffset := ScrollUpOffset(v.scrollOffset, 10), autoScroll := false), false)
      case PageDownKey => (ScrollDownView(v, 10), false)
      case HomeKey => (v.(scrollOffset := 0, autoScroll := false), false)
      case EndKey => (v.(autoScroll := true), false)
      case EnterKey => (Submit(v, now), false)
      case CharKey(c) => (v.(input := v.input + [c]), false)
      case BackspaceKey => (v.(input := Pop(v.input)), false)
      case OtherKey => (v, false)
  }

  /** `scroll_down` with the last known visible height. */
  function ScrollDownView(v: ChatView, n: u16): ChatView {
    var maxOffset := MaxScroll(TotalLines(v.messages), v.lastVisibleHeight);
    v.(scrollOffset := ScrollDownOffset(v.scrollOffset, n, maxOffset), autoScroll := false)
  }

  // ---------------------------------------------------------------------------------------------
  // Properties of the transitions
  // ---------------------------------------------------------------------------------------------

  /** A new chat shows only the welcome message, with nothing pending. */
  lemma InitialIsValid(now: int)
    ensures Valid(Initial(now)) && |Initial(now).messages| == 1 && Initial(now).pending.Idle?
  {
  }

  /**
   * Enter submits exactly when the input is not empty and nothing is pending. A submission adds the
   * user's message (Ready) and then a loading message without an agent, clears the input, sends the
   * text and leaves a request pending.
   */
  lemma SubmitOnlyWhenIdle(v: ChatView, now: int)
    ensures var w := Submit(v, now);
      (w != v <==> |v.input| > 0 && v.pending.Idle?)
    ensures |v.input| > 0 && v.pending.Idle? ==> var w := Submit(v, now);
      && w.messages == v.messages + [UserMessage(v.input, now), LoadingMessage(now)]
      && w.input == [] && w.pending == Awaiting && w.sent == v.sent + [v.input] && w.autoScroll
  {
    if |v.input| > 0 && v.pending.Idle? {
      var w := Submit(v, now);
      assert w.messages == v.messages + [UserMessage(v.input, now)] + [LoadingMessage(now)];
      assert |w.messages| == |v.messages| + 2;
    }
  }

  /** A submission from a valid state with nothing pending leaves the loading message as the only one, at the end. */
  lemma SubmitKeepsInvariant(v: ChatView, now: int)
    requires Valid(v)
    ensures Valid(Submit(v, now))
  {
    if |v.input| > 0 && v.pending.Idle? {
      var added := v.messages + [UserMessage(v.input, now)];
      AppendReady(v.messages, UserMessage(v.input, now));
      AppendLoading(added, LoadingMessage(now));
    }
  }

  /**
   * `check_response` reports true exactly when a result is waiting; it then answers the last
   * message and clears the request, and otherwise changes nothing.
   */
  lemma CheckResponseOnlyWhenArrived(v: ChatView)
    ensures Checked(v).1 <==> v.pending.Arrived?
    ensures !v.pending.Arrived? ==> Checked(v).0 == v
    ensures v.pending.Arrived? ==> var w := Checked(v).0;
      && w.pending.Idle? && |w.messages| == |v.messages| && w.input == v.input && w.sent == v.sent
      && (|v.messages| > 0 ==> w.messages[..|v.messages| - 1] == v.messages[..|v.messages| - 1] && w.autoScroll)
  {
  }

  lemma CheckResponseKeepsInvariant(v: ChatView)
    requires Valid(v)
    ensures Valid(Checked(v).0)
  {
    match v.pending
    case Arrived(Success(reply)) => UpdateLastClosesLoading(v.messages, reply.message, Some(reply.agent));
    case Arrived(Failure(error)) => UpdateLastClosesLoading(v.messages, ErrorText(error), Some(ErrorAgent));
    case _ =>
  }

  /** A failed call is shown as the service-unavailable text from agent "error"; a reply is shown as it came. */
  lemma FailedCallArrivesAsReply(v: ChatView, call: Result<Reply, string>)
    requires v.pending.Awaiting? && Valid(v)
    ensures Valid(Delivered(v, call))
    ensures var w := Checked(Delivered(v, call)).0;
      && |w.messages| == |v.messages| > 0
      && w.messages[|v.messages| - 1].agent == Some(ShownAgent(call))
      && w.messages[|v.messages| - 1].content == ShownText(call)
  {
    var d := Delivered(v, call);
    var reply := Reply(ShownText(call), ShownAgent(call));
    assert d.pending == Arrived(Success(reply));
    assert Checked(d).0 == UpdateLastView(d, reply.message, Some(reply.agent)).(pending := Idle);
  }

  /** The text shown for a finished call. */
  function ShownText(call: Result<Reply, string>): string {
    if call.Success? then call.value.message else ServiceUnavailable(call.error)
  }

  /** The agent shown for a finished call. */
  function ShownAgent(call: Result<Reply, string>): string {
    if call.Success? then call.value.agent else ErrorAgent
  }

  /** The spinner frame stays a valid index, and moves by one only after more than 80 ms. */
  lemma SpinnerStaysInRange(v: ChatView, now: int)
    requires v.spinnerFrame < |SpinnerFrames|
    ensures SpinnerTick(v, now).spinnerFrame < |SpinnerFrames|
    ensures now - v.lastSpinnerUpdate > SpinnerInterval
      ==> SpinnerTick(v, now).spinnerFrame == if v.spinnerFrame == 9 then 0 else v.spinnerFrame + 1
    ensures now - v.lastSpinnerUpdate <= SpinnerInterval ==> SpinnerTick(v, now) == v
  {
  }

  lemma PollKeepsInvariant(v: ChatView, now: int)
    requires Valid(v)
    ensures Valid(Poll(v, now))
  {
    CheckResponseKeepsInvariant(v);
  }

  /** Every event the chat loop handles keeps the state valid. */
  lemma OnEventKeepsInvariant(v: ChatView, ev: ChatEvent, now: int)
    requires Valid(v)
    ensures Valid(OnEvent(v, ev, now).0)
  {
    if ev == KeyPress(EnterKey) {
      SubmitKeepsInvariant(v, now);
    }
  }

  /**
   * Esc closes the chat and only Esc does; typing, pasting and Backspace edit the input line and
   * nothing else; Home goes to the top and stops auto-scroll; End asks for auto-scroll.
   */
  lemma EditingKeys(v: ChatView, ev: ChatEvent, now: int)
    ensures OnEvent(v, ev, now).1 <==> ev == KeyPress(EscKey)
    ensures ev.Paste? ==> OnEvent(v, ev, now).0 == v.(input := v.input + ev.text)
    ensures ev.KeyPress? && ev.key.CharKey? ==> OnEvent(v, ev, now).0 == v.(input := v.input + [ev.key.c])
    ensures ev == KeyPress(BackspaceKey) && |v.input| > 0
      ==> OnEvent(v, ev, now).0 == v.(input := v.input[..|v.input| - 1])
    ensures ev == KeyPress(BackspaceKey) && |v.input| == 0 ==> OnEvent(v, ev, now).0 == v
    ensures ev == KeyPress(HomeKey) ==> OnEvent(v, ev, now).0 == v.(scrollOffset := 0, autoScroll := false)
    ensures ev == KeyPress(EndKey) ==> OnEvent(v, ev, now).0 == v.(autoScroll := true)
  {
    if ev == KeyPress(BackspaceKey) && |v.input| == 0 {
      assert v.(input := Pop(v.input)) == v;
    }
  }

  /** The scroll keys keep the offset within what the messages allow, and stop auto-scroll. */
  lemma ScrollKeysStayInBounds(v: ChatView, key: ChatKey, now: int)
    requires key in {UpKey, DownKey, PageUpKey, PageDownKey}
    ensures var w := OnEvent(v, KeyPress(key), now).0;
      && !w.autoScroll && w.messages == v.messages && w.input == v.input && w.pending == v.pending
      && (key in {UpKey, PageUpKey} ==> w.scrollOffset <= v.scrollOffset)
      && (key in {DownKey, PageDownKey} ==> w.scrollOffset <= MaxScroll(TotalLines(v.messages), v.lastVisibleHeight))
  {
  }

  // ---------------------------------------------------------------------------------------------
  // The object
  // ---------------------------------------------------------------------------------------------

  class ChatState {
    var messages: seq<ChatMessage>
    var input: string
    var scrollOffset: u16
    var autoScroll: bool
    var lastVisibleHeight: u16
    var spinnerFrame: nat
    var lastSpinnerUpdate: int
    var pending: Pending
    /** The texts handed to the agent service, oldest first. */
    var sent: seq<string>

    ghost function View(): ChatView
      reads this
    {
      ChatView(messages, input, scrollOffset, autoScroll, lastVisibleHeight, spinnerFrame, lastSpinnerUpdate, pending, sent)
    }

    constructor (now: int)
      ensures View() == Initial(now) && Valid(View())
    {
      messages := [ChatMessage(Assistant, WelcomeText, now, Ready, None)];
      input := [];
      scrollOffset := 0;
      autoScroll := true;
      lastVisibleHeight := 20;
      spinnerFrame := 0;
      lastSpinnerUpdate := now;
      pending := Idle;
      sent := [];
    }

    /** `count_total_lines`. */
    method CountTotalLines() returns (count: nat)
      ensures count == TotalLines(messages)
    {
      count := 0;
      var i := 0;
      while i < |messages|
        invariant 0 <= i <= |messages|
        invariant count == TotalLines(messages[..i])
      {
        var msg := messages[i];
        count := count + 1;
        count := count + 1;
        count := count + |Lines(msg.content, '\n', '\r')|;
        count := count + 1;
        count := count + 1;
        count := count + 1;
        TotalLinesAppend(messages[..i], msg);
        assert messages[..i + 1] == messages[..i] + [msg];
        i := i + 1;
      }
      assert messages[..i] == messages;
    }

    /** `scroll_to_bottom`. */
    method ScrollToBottom(visibleHeight: u16)
      modifies this`scrollOffset
      ensures View() == old(View()).(scrollOffset := MaxScroll(TotalLines(messages), visibleHeight))
    {
      var totalLines := CountTotalLines();
      if totalLines > visibleHeight {
        scrollOffset := (totalLines - visibleHeight) % 0x1_0000;
      } else {
        scrollOffset := 0;
      }
    }

    /** `max_scroll_offset`. */
    method MaxScrollOffset(visibleHeight: u16) returns (r: u16)
      ensures r == MaxScroll(TotalLines(messages), visibleHeight)
      ensures r <= TotalLines(messages)
    {
      var totalLines := CountTotalLines();
      if totalLines > visibleHeight {
        r := (totalLines - visibleHeight) % 0x1_0000;
      } else {
        r := 0;
      }
    }

    /** `scroll_down`, with the sum kept from wrapping. */
    method ScrollDown(n: u16, visibleHeight: u16)
      modifies this`scrollOffset, this`autoScroll
      ensures View() == old(View()).(scrollOffset := ScrollDownOffset(old(scrollOffset), n, MaxScroll(TotalLines(messages), visibleHeight)),
                                     autoScroll := false)
    {
      var maxOffset := MaxScrollOffset(visibleHeight);
      if scrollOffset + n < maxOffset {
        scrollOffset := scrollOffset + n;
      } else {
        scrollOffset := maxOffset;
      }
      autoScroll := false;
    }

    /** `scroll_up`. */
    method ScrollUp(n: u16)
      modifies this`scrollOffset, this`autoScroll
      ensures View() == old(View()).(scrollOffset := ScrollUpOffset(old(scrollOffset), n), autoScroll := false)
    {
      if n <= scrollOffset {
        scrollOffset := scrollOffset - n;
      } else {
        scrollOffset := 0;
      }
      autoScroll := false;
    }

    /** `add_user_message`. */
    method AddUserMessage(content: string, now: int)
      modifies this`messages, this`autoScroll
      ensures View() == AddMessage(old(View()), UserMessage(content, now))
      ensures Valid(old(View())) && pending.Idle? ==> Valid(View())
    {
      messages := messages + [ChatMessage(User, content, now, Ready, None)];
      autoScroll := true;
      if pending.Idle? && Valid(old(View())) {
        AppendReady(old(messages), UserMessage(content, now));
      }
    }

    /** `add_assistant_message`. */
    method AddAssistantMessage(content: string, agent: Option<string>, now: int)
      modifies this`messages, this`autoScroll
      ensures View() == AddMessage(old(View()), ChatMessage(Assistant, content, now, Ready, agent))
      ensures Valid(old(View())) && pending.Idle? ==> Valid(View())
    {
      messages := messages + [ChatMessage(Assistant, content, now, Ready, agent)];
      autoScroll := true;
      if pending.Idle? && Valid(old(View())) {
        AppendReady(old(messages), ChatMessage(Assistant, content, now, Ready, agent));
      }
    }

    /** `add_loading_message`. */
    method AddLoadingMessage(now: int)
      modifies this`messages, this`autoScroll
      ensures View() == AddMessage(old(View()), LoadingMessage(now))
    {
      messages := messages + [ChatMessage(Assistant, LoadingText, now, Loading, None)];
      autoScroll := true;
    }

    /** `update_last_message`: a no-op on an empty list. */
    method UpdateLastMessage(content: string, agent: Option<string>)
      modifies this`messages, this`autoScroll
      ensures View() == UpdateLastView(old(View()), content, agent)
    {
      if |messages| > 0 {
        var last := messages[|messages| - 1];
        messages := messages[..|messages| - 1] + [last.(content := content, state := Ready, agent := agent)];
        autoScroll := true;
      }
    }

    /** `clear_input`. */
    method ClearInput()
      modifies this`input
      ensures View() == old(View()).(input := [])
    {
      input := [];
    }

    /** `start_generate_response`, up to handing the text to the worker thread. */
    method StartGenerateResponse(userInput: string, now: int)
      modifies this`pending, this`sent, this`messages, this`autoScroll
      ensures View() == StartGenerate(old(View()), userInput, now)
      ensures Valid(old(View())) && old(pending).Idle? ==> Valid(View())
    {
      sent := sent + [userInput];
      pending := Awaiting;
      AddLoadingMessage(now);
      if old(pending).Idle? && Valid(old(View())) {
        AppendLoading(old(messages), LoadingMessage(now));
      }
    }

    /** The worker thread's result reaching the channel. */
    method Deliver(call: Result<Reply, string>)
      modifies this`pending
      ensures View() == Delivered(old(View()), call)
    {
      if pending.Awaiting? {
        pending := Arrived(WorkerResult(call));
      }
    }

    /** `check_response`. */
    method CheckResponse() returns (arrived: bool)
      modifies this`messages, this`autoScroll, this`pending
      ensures (View(), arrived) == Checked(old(View()))
    {
      match pending {
        case Arrived(result) =>
          match result {
            case Success(reply) =>
              UpdateLastMessage(reply.message, Some(reply.agent));
            case Failure(error) =>
              UpdateLastMessage(ErrorText(error), Some(ErrorAgent));
          }
          pending := Idle;
          return true;
        case _ =>
      }
      return false;
    }

    /** `update_spinner`. */
    method UpdateSpinner(now: int)
      modifies this`spinnerFrame, this`lastSpinnerUpdate
      ensures View() == SpinnerTick(old(View()), now)
    {
      if now - lastSpinnerUpdate > SpinnerInterval {
        spinnerFrame := (spinnerFrame + 1) % |SpinnerFrames|;
        lastSpinnerUpdate := now;
      }
    }

    /** The top of a pass of `run_chat_loop`. */
    method PollStep(now: int)
      modifies this`messages, this`autoScroll, this`pending, this`spinnerFrame, this`lastSpinnerUpdate
      ensures View() == Poll(old(View()), now)
    {
      var _ := CheckResponse();
      if !pending.Idle? {
        UpdateSpinner(now);
      }
    }

    /** The event arms of `run_chat_loop`: returns whether the chat closes. */
    method HandleEvent(ev: ChatEvent, now: int) returns (closed: bool)
      modifies this`messages, this`input, this`scrollOffset, this`autoScroll, this`pending, this`sent
      ensures (View(), closed) == OnEvent(old(View()), ev, now)
    {
      closed := false;
      match ev {
        case Paste(text) =>
          input := input + text;
        case OtherEvent =>
        case KeyPress(key) =>
          var visibleHeight := lastVisibleHeight;
          match key {
            case EscKey =>
              return true;
            case UpKey =>
              ScrollUp(1);
            case DownKey =>
              ScrollDown(1, visibleHeight);
            case PageUpKey =>
              ScrollUp(10);
            case PageDownKey =>
              ScrollDown(10, visibleHeight);
            case HomeKey =>
              scrollOffset := 0;
              autoScroll := false;
            case EndKey =>
              autoScroll := true;
            case EnterKey =>
              if |input| > 0 && pending.Idle? {
                var userMessage := input;
                AddUserMessage(userMessage, now);
                ClearInput();
                StartGenerateResponse(userMessage, now);
              }
            case CharKey(c) =>
              input := input + [c];
            case BackspaceKey =>
              if |input| > 0 {
                input := input[..|input| - 1];
              }
            case OtherKey =>
          }
      }
    }
  }
}
