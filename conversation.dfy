/**
 * The conversation bookkeeping of `ChatAgent` in python/agents/chat_agent.py: the system prompt
 * with the recent terminal commands, the history sent along with each question, its trimming to
 * the twenty most recent entries, and the sorting of a failed call into timeout, connection error
 * or anything else. The Mistral call itself is a parameter: its reply text, or the text of the
 * exception it raised.
 */
module Conversation {
  import opened Wrappers
  import opened Text
  import opened PyStr

  /** One entry of `conversation_history`, or of the request: `{"role": ..., "content": ...}`. */
  datatype Entry = Entry(role: string, content: string)

  /** How a call that raised ends: the two exceptions `chat` raises itself, or the original one raised again. */
  datatype ChatError = TimedOut(message: string) | ConnectionLost(message: string) | Raised(error: string)

  /** `MAX_HISTORY_MESSAGES`. */
  const MaxHistoryMessages: nat := 20

  /** How many recent terminal commands the system prompt shows. */
  const ContextCommands: nat := 5

  const BasePrompt: string :=
    "You are Petoncle, an AI assistant for pentesters and security researchers.\n"
    + "You help users with terminal commands, security tools, and cybersecurity tasks.\n"
    + "\n"
    + "Key capabilities:\n"
    + "- Suggest shell commands for security testing\n"
    + "- Explain security tools (nmap, sqlmap, metasploit, etc.)\n"
    + "- Help with penetration testing workflows\n"
    + "- Provide command examples\n"
    + "\n"
    + "Always be helpful, concise, and security-focused.\n"

  const ContextHeader: string := "\n\nRecent terminal commands:\n"

  /** Each command as a shell line, `"$ cmd"`. */
  function ShellLines(commands: seq<string>): (r: seq<string>)
    ensures |r| == |commands|
    ensures forall k :: 0 <= k < |r| ==> r[k] == "$ " + commands[k]
  {
    seq(|commands|, k requires 0 <= k < |commands| => "$ " + commands[k])
  }

  /** The context part of the prompt: the last five commands as shell lines, one per line. */
  function ContextBlock(context: seq<string>): string {
    Join(ShellLines(LastN(context, ContextCommands)), '\n')
  }

  /** The system prompt: the base prompt, followed by the recent commands when there are any. */
  function SystemPrompt(context: Option<seq<string>>): (p: string)
    ensures context.None? || |context.value| == 0 ==> p == BasePrompt
    ensures context.Some? && |context.value| > 0 ==>
      StartsWith(p, BasePrompt + ContextHeader) && p[|BasePrompt + ContextHeader|..] == ContextBlock(context.value)
  {
    if context.Some? && |context.value| > 0 then
      AppendParts(BasePrompt + ContextHeader, ContextBlock(context.value));
      BasePrompt + ContextHeader + ContextBlock(context.value)
    else BasePrompt
  }

  /**
   * The context part lists exactly the last (at most five) commands, one per line, each behind
   * "$ ": splitting it at line feeds gives them back, provided no command holds a line feed.
   */
  lemma ContextLinesRecoverable(context: seq<string>)
    requires |context| > 0
    requires forall c :: c in context ==> '\n' !in c
    ensures var lines := Split(ContextBlock(context), '\n');
      && 1 <= |lines| <= ContextCommands
      && lines == ShellLines(LastN(context, ContextCommands))
      && EndsWith(context, seq(|lines|, k requires 0 <= k < |lines| => lines[k][2..]))
  {
    var recent := LastN(context, ContextCommands);
    var shown := ShellLines(recent);
    forall k | 0 <= k < |shown| ensures '\n' !in shown[k] {
      assert recent[k] == context[|context| - |recent| + k];
      assert recent[k] in context;
      assert shown[k] == "$ " + recent[k];
    }
    SplitJoin(shown, '\n');
    var back := seq(|shown|, k requires 0 <= k < |shown| => shown[k][2..]);
    assert back == recent;
  }

  /** What `str(e).lower()` decides about an exception raised by the call. */
  function Classify(error: string): (r: ChatError)
    ensures r.Raised? ==> r.error == error
  {
    var lowered := Lower(error);
    if IndexOf(lowered, "timeout").Some? then TimedOut("Mistral API call timed out after 30.0s")
    else if IndexOf(lowered, "connection").Some? || IndexOf(lowered, "network").Some? then
      ConnectionLost("Mistral API connection error: " + error)
    else Raised(error)
  }

  /** "timeout" is checked first; then "connection" or "network"; anything else is raised again unchanged. */
  lemma ClassifyOrder(error: string)
    ensures Classify(error).TimedOut? <==> Contains(Lower(error), "timeout")
    ensures Classify(error).ConnectionLost?
      <==> !Contains(Lower(error), "timeout") && (Contains(Lower(error), "connection") || Contains(Lower(error), "network"))
    ensures Classify(error).Raised?
      <==> !Contains(Lower(error), "timeout") && !Contains(Lower(error), "connection") && !Contains(Lower(error), "network")
  {
    IndexOfContains(Lower(error), "timeout");
    IndexOfContains(Lower(error), "connection");
    IndexOfContains(Lower(error), "network");
  }

  function UserEntry(message: string): Entry {
    Entry("user", message)
  }

  function AssistantEntry(reply: string): Entry {
    Entry("assistant", reply)
  }

  /** The request sent to the API: the system prompt, then the whole history. */
  function Request(context: Option<seq<string>>, history: seq<Entry>): seq<Entry> {
    [Entry("system", SystemPrompt(context))] + history
  }

  /** The history after a call that answered: the last twenty of the old history, the question and the answer. */
  function Answered(history: seq<Entry>, message: string, reply: string): (h: seq<Entry>)
    ensures |h| <= MaxHistoryMessages
    ensures EndsWith(history + [UserEntry(message), AssistantEntry(reply)], h)
  {
    var full := history + [UserEntry(message), AssistantEntry(reply)];
    if |full| > MaxHistoryMessages then full[|full| - MaxHistoryMessages..] else full
  }

  /**
   * After a call that answered, the history holds at most twenty entries, the most recent ones in
   * order, and ends with the question followed by the answer.
   */
  lemma AnsweredKeepsRecent(history: seq<Entry>, message: string, reply: string)
    ensures var h := Answered(history, message, reply);
      && |h| <= MaxHistoryMessages
      && h == LastN(history + [UserEntry(message), AssistantEntry(reply)], MaxHistoryMessages)
      && EndsWith(h, [UserEntry(message), AssistantEntry(reply)])
  {
    var full := history + [UserEntry(message), AssistantEntry(reply)];
    var h := Answered(history, message, reply);
    assert h[|h| - 2..] == full[|full| - 2..];
  }

  /** The history after a call that raised: the question stays, and nothing is trimmed. */
  function Failed(history: seq<Entry>, message: string): (h: seq<Entry>)
    ensures |h| == |history| + 1 && h[..|history|] == history && h[|history|] == UserEntry(message)
  {
    history + [UserEntry(message)]
  }

  /** Calls that keep failing grow the history by one entry each, past the cap of twenty. */
  lemma {:induction false} FailuresPassTheCap(history: seq<Entry>, messages: seq<string>)
    ensures |FailAll(history, messages)| == |history| + |messages|
    ensures |history| == MaxHistoryMessages && |messages| > 0 ==> |FailAll(history, messages)| > MaxHistoryMessages
    decreases |messages|
  {
    if |messages| > 0 {
      FailuresPassTheCap(Failed(history, messages[0]), messages[1..]);
    }
  }

  /** The history after one failed call per message, in order. */
  function FailAll(history: seq<Entry>, messages: seq<string>): seq<Entry>
    decreases |messages|
  {
    if |messages| == 0 then history else FailAll(Failed(history, messages[0]), messages[1..])
  }

  class ChatAgent {
    var conversationHistory: seq<Entry>

    constructor ()
      ensures conversationHistory == []
    {
      conversationHistory := [];
    }

    /**
     * `chat`: `call` is what the Mistral call does with the request, its reply text or the text of
     * the exception it raised. Returns the request it sent and the reply or the error it raises.
     */
    method Chat(message: string, context: Option<seq<string>>, call: Result<string, string>)
      returns (request: seq<Entry>, outcome: Result<string, ChatError>)
      modifies this
      ensures request == Request(context, old(conversationHistory) + [UserEntry(message)])
      ensures call.Failure? ==>
        outcome == Failure(Classify(call.error)) && conversationHistory == Failed(old(conversationHistory), message)
      ensures call.Success? ==>
        outcome == Success(call.value) && conversationHistory == Answered(old(conversationHistory), message, call.value)
    {
      conversationHistory := conversationHistory + [UserEntry(message)];
      request := Request(context, conversationHistory);
      match call {
        case Failure(error) =>
          outcome := Failure(Classify(error));
          return;
        case Success(reply) =>
          conversationHistory := conversationHistory + [AssistantEntry(reply)];
          assert conversationHistory == old(conversationHistory) + [UserEntry(message), AssistantEntry(reply)];
          if |conversationHistory| > MaxHistoryMessages {
            conversationHistory := conversationHistory[|conversationHistory| - MaxHistoryMessages..];
          }
          outcome := Success(reply);
      }
    }

    /** `reset`. */
    method Reset()
      modifies this
      ensures conversationHistory == []
    {
      conversationHistory := [];
    }
  }
}
