/**
 * The intent router of python/agents/orchestrator.py: a message is scored against three keyword
 * lists, the best-scoring intent wins (the earliest on a tie), a message with no keyword at all is
 * "general", and a fixed table names the agent for each intent.
 */
module Orchestration {
  import opened Wrappers
  import opened Text
  import opened PyStr

  datatype Intent = CommandHelp | Research | Report | General

  /** The name `detect_intent` returns for an intent. */
  function IntentName(i: Intent): (r: string)
    ensures r in {"command_help", "research", "report", "general"}
  {
    match i
    case CommandHelp => "command_help"
    case Research => "research"
    case Report => "report"
    case General => "general"
  }

  /** The intents that have keywords, in the order of `INTENT_KEYWORDS`. */
  const Ranked: seq<Intent> := [CommandHelp, Research, Report]

  /** `INTENT_KEYWORDS`, one keyword list per intent of `Ranked`. */
  const KeywordTable: seq<seq<string>> := [CommandHelpKeywords, ResearchKeywords, ReportKeywords]

  const CommandHelpKeywords: seq<string> :=
    ["comment", "syntaxe", "utiliser", "commande", "command", "option", "flag", "param\U{E8}tre", "exemple"]

  const ResearchKeywords: seq<string> :=
    ["cve", "vuln\U{E9}rabilit\U{E9}", "vulnerability", "exploit", "recherche", "chercher", "trouver", "poc",
     "proof of concept", "security advisory"]

  const ReportKeywords: seq<string> :=
    ["rapport", "report", "r\U{E9}sum\U{E9}", "summary", "historique", "history", "logs", "documentation", "documenter"]

  /** How many of the keywords occur in `text` (Python `keyword in text`, summed). */
  function Score(text: string, keywords: seq<string>): (r: nat)
    ensures r <= |keywords|
    ensures r == 0 <==> forall k :: 0 <= k < |keywords| ==> !Contains(text, keywords[k])
    decreases |keywords|
  {
    if |keywords| == 0 then 0
    else
      IndexOfContains(text, keywords[0]);
      (if IndexOf(text, keywords[0]).Some? then 1 else 0) + Score(text, keywords[1..])
  }

  /** A single keyword scores 1 when it occurs in the text and 0 otherwise. */
  lemma ScoreSingle(text: string, keyword: string)
    ensures Score(text, [keyword]) == if Contains(text, keyword) then 1 else 0
  {
    IndexOfContains(text, keyword);
    assert [keyword][1..] == [];
  }

  /**
   * The score of two keyword lists together is the sum of their scores; with `ScoreSingle` this
   * makes the score the number of keywords that occur, counted once per list entry.
   */
  lemma {:induction false} ScoreAppend(text: string, a: seq<string>, b: seq<string>)
    ensures Score(text, a + b) == Score(text, a) + Score(text, b)
    decreases |a|
  {
    if |a| == 0 {
      assert a + b == b;
    } else {
      assert (a + b)[1..] == a[1..] + b;
      ScoreAppend(text, a[1..], b);
    }
  }

  /** The score of each keyword list of a table, in order. */
  function Scores(text: string, table: seq<seq<string>>): (s: seq<nat>)
    ensures |s| == |table|
    ensures forall j :: 0 <= j < |table| ==> s[j] == Score(text, table[j])
  {
    seq(|table|, j requires 0 <= j < |table| => Score(text, table[j]))
  }

  /** Python `max` over the values; 0 for none. */
  function MaxOf(s: seq<nat>): (m: nat)
    ensures |s| > 0 ==> m in s
    ensures forall k :: 0 <= k < |s| ==> s[k] <= m
    decreases |s|
  {
    if |s| == 0 then 0
    else
      var rest := MaxOf(s[1..]);
      assert forall k :: 1 <= k < |s| ==> s[k] == s[1..][k - 1];
      if s[0] >= rest then s[0] else rest
  }

  /** The position in the table of the first best-scoring list, when some keyword occurs at all. */
  function ChosenIndex(text: string, table: seq<seq<string>>): (r: Option<nat>)
    ensures r.Some? ==> r.value < |table|
  {
    var s := Scores(text, table);
    var top := MaxOf(s);
    if top > 0 then Some(FirstIndexOf(s, top).value) else None
  }

  /** Nothing is chosen exactly when no keyword of any list occurs in the text. */
  lemma NoneIffNoKeyword(text: string, table: seq<seq<string>>)
    ensures ChosenIndex(text, table).None?
      <==> forall j, k :: 0 <= j < |table| && 0 <= k < |table[j]| ==> !Contains(text, table[j][k])
  {
    var s := Scores(text, table);
    var top := MaxOf(s);
    if top == 0 {
      forall j | 0 <= j < |table| ensures Score(text, table[j]) == 0 {
        assert s[j] <= top;
      }
    } else {
      var j :| 0 <= j < |s| && s[j] == top;
      assert Score(text, table[j]) > 0;
    }
  }

  /** The chosen list has the highest score, and every list before it scores strictly less. */
  lemma ChosenIsFirstBest(text: string, table: seq<seq<string>>)
    requires ChosenIndex(text, table).Some?
    ensures var i := ChosenIndex(text, table).value;
      && Score(text, table[i]) > 0
      && (forall j :: 0 <= j < |table| ==> Score(text, table[j]) <= Score(text, table[i]))
      && (forall j :: 0 <= j < i ==> Score(text, table[j]) < Score(text, table[i]))
  {
    var s := Scores(text, table);
    var top := MaxOf(s);
    var i := FirstIndexOf(s, top).value;
    BelowBeforeFirst(s, top, i);
  }

  /** Before the first occurrence of the maximum every value is strictly smaller. */
  lemma BelowBeforeFirst(s: seq<nat>, top: nat, i: nat)
    requires i <= |s| && top !in s[..i]
    requires forall k :: 0 <= k < |s| ==> s[k] <= top
    ensures forall j :: 0 <= j < i ==> s[j] < top
  {
    forall j | 0 <= j < i ensures s[j] < top {
      assert s[..i][j] == s[j];
    }
  }

  /** The intent `detect_intent` chooses for an already lowered message. */
  function ChosenIntent(text: string): Intent {
    IntentAt(ChosenIndex(text, KeywordTable))
  }

  /** The intent at a position of `Ranked`, or "general" for none. */
  function IntentAt(r: Option<nat>): (i: Intent)
    requires r.Some? ==> r.value < |Ranked|
    ensures i == General <==> r.None?
    ensures r.Some? ==> Rank(i) == r.value && Ranked[r.value] == i
  {
    match r
    case None => General
    case Some(k) => Ranked[k]
  }

  /** The position of an intent in `Ranked`. */
  function Rank(i: Intent): nat {
    match i
    case CommandHelp => 0
    case Research => 1
    case Report => 2
    case General => 3
  }

  /** The answer is "general" exactly when no keyword of any intent occurs in the text. */
  lemma GeneralIffNoKeyword(text: string)
    ensures ChosenIntent(text) == General
      <==> forall j, k :: 0 <= j < |KeywordTable| && 0 <= k < |KeywordTable[j]| ==> !Contains(text, KeywordTable[j][k])
  {
    NoneIffNoKeyword(text, KeywordTable);
  }

  /**
   * An intent other than "general" has the highest score, and every intent listed before it
   * scores strictly less (so ties go to the earliest of command_help, research, report).
   */
  lemma ChosenIntentIsFirstBest(text: string)
    requires ChosenIntent(text) != General
    ensures var c := Rank(ChosenIntent(text));
      && c < |KeywordTable| && Ranked[c] == ChosenIntent(text)
      && Score(text, KeywordTable[c]) > 0
      && (forall j :: 0 <= j < |KeywordTable| ==> Score(text, KeywordTable[j]) <= Score(text, KeywordTable[c]))
      && (forall j :: 0 <= j < c ==> Score(text, KeywordTable[j]) < Score(text, KeywordTable[c]))
  {
    ChosenIsFirstBest(text, KeywordTable);
  }

  /** The scoring loop of `detect_intent` and the two `max` calls after it, for any keyword table. */
  method ChooseIndex(text: string, table: seq<seq<string>>) returns (r: Option<nat>)
    ensures r == ChosenIndex(text, table)
  {
    var scores: seq<nat> := [];
    var i := 0;
    while i < |table|
      invariant 0 <= i <= |table|
      invariant scores == Scores(text, table)[..i]
    {
      scores := scores + [Score(text, table[i])];
      i := i + 1;
    }
    assert scores == Scores(text, table);
    var top := MaxOf(scores);
    if top > 0 {
      var first := FirstIndexOf(scores, top);
      r := Some(first.value);
    } else {
      r := None;
    }
  }

  /** `detect_intent`: lower the message, score it against `INTENT_KEYWORDS` and pick the first best. */
  method DetectIntent(message: string) returns (intent: Intent)
    ensures intent == ChosenIntent(Lower(message))
  {
    var lowered := Lower(message);
    var chosen := ChooseIndex(lowered, KeywordTable);
    intent := IntentAt(chosen);
  }

  /** The routing table of `route`. */
  function AgentFor(i: Intent): string {
    match i
    case CommandHelp => "toolsmith"
    case Research => "researcher"
    case Report => "scribe"
    case General => "general"
  }

  /** What `route` returns. */
  datatype Routing = Routing(agent: string, intent: string, message: string)

  /** `route`: the detected intent, the agent the table gives for it, and the message unchanged. */
  method Route(message: string) returns (r: Routing)
    ensures r.intent == IntentName(ChosenIntent(Lower(message)))
    ensures r.agent == AgentFor(ChosenIntent(Lower(message)))
    ensures r.message == message
  {
    var intent := DetectIntent(message);
    r := Routing(AgentFor(intent), IntentName(intent), message);
  }
}
