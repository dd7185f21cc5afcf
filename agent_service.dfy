/**
 * `_extract_commands` of python/agent_service.py: the lines of an agent's reply that look like
 * shell commands, offered to the terminal as numbered suggestions (at most nine, for keys 1 to 9).
 */
module AgentService {
  import opened Text
  import opened PyStr

  /** The command names a suggested line may start with. */
  const CommandPrefixes: seq<string> :=
    ["nmap", "sqlmap", "nc", "netcat", "curl", "wget", "grep", "find", "awk", "sed", "python", "ruby"]

  /** The number of suggestions the terminal can offer. */
  const MaxCommands: nat := 9

  /** A stripped line is a command line when it starts with one of the prefixes followed by a space. */
  predicate IsCommandLine(trimmed: string, prefixes: seq<string>) {
    exists k :: 0 <= k < |prefixes| && StartsWith(trimmed, prefixes[k] + " ")
  }

  /** What one line contributes: itself stripped, when that is a command line. */
  function KeepLine(line: string, prefixes: seq<string>): (r: seq<string>)
    ensures |r| <= 1
  {
    var trimmed := Strip(line);
    if IsCommandLine(trimmed, prefixes) then [trimmed] else []
  }

  /** The stripped lines that are command lines, in order: each line gives at most one element. */
  function Kept(lines: seq<string>, prefixes: seq<string>): seq<string> {
    FlatMap(lines, line => KeepLine(line, prefixes))
  }

  /** Kept lines of two blocks of lines come in the order of the blocks. */
  lemma KeptAppend(a: seq<string>, b: seq<string>, prefixes: seq<string>)
    ensures Kept(a + b, prefixes) == Kept(a, prefixes) + Kept(b, prefixes)
  {
    FlatMapAppend(a, b, line => KeepLine(line, prefixes));
  }

  /** Every kept element is a stripped command line, and there are no more of them than lines. */
  lemma {:induction false} KeptElements(lines: seq<string>, prefixes: seq<string>)
    ensures |Kept(lines, prefixes)| <= |lines|
    ensures forall e :: e in Kept(lines, prefixes) ==> IsCommandLine(e, prefixes) && Strip(e) == e
    decreases |lines|
  {
    if |lines| > 0 {
      assert Kept(lines, prefixes) == KeepLine(lines[0], prefixes) + Kept(lines[1..], prefixes);
      KeptElements(lines[1..], prefixes);
      StripIdempotent(lines[0]);
    }
  }

  /** Python `s[:n]`: the first `n` elements, or all of them. */
  function Take<T>(s: seq<T>, n: nat): (r: seq<T>)
    ensures |r| == if |s| < n then |s| else n
    ensures r == s[..|r|]
  {
    if |s| <= n then s else s[..n]
  }

  /** What `_extract_commands` returns: the first nine command lines of the text split at line feeds. */
  function Extracted(text: string): seq<string> {
    Take(Kept(Split(text, '\n'), CommandPrefixes), MaxCommands)
  }

  /** An empty reply suggests nothing. */
  lemma EmptyTextGivesNothing()
    ensures Extracted([]) == []
  {
    assert Split([], '\n') == [[]];
    assert Strip([]) == [];
    assert !IsCommandLine([], CommandPrefixes);
    assert Kept([[]], CommandPrefixes) == KeepLine([], CommandPrefixes) + Kept([], CommandPrefixes);
  }

  /** One more line extends the kept lines by what that line contributes. */
  lemma KeptStep(lines: seq<string>, i: nat, prefixes: seq<string>)
    requires i < |lines|
    ensures Kept(lines[..i + 1], prefixes) == Kept(lines[..i], prefixes) + KeepLine(lines[i], prefixes)
  {
    FlatMapStep(lines, i, line => KeepLine(line, prefixes));
  }

  /** `_extract_commands`: scan the lines, keep each stripped line that matches a prefix, then cut at nine. */
  method ExtractCommands(text: string) returns (commands: seq<string>)
    ensures commands == Extracted(text)
    ensures |commands| <= MaxCommands
    ensures forall e :: e in commands ==> IsCommandLine(e, CommandPrefixes) && Strip(e) == e
  {
    var lines := Split(text, '\n');
    var found: seq<string> := [];
    var i := 0;
    while i < |lines|
      invariant 0 <= i <= |lines|
      invariant found == Kept(lines[..i], CommandPrefixes)
    {
      var trimmed, matched := MatchLine(lines[i], CommandPrefixes);
      KeptStep(lines, i, CommandPrefixes);
      if matched {
        found := found + [trimmed];
      }
      i := i + 1;
    }
    assert lines[..i] == lines;
    KeptElements(lines, CommandPrefixes);
    commands := Take(found, MaxCommands);
  }

  /** The inner loop of `_extract_commands`: strip the line and try the prefixes in order, stopping at the first match. */
  method MatchLine(line: string, prefixes: seq<string>) returns (trimmed: string, matched: bool)
    ensures trimmed == Strip(line)
    ensures matched <==> IsCommandLine(trimmed, prefixes)
  {
    trimmed := Strip(line);
    matched := false;
    var j := 0;
    while j < |prefixes|
      invariant 0 <= j <= |prefixes|
      invariant forall k :: 0 <= k < j ==> !StartsWith(trimmed, prefixes[k] + " ")
    {
      if StartsWith(trimmed, prefixes[j] + " ") {
        matched := true;
        break;
      }
      j := j + 1;
    }
  }
}
