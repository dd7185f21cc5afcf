/**
 * The shell-integration capture engine of src/capture.rs.
 *
 * The child shell announces each command with two OSC control strings (ECMA-48 section 8.3.89,
 * "OPERATING SYSTEM COMMAND", terminated by BEL as xterm allows): `ESC ] 133 ; C ; <command> BEL`
 * just before the command runs and `ESC ] 133 ; D ; <exit status> BEL` once it has finished.
 * `CommandCapture` watches the shell's output chunk by chunk: it keeps an append-only history of
 * finished records, at most one open record, and a bounded window of recent output that feeds a
 * prompt-recognition heuristic.
 *
 * Text is modelled as the UTF-8 bytes of Rust's `&str`; the history bookkeeping is specified by the
 * pure transition functions on `Log` below, which the methods of `CommandCapture` implement.
 */
module Capture {
  import opened Wrappers
  import opened Text
  import opened Utf8

  type i32 = x: int | -0x8000_0000 <= x < 0x8000_0000

  const Esc: byte := 0x1B
  const Bel: byte := 0x07
  const LineFeed: byte := 0x0A
  const CarriageReturn: byte := 0x0D

  /** The start of a marker: bytes that hold no BEL, so that the first BEL after one lies beyond it. */
  type MarkerPrefix = s: seq<byte> | Bel !in s

  /** `ESC ] 1 3 3 ;`, the start of every shell-integration marker. */
  const OscPrefix: MarkerPrefix := [0x1B, 0x5D, 0x31, 0x33, 0x33, 0x3B]
  /** `ESC ] 1 3 3 ; C ;`, the command-start marker. */
  const CommandStartPrefix: MarkerPrefix := [0x1B, 0x5D, 0x31, 0x33, 0x33, 0x3B, 0x43, 0x3B]
  /** `ESC ] 1 3 3 ; D ;`, the command-end marker. */
  const CommandEndPrefix: MarkerPrefix := [0x1B, 0x5D, 0x31, 0x33, 0x33, 0x3B, 0x44, 0x3B]

  /** The prompt window keeps the last 4096 bytes of output. */
  const PromptWindow: nat := 4096
  /** A prompt line is shorter than 200 bytes. */
  const PromptLineLimit: nat := 200

  // ---------------------------------------------------------------------------------------------
  // Captured commands
  // ---------------------------------------------------------------------------------------------

  /** One command seen between its start marker and the next one. */
  datatype CapturedCommand = CapturedCommand(
    command: seq<byte>,
    output: seq<byte>,
    exitCode: Option<i32>,
    timestamp: int,
    workingDir: seq<byte>)
  {
    /** `append_output`: the chunk goes after the output gathered so far. */
    function AppendOutput(data: seq<byte>): (r: CapturedCommand)
      ensures |r.output| == |output| + |data| && r.output[..|output|] == output && r.output[|output|..] == data
      ensures r.command == command && r.exitCode == exitCode && r.timestamp == timestamp && r.workingDir == workingDir
    {
      this.(output := output + data)
    }

    /** `set_exit_code`: records (or overwrites) the exit status. */
    function SetExitCode(code: i32): (r: CapturedCommand)
      ensures r.exitCode == Some(code)
      ensures r.command == command && r.output == output && r.timestamp == timestamp && r.workingDir == workingDir
    {
      this.(exitCode := Some(code))
    }

    /** `is_complete`: an exit status has been recorded. */
    predicate IsComplete() {
      exitCode.Some?
    }
  }

  /** `CapturedCommand::new`: no output and no exit status yet; `now` stands for `Local::now()`. */
  function NewCommand(command: seq<byte>, workingDir: seq<byte>, now: int): (r: CapturedCommand)
    ensures r.command == command && r.output == [] && r.exitCode == None && r.workingDir == workingDir
  {
    CapturedCommand(command, [], None, now, workingDir)
  }

  /** A new record is incomplete; appending output keeps completeness as it was; setting a status completes it. */
  lemma RecordCompletion(c: CapturedCommand, command: seq<byte>, workingDir: seq<byte>, now: int, data: seq<byte>, code: i32)
    ensures !NewCommand(command, workingDir, now).IsComplete()
    ensures c.AppendOutput(data).IsComplete() == c.IsComplete()
    ensures c.SetExitCode(code).IsComplete()
  {
  }

  // ---------------------------------------------------------------------------------------------
  // Decimal exit statuses (`str::parse::<i32>` and the shell's `printf '%s' "$?"`)
  // ---------------------------------------------------------------------------------------------

  predicate IsDigit(b: byte) {
    0x30 <= b <= 0x39
  }

  predicate AllDigits(s: seq<byte>) {
    forall j :: 0 <= j < |s| ==> IsDigit(s[j])
  }

  /** The value of a run of decimal digits, most significant first. */
  function DigitsValue(ds: seq<byte>): nat
    requires AllDigits(ds)
    decreases |ds|
  {
    if |ds| == 0 then 0 else DigitsValue(ds[..|ds| - 1]) * 10 + (ds[|ds| - 1] - 0x30)
  }

  /**
   * Rust's `<i32 as FromStr>::from_str`: an optional `+` or `-`, then one or more ASCII digits,
   * nothing else, and a value that fits in 32 bits.
   */
  function ParseI32(s: seq<byte>): (r: Option<i32>)
    ensures r.Some? ==> |s| > 0
    ensures r.Some? && r.value < 0 ==> s[0] == 0x2D
    ensures r.Some? ==> (
      var d := if s[0] == 0x2B || s[0] == 0x2D then s[1..] else s;
      |d| > 0 && AllDigits(d) && r.value == (if s[0] == 0x2D then -(DigitsValue(d) as int) else DigitsValue(d)))
  {
    var signed := |s| > 0 && (s[0] == 0x2D || s[0] == 0x2B);
    var digits := if signed then s[1..] else s;
    if |digits| == 0 || !AllDigits(digits) then None
    else
      var v: int := if |s| > 0 && s[0] == 0x2D then -(DigitsValue(digits) as int) else DigitsValue(digits);
      if -0x8000_0000 <= v < 0x8000_0000 then Some(v) else None
  }

  /** The decimal digits of `m`, without leading zeros. */
  function Decimal(m: nat): (r: seq<byte>)
    ensures |r| > 0 && AllDigits(r)
    decreases m
  {
    if m < 10 then [0x30 + m] else Decimal(m / 10) + [0x30 + m % 10]
  }

  /** How the shell hook prints an exit status. */
  function FormatI32(n: i32): seq<byte> {
    if n < 0 then [0x2D] + Decimal(-(n as int)) else Decimal(n)
  }

  lemma {:induction false} DecimalValue(m: nat)
    ensures DigitsValue(Decimal(m)) == m
    decreases m
  {
    if m >= 10 {
      var d := Decimal(m);
      assert d[..|d| - 1] == Decimal(m / 10);
      DecimalValue(m / 10);
    }
  }

  /** Parsing what the hook prints gives back the exit status. */
  lemma ParseFormatI32(n: i32)
    ensures ParseI32(FormatI32(n)) == Some(n)
  {
    if n < 0 {
      var m := -(n as int);
      DecimalValue(m);
      ParseNegative(Decimal(m));
    } else {
      DecimalValue(n);
      ParseUnsigned(Decimal(n));
    }
  }

  /** Digits alone parse to their value when it fits. */
  lemma ParseUnsigned(s: seq<byte>)
    requires |s| > 0 && AllDigits(s)
    ensures ParseI32(s) == if DigitsValue(s) < 0x8000_0000 then Some(DigitsValue(s)) else None
  {
    assert IsDigit(s[0]);
  }

  /** A plus sign before digits parses to their value when it fits. */
  lemma ParsePlus(digits: seq<byte>)
    requires |digits| > 0 && AllDigits(digits)
    ensures ParseI32([0x2B] + digits) == if DigitsValue(digits) < 0x8000_0000 then Some(DigitsValue(digits)) else None
  {
    assert ([0x2B] + digits)[1..] == digits;
  }

  /** A minus sign before digits parses to the negated value when it fits. */
  lemma ParseNegative(digits: seq<byte>)
    requires |digits| > 0 && AllDigits(digits)
    ensures ParseI32([0x2D] + digits) == if DigitsValue(digits) <= 0x8000_0000 then Some(-(DigitsValue(digits) as int)) else None
  {
    var s := [0x2D] + digits;
    assert s[0] == 0x2D && s[1..] == digits;
    var v := DigitsValue(digits);
    assert ParseI32(s) == if -(v as int) >= -0x8000_0000 then Some(-(v as int)) else None;
  }

  // ---------------------------------------------------------------------------------------------
  // Markers
  // ---------------------------------------------------------------------------------------------

  /** Where a marker sits: the index of its prefix and, counted from there, the index of its BEL. */
  datatype Span = Span(start: nat, end: nat)

  /**
   * `data.find(prefix)` then `data[start..].find('\x07')`: the FIRST occurrence of `prefix` and the
   * first BEL after it. Later occurrences are never looked at.
   */
  function FindMarker(data: seq<byte>, prefix: MarkerPrefix): (r: Option<Span>)
    ensures r.Some? <==> IndexOf(data, prefix).Some? && FirstIndexOf(data[IndexOf(data, prefix).value..], Bel).Some?
    ensures r.Some? ==>
              && IndexOf(data, prefix) == Some(r.value.start)
              && FirstIndexOf(data[r.value.start..], Bel) == Some(r.value.end)
              && |prefix| <= r.value.end && r.value.start + r.value.end < |data|
  {
    match IndexOf(data, prefix)
    case None => None
    case Some(start) =>
      match FirstIndexOf(data[start..], Bel)
      case None => None
      case Some(end) =>
        assert data[start..][..|prefix|] == prefix;
        BelBeyondPrefix(data[start..], prefix, end);
        Some(Span(start, end))
  }

  /** The bytes between a marker's prefix and its BEL. */
  function MarkerPayload(data: seq<byte>, prefix: MarkerPrefix): Option<seq<byte>>
  {
    match FindMarker(data, prefix)
    case None => None
    case Some(span) => Some(data[span.start + |prefix|..span.start + span.end])
  }

  /** The first BEL after a prefix that holds none lies beyond that prefix. */
  lemma BelBeyondPrefix(d: seq<byte>, prefix: MarkerPrefix, end: nat)
    requires StartsWith(d, prefix) && end < |d| && d[end] == Bel
    ensures |prefix| <= end
  {
    assert forall j :: 0 <= j < |prefix| ==> d[j] == prefix[j];
  }

  /** When no BEL follows the first occurrence of a prefix, none follows any occurrence. */
  lemma NoBelAfterFirstOccurrence(data: seq<byte>, prefix: MarkerPrefix, start: nat)
    requires IndexOf(data, prefix) == Some(start) && Bel !in data[start..]
    ensures forall i :: OccursAt(data, prefix, i) ==> Bel !in data[i..]
  {
    forall i | OccursAt(data, prefix, i) ensures Bel !in data[i..] {
      assert start <= i;
      assert forall k :: i <= k < |data| ==> data[k] == data[start..][k - start];
    }
  }

  /** A marker is found exactly when some occurrence of its prefix has a BEL after it. */
  lemma MarkerFoundIffClosed(data: seq<byte>, prefix: MarkerPrefix)
    ensures MarkerPayload(data, prefix).Some? <==> exists i :: OccursAt(data, prefix, i) && Bel in data[i..]
  {
    match IndexOf(data, prefix)
    case None =>
    case Some(start) =>
      if FirstIndexOf(data[start..], Bel).None? {
        NoBelAfterFirstOccurrence(data, prefix, start);
      } else {
        assert OccursAt(data, prefix, start) && Bel in data[start..];
      }
  }

  /** The payload holds no BEL and is followed by one, right after the first occurrence of the prefix. */
  lemma MarkerPayloadShape(data: seq<byte>, prefix: MarkerPrefix)
    requires MarkerPayload(data, prefix).Some?
    ensures var start := IndexOf(data, prefix).value;
      var payload := MarkerPayload(data, prefix).value;
      Bel !in payload && StartsWith(data[start + |prefix|..], payload + [Bel])
  {
    var span := FindMarker(data, prefix).value;
    var start, end := span.start, span.end;
    PayloadOfSpan(data, prefix, start, end);
    var d := data[start..];
    var payload := data[start + |prefix|..start + end];
    assert Bel !in payload by {
      assert payload == d[..end][|prefix|..];
      assert Bel !in d[..end];
    }
    assert data[start + |prefix|..][..|payload| + 1] == payload + [Bel] by {
      assert d[end] == Bel;
    }
  }

  /** The exit status announced by a chunk's first command-end marker, if its payload is an i32. */
  function ExitCodeOf(data: seq<byte>): Option<i32> {
    match MarkerPayload(data, CommandEndPrefix)
    case None => None
    case Some(payload) => ParseI32(payload)
  }

  /**
   * One step of `strip_osc_sequences`: the bytes left once the first marker prefix, up to and
   * including the first BEL after it, is deleted; `None` when there is no prefix or no BEL after it.
   */
  function StripOnce(s: seq<byte>): (r: Option<seq<byte>>)
    ensures r.Some? ==> |r.value| < |s|
  {
    match FindMarker(s, OscPrefix)
    case None => None
    case Some(span) => Some(s[..span.start] + s[span.start + span.end + 1..])
  }

  /** `strip_osc_sequences` as a specification: clean step by step until no closed marker is left. */
  function Stripped(s: seq<byte>): (r: seq<byte>)
    ensures StripOnce(r).None?
    decreases |s|
  {
    match StripOnce(s)
    case None => s
    case Some(t) => Stripped(t)
  }

  /** `s` holds no marker prefix with a BEL after it. */
  ghost predicate NoClosedMarker(s: seq<byte>) {
    forall i :: OccursAt(s, OscPrefix, i) ==> Bel !in s[i..]
  }

  /** A cleaning step applies exactly when a marker prefix has a BEL after it. */
  lemma StripOnceApplies(s: seq<byte>)
    ensures StripOnce(s).None? <==> NoClosedMarker(s)
  {
    match IndexOf(s, OscPrefix)
    case None =>
    case Some(start) =>
      if FirstIndexOf(s[start..], Bel).None? {
        NoBelAfterFirstOccurrence(s, OscPrefix, start);
      } else {
        assert OccursAt(s, OscPrefix, start) && Bel in s[start..];
      }
  }

  /** A cleaning step only deletes bytes. */
  lemma StripOnceDeletes(s: seq<byte>)
    requires StripOnce(s).Some?
    ensures multiset(StripOnce(s).value) <= multiset(s)
  {
    var span := FindMarker(s, OscPrefix).value;
    var cut := span.start + span.end + 1;
    assert s == s[..span.start] + s[span.start..cut] + s[cut..];
  }

  /** Cleaned output never holds a marker prefix that a BEL closes. */
  lemma {:induction false} StrippedHasNoClosedMarker(s: seq<byte>)
    ensures NoClosedMarker(Stripped(s))
    decreases |s|
  {
    StripOnceApplies(s);
    match StripOnce(s)
    case None =>
    case Some(t) => StrippedHasNoClosedMarker(t);
  }

  /** Cleaning only deletes bytes: it never adds or changes any. */
  lemma {:induction false} StrippedOnlyDeletes(s: seq<byte>)
    ensures multiset(Stripped(s)) <= multiset(s)
    ensures |Stripped(s)| <= |s|
    decreases |s|
  {
    match StripOnce(s)
    case None =>
    case Some(t) =>
      StripOnceDeletes(s);
      StrippedOnlyDeletes(t);
  }

  /** Output holding no marker prefix, or no BEL at all, passes through cleaning unchanged. */
  lemma StrippedUnchanged(s: seq<byte>)
    requires !Contains(s, OscPrefix) || Bel !in s
    ensures Stripped(s) == s
  {
    StripOnceApplies(s);
    forall i | OccursAt(s, OscPrefix, i) ensures Bel !in s[i..] {
      assert forall k :: i <= k < |s| ==> s[i..][k - i] == s[k];
    }
  }

  /** Cleaning twice is cleaning once. */
  lemma StrippedIdempotent(s: seq<byte>)
    ensures Stripped(Stripped(s)) == Stripped(s)
  {
    StrippedHasNoClosedMarker(s);
    StripOnceApplies(Stripped(s));
  }

  // ---------------------------------------------------------------------------------------------
  // History transitions
  // ---------------------------------------------------------------------------------------------

  /** The history of finished records and the record currently open, if any. */
  datatype Log = Log(history: seq<CapturedCommand>, open: Option<CapturedCommand>)

  /** `start_command`: the open record, if any, goes to the end of the history; a new one opens. */
  function Started(log: Log, command: seq<byte>, workingDir: seq<byte>, now: int): Log {
    var archived := match log.open case Some(cmd) => log.history + [cmd] case None => log.history;
    Log(archived, Some(NewCommand(command, workingDir, now)))
  }

  /** `finalize_command`: sets the open record's exit status; without an open record nothing happens. */
  function Finalized(log: Log, code: i32): Log {
    match log.open
    case Some(cmd) => Log(log.history, Some(cmd.SetExitCode(code)))
    case None => log
  }

  /** The command-start half of `parse_osc_sequences`. */
  function AfterStartMarker(log: Log, data: seq<byte>, workingDir: seq<byte>, now: int): Log {
    match MarkerPayload(data, CommandStartPrefix)
    case Some(command) => Started(log, command, workingDir, now)
    case None => log
  }

  /** The command-end half of `parse_osc_sequences`. */
  function AfterEndMarker(log: Log, data: seq<byte>): Log {
    match ExitCodeOf(data)
    case Some(code) => Finalized(log, code)
    case None => log
  }

  /** `parse_osc_sequences`: the start marker is handled before the end marker. */
  function AfterMarkers(log: Log, data: seq<byte>, workingDir: seq<byte>, now: int): Log {
    AfterEndMarker(AfterStartMarker(log, data, workingDir, now), data)
  }

  /** The cleaned chunk goes to the record open after the markers; with none open it is dropped. */
  function AfterOutput(log: Log, data: seq<byte>): Log {
    match log.open
    case Some(cmd) => Log(log.history, Some(cmd.AppendOutput(Stripped(data))))
    case None => log
  }

  /** The history part of `process_output` for one chunk. */
  function AfterChunk(log: Log, data: seq<byte>, workingDir: seq<byte>, now: int): Log {
    AfterOutput(AfterMarkers(log, data, workingDir, now), data)
  }

  /** Starting a command archives the open record (if any) at the end of the history and opens a fresh one. */
  lemma StartArchivesOpenRecord(log: Log, command: seq<byte>, workingDir: seq<byte>, now: int)
    ensures var r := Started(log, command, workingDir, now);
      && r.history == log.history + (if log.open.Some? then [log.open.value] else [])
      && r.open == Some(CapturedCommand(command, [], None, now, workingDir))
      && !r.open.value.IsComplete()
  {
  }

  /** Finalizing sets the open record's exit status, completing it, and never touches the history. */
  lemma FinalizeCompletesOpenRecord(log: Log, code: i32)
    ensures var r := Finalized(log, code);
      && r.history == log.history
      && r.open.Some? == log.open.Some?
      && (log.open.Some? ==> r.open.value == log.open.value.(exitCode := Some(code)) && r.open.value.IsComplete())
  {
  }

  /** Each chunk keeps the old history as a prefix and adds at most one record: the one open before it, when a start marker arrives. */
  lemma ChunkHistoryAppendOnly(log: Log, data: seq<byte>, workingDir: seq<byte>, now: int)
    ensures var r := AfterChunk(log, data, workingDir, now);
      && |log.history| <= |r.history| <= |log.history| + 1
      && r.history[..|log.history|] == log.history
      && (|r.history| == |log.history| + 1
          <==> MarkerPayload(data, CommandStartPrefix).Some? && log.open.Some?)
      && (|r.history| == |log.history| + 1 ==> r.history[|log.history|] == log.open.value)
  {
    var afterStart := AfterStartMarker(log, data, workingDir, now);
    assert AfterMarkers(log, data, workingDir, now).history == afterStart.history;
  }

  /**
   * A chunk with a closed start marker opens a record whose command is the marker's payload, whose
   * output is the whole cleaned chunk and whose exit status is the one the same chunk announces, if any.
   */
  lemma ChunkWithStartMarkerOpensRecord(log: Log, data: seq<byte>, workingDir: seq<byte>, now: int)
    requires MarkerPayload(data, CommandStartPrefix).Some?
    ensures var command := MarkerPayload(data, CommandStartPrefix).value;
      AfterChunk(log, data, workingDir, now)
        == Log(Started(log, command, workingDir, now).history,
               Some(CapturedCommand(command, Stripped(data), ExitCodeOf(data), now, workingDir)))
  {
    var command := MarkerPayload(data, CommandStartPrefix).value;
    var started := AfterStartMarker(log, data, workingDir, now);
    assert started.open == Some(NewCommand(command, workingDir, now));
    var marked := AfterEndMarker(started, data);
    assert marked.open == Some(CapturedCommand(command, [], ExitCodeOf(data), now, workingDir)) by {
      EndMarkerOnlySetsExitCode(started, data);
    }
    var cleaned := Stripped(data);
    assert [] + cleaned == cleaned;
    assert AfterChunk(log, data, workingDir, now) == AfterOutput(marked, data);
  }

  /**
   * An end marker whose payload parses sets (overwrites) the exit status of the record open after
   * the start marker; any other end marker, or none, leaves that status as it was. It never moves a
   * record to the history and never opens or closes one.
   */
  lemma EndMarkerOnlySetsExitCode(log: Log, data: seq<byte>)
    ensures var r := AfterEndMarker(log, data);
      && r.history == log.history
      && r.open.Some? == log.open.Some?
      && (log.open.Some? ==>
            r.open.value == log.open.value.(exitCode := if ExitCodeOf(data).Some? then ExitCodeOf(data) else log.open.value.exitCode))
  {
  }

  /** The cleaned chunk is appended to the record open after the markers; with none open the chunk is dropped. */
  lemma ChunkOutputGoesToOpenRecord(log: Log, data: seq<byte>, workingDir: seq<byte>, now: int)
    ensures var m := AfterMarkers(log, data, workingDir, now);
      var r := AfterChunk(log, data, workingDir, now);
      && r.history == m.history
      && (m.open.None? ==> r == m)
      && (m.open.Some? ==> r.open == Some(m.open.value.(output := m.open.value.output + Stripped(data))))
  {
  }

  /** A chunk that is exactly the hook's start marker for a command without ESC or BEL opens that command. */
  lemma StartHookRoundTrip(log: Log, command: seq<byte>, workingDir: seq<byte>, now: int)
    requires Bel !in command && Esc !in command
    ensures AfterChunk(log, CommandStartPrefix + command + [Bel], workingDir, now)
      == Started(log, command, workingDir, now)
  {
    var data := CommandStartPrefix + command + [Bel];
    StartHookChunk(command);
    QuietChunk(log, data, workingDir, now);
    assert AfterMarkers(log, data, workingDir, now) == Started(log, command, workingDir, now);
  }

  /** The hook's start marker carries the command, no exit status and no output. */
  lemma StartHookChunk(command: seq<byte>)
    requires Bel !in command && Esc !in command
    ensures var data := CommandStartPrefix + command + [Bel];
      && MarkerPayload(data, CommandStartPrefix) == Some(command)
      && ExitCodeOf(data).None?
      && Stripped(data) == []
  {
    var data := CommandStartPrefix + command + [Bel];
    MarkerAtFront(CommandStartPrefix, command, []);
    assert data == CommandStartPrefix + command + [Bel] + [];
    HookMarkerEscOnlyAtFront(CommandStartPrefix, command);
    NoOtherMarker(data, CommandEndPrefix, 6);
    StrippedWholeMarker(CommandStartPrefix, command);
  }

  /** A chunk that is exactly the hook's end marker for a status sets that status on the open record. */
  lemma EndHookRoundTrip(log: Log, code: i32, workingDir: seq<byte>, now: int)
    ensures AfterChunk(log, CommandEndPrefix + FormatI32(code) + [Bel], workingDir, now)
      == Finalized(log, code)
  {
    var data := CommandEndPrefix + FormatI32(code) + [Bel];
    EndHookChunk(code);
    QuietChunk(log, data, workingDir, now);
    assert AfterMarkers(log, data, workingDir, now) == Finalized(log, code);
  }

  /** The hook's end marker carries the exit status, no command and no output. */
  lemma EndHookChunk(code: i32)
    ensures var data := CommandEndPrefix + FormatI32(code) + [Bel];
      && MarkerPayload(data, CommandStartPrefix).None?
      && ExitCodeOf(data) == Some(code)
      && Stripped(data) == []
  {
    EndHookHasNoStartMarker(code);
    EndHookCarriesStatus(code);
    FormattedStatusBytes(code);
    StrippedWholeMarker(CommandEndPrefix, FormatI32(code));
  }

  lemma EndHookHasNoStartMarker(code: i32)
    ensures MarkerPayload(CommandEndPrefix + FormatI32(code) + [Bel], CommandStartPrefix).None?
  {
    var payload := FormatI32(code);
    var data := CommandEndPrefix + payload + [Bel];
    FormattedStatusBytes(code);
    HookMarkerEscOnlyAtFront(CommandEndPrefix, payload);
    NoOtherMarker(data, CommandStartPrefix, 6);
  }

  lemma EndHookCarriesStatus(code: i32)
    ensures ExitCodeOf(CommandEndPrefix + FormatI32(code) + [Bel]) == Some(code)
  {
    var payload := FormatI32(code);
    var data := CommandEndPrefix + payload + [Bel];
    FormattedStatusBytes(code);
    MarkerAtFront(CommandEndPrefix, payload, []);
    assert data == CommandEndPrefix + payload + [Bel] + [];
    ParseFormatI32(code);
  }

  /** A printed exit status holds only a minus sign and digits, so neither ESC nor BEL. */
  lemma FormattedStatusBytes(code: i32)
    ensures Bel !in FormatI32(code) && Esc !in FormatI32(code)
  {
    if code < 0 {
      var digits := Decimal(-(code as int));
      assert FormatI32(code) == [0x2D] + digits;
      assert forall j :: 0 <= j < |digits| ==> IsDigit(digits[j]);
    }
  }

  /** A chunk that cleans to nothing changes the log only through its markers. */
  lemma QuietChunk(log: Log, data: seq<byte>, workingDir: seq<byte>, now: int)
    requires Stripped(data) == []
    ensures AfterChunk(log, data, workingDir, now) == AfterMarkers(log, data, workingDir, now)
  {
    var marked := AfterMarkers(log, data, workingDir, now);
    if marked.open.Some? {
      var output := marked.open.value.output;
      assert output + [] == output;
    }
  }

  /** A marker at the very front of a chunk is found, whatever follows it. */
  lemma MarkerAtFront(prefix: MarkerPrefix, payload: seq<byte>, rest: seq<byte>)
    requires Bel !in payload
    ensures MarkerPayload(prefix + payload + [Bel] + rest, prefix) == Some(payload)
  {
    var data := prefix + payload + [Bel] + rest;
    assert data[0..] == prefix + payload + [Bel] + rest;
    MarkerAt(data, prefix, payload, 0);
  }

  /** A closed marker with no occurrence of its prefix before it is the one found. */
  lemma MarkerAt(data: seq<byte>, prefix: MarkerPrefix, payload: seq<byte>, at: nat)
    requires Bel !in payload && at <= |data|
    requires StartsWith(data[at..], prefix + payload + [Bel])
    requires forall i :: 0 <= i < at ==> !OccursAt(data, prefix, i)
    ensures MarkerPayload(data, prefix) == Some(payload)
  {
    var d := data[at..];
    ClosedMarkerLayout(d, prefix, payload);
    assert OccursAt(data, prefix, at) by {
      assert data[at..at + |prefix|] == d[..|prefix|];
    }
    IndexOfAt(data, prefix, at);
    var n := |prefix| + |payload|;
    FindMarkerAt(data, prefix, at, n);
    PayloadOfSpan(data, prefix, at, n);
    assert data[at + |prefix|..at + n] == payload by {
      assert data[at + |prefix|..at + n] == d[|prefix|..n];
    }
  }

  /** The payload is what lies between the end of the prefix and the BEL of the marker found. */
  lemma PayloadOfSpan(data: seq<byte>, prefix: MarkerPrefix, start: nat, end: nat)
    requires FindMarker(data, prefix) == Some(Span(start, end))
    ensures MarkerPayload(data, prefix) == Some(data[start + |prefix|..start + end])
  {
  }

  /** Bytes that start with a closed marker: the prefix, then the payload, then the first BEL. */
  lemma ClosedMarkerLayout(d: seq<byte>, prefix: MarkerPrefix, payload: seq<byte>)
    requires Bel !in payload
    requires StartsWith(d, prefix + payload + [Bel])
    ensures StartsWith(d, prefix)
    ensures FirstIndexOf(d, Bel) == Some(|prefix| + |payload|)
    ensures d[|prefix|..|prefix| + |payload|] == payload
  {
    var whole := prefix + payload + [Bel];
    var n := |prefix| + |payload|;
    assert d[..|prefix|] == prefix by {
      assert d[..|prefix|] == whole[..|prefix|];
    }
    assert d[n] == Bel by {
      assert d[n] == whole[n];
    }
    assert Bel !in d[..n] by {
      assert d[..n] == prefix + payload;
    }
    FirstIndexOfAt(d, Bel, n);
    assert d[|prefix|..n] == whole[|prefix|..n];
  }

  /** The marker found is the first occurrence of the prefix with the first BEL after it. */
  lemma FindMarkerAt(data: seq<byte>, prefix: MarkerPrefix, start: nat, end: nat)
    requires IndexOf(data, prefix) == Some(start) && start <= |data|
    requires FirstIndexOf(data[start..], Bel) == Some(end)
    ensures FindMarker(data, prefix) == Some(Span(start, end))
  {
  }

  /** ESC occurs in `x` at most as its first byte. */
  predicate EscOnlyAtFront(x: seq<byte>) {
    forall j :: 0 < j < |x| ==> x[j] != Esc
  }

  lemma EscOnlyAtFrontAppend(a: seq<byte>, b: seq<byte>)
    requires |a| > 0 && EscOnlyAtFront(a) && Esc !in b
    ensures EscOnlyAtFront(a + b)
  {
    forall j | 0 < j < |a + b| ensures (a + b)[j] != Esc {
      if j >= |a| {
        assert (a + b)[j] == b[j - |a|];
      }
    }
  }

  /** A hook marker whose payload holds no ESC has its only ESC at the front. */
  lemma HookMarkerEscOnlyAtFront(prefix: MarkerPrefix, payload: seq<byte>)
    requires prefix == CommandStartPrefix || prefix == CommandEndPrefix
    requires Esc !in payload
    ensures EscOnlyAtFront(prefix + payload + [Bel])
  {
    EscOnlyAtFrontAppend(prefix, payload);
    EscOnlyAtFrontAppend(prefix + payload, [Bel]);
  }

  /** Before `at`, where ESC only opens the data, no prefix occurs that differs from the data at `differsAt`. */
  lemma NoMarkerBefore(data: seq<byte>, prefix: MarkerPrefix, differsAt: nat, at: nat)
    requires |prefix| > differsAt > 0 && prefix[0] == Esc && differsAt < at <= |data|
    requires data[differsAt] != prefix[differsAt]
    requires EscOnlyAtFront(data[..at])
    ensures forall i :: 0 <= i < at ==> !OccursAt(data, prefix, i)
  {
    forall i | 0 <= i < at && i + |prefix| <= |data| ensures !OccursAt(data, prefix, i) {
      if i == 0 {
        assert data[i..i + |prefix|][differsAt] == data[differsAt];
      } else {
        assert data[i] == data[..at][i];
        assert data[i..i + |prefix|][0] == data[i];
      }
    }
  }

  /** A chunk whose only ESC is its first byte holds no other marker kind than the one at its front. */
  lemma NoOtherMarker(data: seq<byte>, prefix: MarkerPrefix, differsAt: nat)
    requires |prefix| > differsAt > 0 && |data| > differsAt && prefix[0] == Esc
    requires data[differsAt] != prefix[differsAt]
    requires EscOnlyAtFront(data)
    ensures IndexOf(data, prefix).None?
  {
    assert data[..|data|] == data;
    NoMarkerBefore(data, prefix, differsAt, |data|);
  }

  /** Cleaning a chunk that is exactly one marker leaves nothing. */
  lemma StrippedWholeMarker(prefix: MarkerPrefix, payload: seq<byte>)
    requires StartsWith(prefix, OscPrefix) && Bel !in payload
    ensures Stripped(prefix + payload + [Bel]) == []
  {
    var whole := prefix + payload + [Bel];
    assert whole[..|whole|] == whole && whole[|whole|..] == [];
    StrippedDropsLeadingMarker(whole, prefix, payload);
  }

  /** A closed marker at the front of a chunk is removed first, before the rest is looked at. */
  lemma StrippedDropsLeadingMarker(data: seq<byte>, prefix: MarkerPrefix, payload: seq<byte>)
    requires StartsWith(prefix, OscPrefix) && Bel !in payload
    requires StartsWith(data, prefix + payload + [Bel])
    ensures Stripped(data) == Stripped(data[|prefix| + |payload| + 1..])
  {
    var n := |prefix| + |payload|;
    var rest := data[n + 1..];
    ClosedMarkerLayout(data, prefix, payload);
    assert OccursAt(data, OscPrefix, 0) by {
      assert data[..|OscPrefix|] == prefix[..|OscPrefix|];
    }
    IndexOfAt(data, OscPrefix, 0);
    assert data[0..] == data;
    StripOnceAt(data, 0, n);
    assert data[..0] + data[n + 1..] == rest;
    StrippedStep(data, rest);
    assert Stripped(data) == Stripped(rest);
    assert rest == data[|prefix| + |payload| + 1..];
  }

  /** One step of cleaning: the first closed marker goes. */
  lemma StrippedStep(s: seq<byte>, rest: seq<byte>)
    requires StripOnce(s) == Some(rest)
    ensures Stripped(s) == Stripped(rest)
  {
  }

  /** Cleaning stops where no marker prefix, or no BEL after the first one, is left. */
  lemma StrippedDone(s: seq<byte>)
    requires IndexOf(s, OscPrefix).None? || FirstIndexOf(s[IndexOf(s, OscPrefix).value..], Bel).None?
    ensures StripOnce(s).None? && Stripped(s) == s
  {
    assert StripOnce(s).None?;
  }

  /** Deleting the first closed marker shortens the text and leaves its cleaned form as it was. */
  lemma StrippedAt(s: seq<byte>, start: nat, end: nat)
    requires IndexOf(s, OscPrefix) == Some(start) && start <= |s|
    requires FirstIndexOf(s[start..], Bel) == Some(end)
    ensures var rest := s[..start] + s[start + end + 1..];
      |rest| < |s| && Stripped(rest) == Stripped(s)
  {
    StripOnceAt(s, start, end);
    StrippedStep(s, s[..start] + s[start + end + 1..]);
  }

  /** The step deletes from the first marker prefix through the first BEL after it. */
  lemma StripOnceAt(s: seq<byte>, start: nat, end: nat)
    requires IndexOf(s, OscPrefix) == Some(start) && start <= |s|
    requires FirstIndexOf(s[start..], Bel) == Some(end)
    ensures StripOnce(s) == Some(s[..start] + s[start + end + 1..])
  {
    FindMarkerAt(s, OscPrefix, start, end);
  }

  /** Output without ESC followed by the hook's end marker cleans to that output. */
  lemma StrippedPlainThenMarker(data: seq<byte>, plain: seq<byte>, marker: seq<byte>)
    requires Esc !in plain && StartsWith(marker, OscPrefix) && |marker| > 0
    requires marker[|marker| - 1] == Bel && Bel !in marker[..|marker| - 1]
    requires data == plain + marker
    ensures Stripped(data) == plain
  {
    assert data[..|plain|] == plain;
    EscFreeHasNoMarker(data, |plain|);
    assert OccursAt(data, OscPrefix, |plain|) by {
      assert data[|plain|..|plain| + |OscPrefix|] == marker[..|OscPrefix|];
    }
    IndexOfAt(data, OscPrefix, |plain|);
    assert data[|plain|..] == marker;
    FirstIndexOfAt(marker, Bel, |marker| - 1);
    StripOnceAt(data, |plain|, |marker| - 1);
    assert data[..|plain|] + data[|data|..] == plain;
    StrippedStep(data, plain);
    assert plain[..|plain|] == plain;
    EscFreeHasNoMarker(plain, |plain|);
    StrippedUnchanged(plain);
  }

  /** No marker prefix starts among bytes that hold no ESC. */
  lemma EscFreeHasNoMarker(data: seq<byte>, at: nat)
    requires at <= |data| && Esc !in data[..at]
    ensures forall i :: 0 <= i < at ==> !OccursAt(data, OscPrefix, i)
    ensures at == |data| ==> !Contains(data, OscPrefix)
  {
    forall i | 0 <= i < at && i + |OscPrefix| <= |data| ensures !OccursAt(data, OscPrefix, i) {
      assert data[i..i + |OscPrefix|][0] == data[..at][i];
    }
  }

  /**
   * A whole command in one chunk — its start marker, output without ESC, its end marker — archives
   * the record open before it and leaves open a complete record of that command, its output and
   * its exit status.
   */
  lemma WholeCommandChunk(log: Log, command: seq<byte>, output: seq<byte>, code: i32, workingDir: seq<byte>, now: int)
    requires Bel !in command && Esc !in command && Esc !in output
    ensures var chunk := CommandStartPrefix + command + [Bel] + output + CommandEndPrefix + FormatI32(code) + [Bel];
      AfterChunk(log, chunk, workingDir, now)
        == Log(Started(log, command, workingDir, now).history, Some(CapturedCommand(command, output, Some(code), now, workingDir)))
  {
    var chunk := CommandStartPrefix + command + [Bel] + output + CommandEndPrefix + FormatI32(code) + [Bel];
    WholeCommandMarkers(command, output, code);
    WholeCommandCleaned(chunk, command, output, code);
    ChunkWithStartMarkerOpensRecord(log, chunk, workingDir, now);
  }

  lemma WholeCommandMarkers(command: seq<byte>, output: seq<byte>, code: i32)
    requires Bel !in command && Esc !in command && Esc !in output
    ensures var chunk := CommandStartPrefix + command + [Bel] + output + CommandEndPrefix + FormatI32(code) + [Bel];
      MarkerPayload(chunk, CommandStartPrefix) == Some(command) && ExitCodeOf(chunk) == Some(code)
  {
    var chunk := CommandStartPrefix + command + [Bel] + output + CommandEndPrefix + FormatI32(code) + [Bel];
    StartMarkerOfWholeCommand(chunk, command, output, code);
    EndMarkerAfterStart(chunk, command, output, code);
    ParseFormatI32(code);
  }

  /** The command-start marker at the front of a whole command's chunk is the one found. */
  lemma StartMarkerOfWholeCommand(chunk: seq<byte>, command: seq<byte>, output: seq<byte>, code: i32)
    requires Bel !in command
    requires chunk == CommandStartPrefix + command + [Bel] + output + CommandEndPrefix + FormatI32(code) + [Bel]
    ensures MarkerPayload(chunk, CommandStartPrefix) == Some(command)
  {
    var startMarker := CommandStartPrefix + command + [Bel];
    assert chunk[..|startMarker|] == startMarker;
    assert chunk[0..] == chunk;
    MarkerAt(chunk, CommandStartPrefix, command, 0);
  }

  /** The command-end marker that follows a command-start marker and ESC-free output is the one found. */
  lemma EndMarkerAfterStart(chunk: seq<byte>, command: seq<byte>, output: seq<byte>, code: i32)
    requires Bel !in command && Esc !in command && Esc !in output
    requires chunk == CommandStartPrefix + command + [Bel] + output + CommandEndPrefix + FormatI32(code) + [Bel]
    ensures MarkerPayload(chunk, CommandEndPrefix) == Some(FormatI32(code))
  {
    var payload := FormatI32(code);
    var startMarker := CommandStartPrefix + command + [Bel];
    var head := startMarker + output;
    var at := |head|;
    HookMarkerEscOnlyAtFront(CommandStartPrefix, command);
    EscOnlyAtFrontAppend(startMarker, output);
    assert chunk[..at] == head;
    assert chunk[at..] == CommandEndPrefix + payload + [Bel];
    assert chunk[6] == CommandStartPrefix[6];
    NoMarkerBefore(chunk, CommandEndPrefix, 6, at);
    FormattedStatusBytes(code);
    MarkerAt(chunk, CommandEndPrefix, payload, at);
  }

  lemma WholeCommandCleaned(chunk: seq<byte>, command: seq<byte>, output: seq<byte>, code: i32)
    requires Bel !in command && Esc !in command && Esc !in output
    requires chunk == CommandStartPrefix + command + [Bel] + output + CommandEndPrefix + FormatI32(code) + [Bel]
    ensures Stripped(chunk) == output
  {
    CleanedAfterStartMarker(chunk, command, output, code);
    CleanedEndMarker(output, code);
  }

  /** Cleaning a whole command's chunk first drops its start marker. */
  lemma CleanedAfterStartMarker(chunk: seq<byte>, command: seq<byte>, output: seq<byte>, code: i32)
    requires Bel !in command
    requires chunk == CommandStartPrefix + command + [Bel] + output + CommandEndPrefix + FormatI32(code) + [Bel]
    ensures Stripped(chunk) == Stripped(output + (CommandEndPrefix + FormatI32(code) + [Bel]))
  {
    var startMarker := CommandStartPrefix + command + [Bel];
    var n := |startMarker|;
    assert n == |CommandStartPrefix| + |command| + 1;
    assert chunk[..n] == startMarker;
    StrippedDropsLeadingMarker(chunk, CommandStartPrefix, command);
    AfterLeadingPart(startMarker, output, CommandEndPrefix, FormatI32(code));
  }

  /** Output without ESC followed by the hook's end marker cleans to that output. */
  lemma CleanedEndMarker(output: seq<byte>, code: i32)
    requires Esc !in output
    ensures Stripped(output + (CommandEndPrefix + FormatI32(code) + [Bel])) == output
  {
    var payload := FormatI32(code);
    var endMarker := CommandEndPrefix + payload + [Bel];
    FormattedStatusBytes(code);
    assert endMarker[..|endMarker| - 1] == CommandEndPrefix + payload;
    StrippedPlainThenMarker(output + endMarker, output, endMarker);
  }

  /** What follows the first part of a five-part concatenation ending in BEL. */
  lemma AfterLeadingPart(a: seq<byte>, b: seq<byte>, c: seq<byte>, d: seq<byte>)
    ensures (a + b + c + d + [Bel])[|a|..] == b + (c + d + [Bel])
  {
    AppendAssociates(a + b + c, d, [Bel]);
    AppendAssociates(a + b, c, d + [Bel]);
    AppendAssociates(a, b, c + (d + [Bel]));
    AppendAssociates(c, d, [Bel]);
    assert (a + (b + (c + d + [Bel])))[|a|..] == b + (c + d + [Bel]);
  }

  /** The scenario `ESC]133;C;ls -la BEL total 0 LF ESC]133;D;0 BEL` on an empty log leaves one open, complete record. */
  lemma ListingScenario(workingDir: seq<byte>, now: int)
    ensures
      var lsLa := [0x6C, 0x73, 0x20, 0x2D, 0x6C, 0x61];
      var total0 := [0x74, 0x6F, 0x74, 0x61, 0x6C, 0x20, 0x30, 0x0A];
      var chunk := CommandStartPrefix + lsLa + [Bel] + total0 + CommandEndPrefix + [0x30] + [Bel];
      AfterChunk(Log([], None), chunk, workingDir, now)
        == Log([], Some(CapturedCommand(lsLa, total0, Some(0), now, workingDir)))
  {
    var lsLa: seq<byte> := [0x6C, 0x73, 0x20, 0x2D, 0x6C, 0x61];
    var total0: seq<byte> := [0x74, 0x6F, 0x74, 0x61, 0x6C, 0x20, 0x30, 0x0A];
    assert FormatI32(0) == [0x30];
    WholeCommandChunk(Log([], None), lsLa, total0, 0, workingDir, now);
  }

  // ---------------------------------------------------------------------------------------------
  // The prompt window
  // ---------------------------------------------------------------------------------------------

  /**
   * AS WRITTEN at capture.rs:80-82: `drain(..len - 4096)` keeps the last 4096 bytes, and panics
   * when that cut falls inside a multi-byte character (`None` stands for the panic).
   */
  function DrainAsWritten(buffer: seq<byte>): (r: Option<seq<byte>>)
    ensures r.None? <==> |buffer| > PromptWindow && !IsCharBoundary(buffer, |buffer| - PromptWindow)
    ensures r.Some? ==> EndsWith(buffer, r.value) && |r.value| <= PromptWindow
  {
    if |buffer| <= PromptWindow then Some(buffer)
    else if IsCharBoundary(buffer, |buffer| - PromptWindow) then Some(buffer[|buffer| - PromptWindow..])
    else None
  }

  /** "é" followed by 4095 'a': well-formed text on which the window trim panics. */
  lemma DrainPanicsInsideCharacter()
    ensures var buffer := Encode('\U{E9}') + seq(4095, _ => 0x61);
      Utf8.Valid(buffer) && DrainAsWritten(buffer).None?
  {
    var tail: seq<byte> := seq(4095, _ => 0x61);
    AsciiValid(tail);
    ConcatValid(Encode('\U{E9}'), tail);
    var buffer := Encode('\U{E9}') + tail;
    assert Encode('\U{E9}') == [0xC3, 0xA9];
    assert buffer[1] == 0xA9;
  }

  /**
   * CORRECTED window trim: the cut moves forward to the next character boundary, so the window
   * stays within 4096 bytes, stays well-formed, loses at most three bytes more than the cut as
   * written, and agrees with the code as written whenever that does not panic.
   */
  function KeepTail(buffer: seq<byte>): (r: seq<byte>)
    ensures EndsWith(buffer, r) && |r| <= PromptWindow
    ensures |buffer| <= PromptWindow ==> r == buffer
    ensures Utf8.Valid(buffer) ==> Utf8.Valid(r) && |r| + 3 >= (if |buffer| < PromptWindow then |buffer| else PromptWindow)
    ensures DrainAsWritten(buffer).Some? ==> r == DrainAsWritten(buffer).value
  {
    if |buffer| <= PromptWindow then
      SuffixEnds(buffer, 0);
      buffer
    else
      var k := |buffer| - PromptWindow;
      var cut := NextBoundary(buffer, k);
      CutAtNextBoundary(buffer, k);
      SuffixEnds(buffer, cut);
      assert IsCharBoundary(buffer, k) ==> cut == k;
      buffer[cut..]
  }

  /** What follows index `k` of `s` ends `s`. */
  lemma SuffixEnds(s: seq<byte>, k: nat)
    requires k <= |s|
    ensures EndsWith(s, s[k..]) && s[0..] == s
  {
  }

  /** Cutting well-formed text at the next boundary keeps it well-formed and moves the cut by at most three bytes. */
  lemma CutAtNextBoundary(buffer: seq<byte>, k: nat)
    requires k <= |buffer|
    ensures Utf8.Valid(buffer) ==>
      Utf8.Valid(buffer[NextBoundary(buffer, k)..]) && NextBoundary(buffer, k) <= k + 3
  {
    if Utf8.Valid(buffer) {
      SuffixAtBoundaryValid(buffer, NextBoundary(buffer, k));
      BoundaryNearby(buffer, k);
    }
  }

  /** Rust `char::is_whitespace`: the Unicode White_Space property. */
  predicate IsRustWhiteSpace(c: char) {
    var n := c as int;
    (0x09 <= n <= 0x0D) || n == 0x20 || n == 0x85 || n == 0xA0 || n == 0x1680 || (0x2000 <= n <= 0x200A)
    || n == 0x2028 || n == 0x2029 || n == 0x202F || n == 0x205F || n == 0x3000
  }

  /** One byte of Rust `char::is_whitespace` ends `s`: the width of that trailing character, or 0. */
  function TrailingSpaceWidth(s: seq<byte>): (w: nat)
    ensures w <= |s|
    ensures w == 0 && |s| > 0 ==> s[|s| - 1] !in {0x09, 0x0A, 0x0B, 0x0C, 0x0D, 0x20}
  {
    var n := |s|;
    if n >= 1 && s[n - 1] in {0x09, 0x0A, 0x0B, 0x0C, 0x0D, 0x20} then 1
    // U+0085, U+00A0
    else if n >= 2 && s[n - 2] == 0xC2 && (s[n - 1] == 0x85 || s[n - 1] == 0xA0) then 2
    // U+1680
    else if n >= 3 && s[n - 3] == 0xE1 && s[n - 2] == 0x9A && s[n - 1] == 0x80 then 3
    // U+2000..U+200A, U+2028, U+2029, U+202F
    else if n >= 3 && s[n - 3] == 0xE2 && s[n - 2] == 0x80
         && (0x80 <= s[n - 1] <= 0x8A || s[n - 1] == 0xA8 || s[n - 1] == 0xA9 || s[n - 1] == 0xAF) then 3
    // U+205F
    else if n >= 3 && s[n - 3] == 0xE2 && s[n - 2] == 0x81 && s[n - 1] == 0x9F then 3
    // U+3000
    else if n >= 3 && s[n - 3] == 0xE3 && s[n - 2] == 0x80 && s[n - 1] == 0x80 then 3
    else 0
  }

  /** The white-space character whose encoding ends `s`, read back from the bytes the width counts. */
  ghost function TrailingSpaceChar(s: seq<byte>): (c: char)
    requires TrailingSpaceWidth(s) > 0
    ensures IsRustWhiteSpace(c) && Encode(c) == s[|s| - TrailingSpaceWidth(s)..]
  {
    var n := |s|;
    var w := TrailingSpaceWidth(s);
    if w == 1 then
      assert s[n - 1..] == [s[n - 1]];
      s[n - 1] as char
    else if w == 2 then
      EncodeLatin1(s[n - 1]);
      assert s[n - 2..] == [0xC2, s[n - 1]];
      s[n - 1] as char
    else
      ThreeByteSpaceChar(s)
  }

  /** `TrailingSpaceChar` for the three-byte white-space characters. */
  ghost function ThreeByteSpaceChar(s: seq<byte>): (c: char)
    requires TrailingSpaceWidth(s) == 3
    ensures IsRustWhiteSpace(c) && Encode(c) == s[|s| - 3..]
  {
    var n := |s|;
    assert s[n - 3..] == [s[n - 3], s[n - 2], s[n - 1]];
    if s[n - 3] == 0xE1 then
      EncodeThreeSpaces();
      0x1680 as char
    else if s[n - 3] == 0xE3 then
      EncodeThreeSpaces();
      0x3000 as char
    else if s[n - 2] == 0x81 then
      EncodeThreeSpaces();
      0x205F as char
    else
      EncodeGeneralPunctuation(s[n - 1]);
      (0x2000 + s[n - 1] as int - 0x80) as char
  }

  /** U+0080..U+00BF encode as C2 followed by the code point's own byte. */
  lemma EncodeLatin1(b: byte)
    requires 0x80 <= b < 0xC0
    ensures Encode(b as char) == [0xC2, b]
  {
  }

  /** U+2000..U+203F encode as E2 80 followed by 0x80 plus the offset. */
  lemma EncodeGeneralPunctuation(b: byte)
    requires 0x80 <= b < 0xC0
    ensures Encode((0x2000 + b as int - 0x80) as char) == [0xE2, 0x80, b]
  {
  }

  /** The encodings of the three white-space characters outside those two blocks. */
  lemma EncodeThreeSpaces()
    ensures Encode(0x1680 as char) == [0xE1, 0x9A, 0x80]
    ensures Encode(0x205F as char) == [0xE2, 0x81, 0x9F]
    ensures Encode(0x3000 as char) == [0xE3, 0x80, 0x80]
  {
  }

  /** Every white-space character is recognised, with its full width, at the end of any text. */
  lemma TrailingSpaceComplete(p: seq<byte>, c: char)
    requires IsRustWhiteSpace(c)
    ensures TrailingSpaceWidth(p + Encode(c)) == |Encode(c)|
  {
    var e := Encode(c);
    var s := p + e;
    var n := c as int;
    if n < 0x80 {
      assert s[|s| - 1] == n;
    } else if n == 0x85 || n == 0xA0 {
      EncodeLatin1(n);
      assert s[|s| - 2] == 0xC2 && s[|s| - 1] == n;
    } else {
      if 0x2000 <= n <= 0x202F {
        EncodeGeneralPunctuation(0x80 + n - 0x2000);
      } else {
        EncodeThreeSpaces();
      }
      TrailingThreeByteSpace(p, e);
    }
  }

  /** The three-byte white-space encodings are recognised at the end of any text. */
  lemma TrailingThreeByteSpace(p: seq<byte>, e: seq<byte>)
    requires |e| == 3
    requires || e == [0xE1, 0x9A, 0x80] || e == [0xE2, 0x81, 0x9F] || e == [0xE3, 0x80, 0x80]
             || (e[0] == 0xE2 && e[1] == 0x80 && (0x80 <= e[2] <= 0x8A || e[2] == 0xA8 || e[2] == 0xA9 || e[2] == 0xAF))
    ensures TrailingSpaceWidth(p + e) == 3
  {
    var s := p + e;
    assert s[|s| - 3] == e[0] && s[|s| - 2] == e[1] && s[|s| - 1] == e[2];
  }

  /** Rust `str::trim_end`: drops trailing Unicode white space. */
  function TrimEnd(s: seq<byte>): (r: seq<byte>)
    ensures StartsWith(s, r)
    ensures |r| == 0 || TrailingSpaceWidth(r) == 0
    ensures TrailingSpaceWidth(s) == 0 ==> r == s
    decreases |s|
  {
    var w := TrailingSpaceWidth(s);
    if w == 0 then s
    else
      var r := TrimEnd(s[..|s| - w]);
      assert s[..|r|] == s[..|s| - w][..|r|];
      r
  }
  /** Every character of `cs` is white space. */
  predicate AllRustWhiteSpace(cs: string) {
    forall i :: 0 <= i < |cs| ==> IsRustWhiteSpace(cs[i])
  }

  /** The white-space characters at the end of `s`, read back one at a time from the last. */
  ghost function TrailingSpaceRun(s: seq<byte>): string
    decreases |s|
  {
    var w := TrailingSpaceWidth(s);
    if w == 0 then [] else TrailingSpaceRun(s[..|s| - w]) + [TrailingSpaceChar(s)]
  }

  /** One step of `TrimEndCutsOnlySpace`: the last white-space character joins the run already cut. */
  lemma TrimEndPeel(s: seq<byte>, t: seq<byte>)
    requires TrailingSpaceWidth(s) > 0 && t == s[..|s| - TrailingSpaceWidth(s)]
    requires AllRustWhiteSpace(TrailingSpaceRun(t)) && t == TrimEnd(t) + EncodeString(TrailingSpaceRun(t))
    ensures AllRustWhiteSpace(TrailingSpaceRun(s))
    ensures s == TrimEnd(s) + EncodeString(TrailingSpaceRun(s))
  {
    var w := TrailingSpaceWidth(s);
    var cs := TrailingSpaceRun(t);
    var c := TrailingSpaceChar(s);
    var more := cs + [c];
    assert TrailingSpaceRun(s) == more;
    assert TrimEnd(s) == TrimEnd(t);
    AllRustWhiteSpaceAppend(cs, c);
    EncodeStringAppend(cs, [c]);
    EncodeSingle(c);
    SplitAt(s, |s| - w);
    Regroup(s, t, TrimEnd(t), EncodeString(cs), s[|s| - w..], EncodeString(more));
  }

  /** A white-space character extends a run of white space. */
  lemma AllRustWhiteSpaceAppend(cs: string, c: char)
    requires AllRustWhiteSpace(cs) && IsRustWhiteSpace(c)
    ensures AllRustWhiteSpace(cs + [c])
  {
    forall i | 0 <= i < |cs| + 1
      ensures IsRustWhiteSpace((cs + [c])[i])
    {
      if i < |cs| {
        assert (cs + [c])[i] == cs[i];
      }
    }
  }

  /** `s` is what comes before position `k` followed by what comes after it. */
  lemma SplitAt<T>(s: seq<T>, k: nat)
    requires k <= |s|
    ensures s == s[..k] + s[k..]
  {
  }

  /** Regrouping the parts of a concatenation. */
  lemma Regroup<T>(s: seq<T>, t: seq<T>, kept: seq<T>, cut: seq<T>, last: seq<T>, joined: seq<T>)
    requires s == t + last && t == kept + cut && joined == cut + last
    ensures s == kept + joined
  {
    AppendAssociates(kept, cut, last);
  }

  /**
   * What `trim_end` cuts is a run of white-space characters; with `TrailingSpaceComplete` and the
   * white-space-free end of the result, it cuts the longest such run.
   */
  lemma {:induction false} TrimEndCutsOnlySpace(s: seq<byte>)
    ensures var cut := TrailingSpaceRun(s); AllRustWhiteSpace(cut) && s == TrimEnd(s) + EncodeString(cut)
    decreases |s|
  {
    var w := TrailingSpaceWidth(s);
    if w == 0 {
      TrimEndKeepsText(s);
    } else {
      var t := s[..|s| - w];
      TrimEndCutsOnlySpace(t);
      TrimEndPeel(s, t);
    }
  }

  /** Text that does not end in white space is cut by nothing. */
  lemma TrimEndKeepsText(s: seq<byte>)
    requires TrailingSpaceWidth(s) == 0
    ensures var cut := TrailingSpaceRun(s); AllRustWhiteSpace(cut) && s == TrimEnd(s) + EncodeString(cut)
  {
    assert TrailingSpaceRun(s) == [] && TrimEnd(s) == s;
    assert EncodeString([]) == [];
  }

  /** "➜" (U+279C), the oh-my-zsh prompt arrow. */
  const Arrow: seq<byte> := [0xE2, 0x9E, 0x9C]
  /** `ESC [ 0 m`, the SGR reset sequence. */
  const ResetSequence: seq<byte> := [0x1B, 0x5B, 0x30, 0x6D]
  /** "% " and "$ ". */
  const StandardEndings: seq<seq<byte>> := [[0x25, 0x20], [0x24, 0x20]]
  /** "λ ", "❯ ", "> ", "→ ", "» ", "✗ ". */
  const GlyphEndings: seq<seq<byte>> :=
    [[0xCE, 0xBB, 0x20], [0xE2, 0x9D, 0xAF, 0x20], [0x3E, 0x20], [0xE2, 0x86, 0x92, 0x20], [0xC2, 0xBB, 0x20], [0xE2, 0x9C, 0x97, 0x20]]

  predicate EndsWithAny(s: seq<byte>, endings: seq<seq<byte>>) {
    exists k :: 0 <= k < |endings| && EndsWith(s, endings[k])
  }

  /** `detect_prompt` as written, check by check in the order of the code. */
  function DetectPromptAsWritten(buffer: seq<byte>): (prompt: bool)
    ensures |TrimEnd(buffer)| == 0 ==> !prompt
  {
    var trimmed := TrimEnd(buffer);
    var lines := Lines(trimmed, LineFeed, CarriageReturn);
    if |lines| == 0 then false
    else PromptChecks(trimmed, lines[|lines| - 1])
  }

  /** The four checks of `detect_prompt` on the last line of the trimmed window, in order. */
  predicate PromptChecks(trimmed: seq<byte>, lastLine: seq<byte>) {
    if EndsWithAny(lastLine, StandardEndings) then true
    else if IndexOf(lastLine, Arrow).Some? && |lastLine| < PromptLineLimit then true
    else if EndsWithAny(lastLine, GlyphEndings) then true
    else if IndexOf(trimmed, ResetSequence).Some? && |lastLine| < PromptLineLimit then true
    else false
  }

  /**
   * What `detect_prompt` as written decides: the last line of the trimmed window is shorter than 200
   * bytes and holds "➜", or the trimmed window holds `ESC [ 0 m`. Every check for a line ending in a
   * space can never fire, because the window was trimmed of trailing white space first.
   */
  lemma DetectPromptCharacterization(buffer: seq<byte>)
    ensures var trimmed := TrimEnd(buffer);
      var lastLine := AfterLast(trimmed, LineFeed);
      DetectPromptAsWritten(buffer) ==
        (|trimmed| > 0 && |lastLine| < PromptLineLimit
         && (Contains(lastLine, Arrow) || Contains(trimmed, ResetSequence)))
  {
    var trimmed := TrimEnd(buffer);
    if |trimmed| > 0 {
      var lastLine := AfterLast(trimmed, LineFeed);
      DetectPromptOnText(buffer, trimmed);
      IndexOfContains(lastLine, Arrow);
      IndexOfContains(trimmed, ResetSequence);
    } else {
      assert Lines(trimmed, LineFeed, CarriageReturn) == [];
    }
  }

  /** On a window that is not all white space, as written, only the arrow and the reset sequence can fire. */
  lemma DetectPromptOnText(buffer: seq<byte>, trimmed: seq<byte>)
    requires trimmed == TrimEnd(buffer) && |trimmed| > 0
    ensures var lastLine := AfterLast(trimmed, LineFeed);
      DetectPromptAsWritten(buffer) ==
        (|lastLine| < PromptLineLimit && (IndexOf(lastLine, Arrow).Some? || IndexOf(trimmed, ResetSequence).Some?))
  {
    var lines := Lines(trimmed, LineFeed, CarriageReturn);
    TrimmedLastLine(trimmed);
    var lastLine := lines[|lines| - 1];
    assert DetectPromptAsWritten(buffer) == PromptChecks(trimmed, lastLine);
    ChecksWithoutEndings(trimmed, lastLine);
    assert lastLine == AfterLast(trimmed, LineFeed);
  }

  /** Once no ending matches, the checks come down to the arrow and the reset sequence. */
  lemma ChecksWithoutEndings(trimmed: seq<byte>, lastLine: seq<byte>)
    requires !EndsWithAny(lastLine, StandardEndings) && !EndsWithAny(lastLine, GlyphEndings)
    ensures PromptChecks(trimmed, lastLine)
      == (|lastLine| < PromptLineLimit && (IndexOf(lastLine, Arrow).Some? || IndexOf(trimmed, ResetSequence).Some?))
  {
  }

  /** The last line of text trimmed of trailing white space is what follows its last line feed, and ends in no space. */
  lemma TrimmedLastLine(trimmed: seq<byte>)
    requires |trimmed| > 0 && TrailingSpaceWidth(trimmed) == 0
    ensures var lines := Lines(trimmed, LineFeed, CarriageReturn);
      && |lines| > 0
      && lines[|lines| - 1] == AfterLast(trimmed, LineFeed)
      && !EndsWithAny(lines[|lines| - 1], StandardEndings)
      && !EndsWithAny(lines[|lines| - 1], GlyphEndings)
  {
    LastLineAfterLastNewline(trimmed, LineFeed, CarriageReturn);
    var lastLine := AfterLast(trimmed, LineFeed);
    assert |lastLine| == 0 || lastLine[|lastLine| - 1] != 0x20 by {
      assert trimmed[|trimmed| - 1] != 0x20;
      assert |lastLine| > 0 ==> lastLine[|lastLine| - 1] == trimmed[|trimmed| - 1];
    }
    EndingsEndInSpace();
    NoSpaceEnding(lastLine, StandardEndings);
    NoSpaceEnding(lastLine, GlyphEndings);
  }

  /** Every ending the heuristic looks for finishes with a space. */
  predicate EndInSpace(endings: seq<seq<byte>>) {
    forall k :: 0 <= k < |endings| ==> |endings[k]| > 0 && endings[k][|endings[k]| - 1] == 0x20
  }

  lemma EndingsEndInSpace()
    ensures EndInSpace(StandardEndings) && EndInSpace(GlyphEndings)
  {
  }

  /** No ending the heuristic looks for holds a line feed. */
  predicate HoldNoLineFeed(endings: seq<seq<byte>>) {
    forall k :: 0 <= k < |endings| ==> LineFeed !in endings[k]
  }

  lemma EndingsHoldNoLineFeed()
    ensures HoldNoLineFeed(StandardEndings) && HoldNoLineFeed(GlyphEndings)
  {
  }

  /** A line whose last byte is not a space ends with none of a list of endings that all end in a space. */
  lemma NoSpaceEnding(line: seq<byte>, endings: seq<seq<byte>>)
    requires |line| == 0 || line[|line| - 1] != 0x20
    requires EndInSpace(endings)
    ensures !EndsWithAny(line, endings)
  {
    forall k | 0 <= k < |endings| ensures !EndsWith(line, endings[k]) {
      var e := endings[k];
      assert |e| <= |line| ==> line[|line| - |e|..][|e| - 1] == line[|line| - 1];
    }
  }

  /** Text with no byte that starts "➜" or `ESC [ 0 m` is never taken for a prompt as written, whatever it ends with. */
  lemma PlainTextIsNoPromptAsWritten(buffer: seq<byte>)
    requires 0xE2 !in buffer && 0x1B !in buffer
    ensures !DetectPromptAsWritten(buffer)
  {
    var trimmed := TrimEnd(buffer);
    var lastLine := AfterLast(trimmed, LineFeed);
    AbsentFromSlice(buffer, 0xE2, 0, |trimmed|);
    AbsentFromSlice(buffer, 0x1B, 0, |trimmed|);
    assert trimmed == buffer[0..|trimmed|];
    AbsentFromSlice(trimmed, 0xE2, |trimmed| - |lastLine|, |trimmed|);
    assert trimmed[|trimmed| - |lastLine|..|trimmed|] == trimmed[|trimmed| - |lastLine|..];
    NotContainedWithoutFirst(lastLine, Arrow);
    NotContainedWithoutFirst(trimmed, ResetSequence);
    DetectPromptCharacterization(buffer);
  }

  /** The windows of the prompt test in `capture.rs`: a line of output, then a zsh prompt after it, and a bare "~ % ". */
  const OutputLine: seq<byte> := [0x73, 0x6F, 0x6D, 0x65, 0x20, 0x6F, 0x75, 0x74, 0x70, 0x75, 0x74, 0x0A]
  const ZshPrompt: seq<byte> :=
    [0x75, 0x73, 0x65, 0x72, 0x40, 0x68, 0x6F, 0x73, 0x74, 0x3A, 0x7E, 0x2F,
     0x70, 0x72, 0x6F, 0x6A, 0x65, 0x63, 0x74, 0x73, 0x20, 0x25, 0x20]
  const HomePrompt: seq<byte> := [0x7E, 0x20, 0x25, 0x20]

  /** The test's windows are short enough to be kept whole. */
  lemma TestWindowsKept()
    ensures KeepTail(OutputLine) == OutputLine
    ensures KeepTail(OutputLine + ZshPrompt) == OutputLine + ZshPrompt
    ensures KeepTail(HomePrompt) == HomePrompt
  {
  }

  /** The test's windows hold neither "➜" nor an escape. */
  lemma TestWindowsPlain()
    ensures 0xE2 !in OutputLine && 0x1B !in OutputLine
    ensures 0xE2 !in OutputLine + ZshPrompt && 0x1B !in OutputLine + ZshPrompt
    ensures 0xE2 !in HomePrompt && 0x1B !in HomePrompt
  {
    assert 0xE2 !in ZshPrompt && 0x1B !in ZshPrompt;
  }

  /**
   * As written, the two prompts the test expects are not recognised: the window "some output\n"
   * followed by "user@host:~/projects % ", and the window "~ % ".
   */
  lemma PromptTestAsWrittenFails()
    ensures !DetectPromptAsWritten(KeepTail(KeepTail(OutputLine) + ZshPrompt))
    ensures !DetectPromptAsWritten(KeepTail(HomePrompt))
  {
    TestWindowsKept();
    TestWindowsPlain();
    PlainTextIsNoPromptAsWritten(OutputLine + ZshPrompt);
    PlainTextIsNoPromptAsWritten(HomePrompt);
  }

  /** The last `lines()` line of the window as it stands, before any trimming. */
  function RawLastLine(buffer: seq<byte>): seq<byte> {
    var lines := Lines(buffer, LineFeed, CarriageReturn);
    if |lines| == 0 then [] else lines[|lines| - 1]
  }

  /**
   * `detect_prompt` as its comments and its test mean it: the checks for a line ending in "% ", "$ "
   * or a prompt glyph look at the last line of the window before it is trimmed; the arrow and reset
   * checks stay as written. Each check returns true on its own, so their order does not matter.
   */
  function DetectPrompt(buffer: seq<byte>): (prompt: bool)
    ensures DetectPromptAsWritten(buffer) ==> prompt
  {
    var line := RawLastLine(buffer);
    EndsWithAny(line, StandardEndings) || EndsWithAny(line, GlyphEndings) || DetectPromptAsWritten(buffer)
  }

  /** A window that ends in "% ", "$ " or one of the prompt glyphs followed by a space is a prompt. */
  lemma PromptEndingIsPrompt(buffer: seq<byte>, e: seq<byte>)
    requires e in StandardEndings || e in GlyphEndings
    requires EndsWith(buffer, e)
    ensures DetectPrompt(buffer)
  {
    EndingsEndInSpace();
    EndingsHoldNoLineFeed();
    assert buffer[|buffer| - 1] == e[|e| - 1];
    LastLineAfterLastNewline(buffer, LineFeed, CarriageReturn);
    var line := RawLastLine(buffer);
    if e in StandardEndings {
      var k :| 0 <= k < |StandardEndings| && StandardEndings[k] == e;
      AfterLastKeepsEnding(buffer, LineFeed, StandardEndings[k]);
      assert EndsWith(line, StandardEndings[k]);
    } else {
      var k :| 0 <= k < |GlyphEndings| && GlyphEndings[k] == e;
      AfterLastKeepsEnding(buffer, LineFeed, GlyphEndings[k]);
      assert EndsWith(line, GlyphEndings[k]);
    }
  }

  /** Plain text whose last line ends in none of the endings is no prompt. */
  lemma PlainLineIsNoPrompt(buffer: seq<byte>)
    requires 0xE2 !in buffer && 0x1B !in buffer
    requires var line := RawLastLine(buffer); |line| == 0 || line[|line| - 1] != 0x20
    ensures !DetectPrompt(buffer)
  {
    PlainTextIsNoPromptAsWritten(buffer);
    EndingsEndInSpace();
    NoSpaceEnding(RawLastLine(buffer), StandardEndings);
    NoSpaceEnding(RawLastLine(buffer), GlyphEndings);
  }

  /** "some output\n" has one line, "some output", which ends in no space. */
  lemma OutputLineLastLine()
    ensures RawLastLine(OutputLine) == OutputLine[..11]
    ensures var line := RawLastLine(OutputLine); |line| == 11 && line[10] != 0x20
  {
    FirstIndexOfAt(OutputLine, LineFeed, 11);
    LinesStep(OutputLine, LineFeed, CarriageReturn, 11);
    assert Lines(OutputLine[12..], LineFeed, CarriageReturn) == [];
  }

  /** Both prompt windows of the test end in "% ". */
  lemma TestWindowsEndInPercent()
    ensures EndsWith(OutputLine + ZshPrompt, StandardEndings[0])
    ensures EndsWith(HomePrompt, StandardEndings[0])
  {
    assert EndsWith(ZshPrompt, StandardEndings[0]);
    assert (OutputLine + ZshPrompt)[|OutputLine|..] == ZshPrompt;
    EndsWithOfSuffix(OutputLine + ZshPrompt, |OutputLine|, StandardEndings[0]);
  }

  /** The prompt test holds of the corrected heuristic: no prompt after a line of output, then the two prompts. */
  lemma PromptTestIntended()
    ensures !DetectPrompt(KeepTail(OutputLine))
    ensures DetectPrompt(KeepTail(KeepTail(OutputLine) + ZshPrompt))
    ensures DetectPrompt(KeepTail(HomePrompt))
  {
    TestWindowsKept();
    TestWindowsPlain();
    OutputLineLastLine();
    PlainLineIsNoPrompt(OutputLine);
    TestWindowsEndInPercent();
    PromptEndingIsPrompt(OutputLine + ZshPrompt, StandardEndings[0]);
    PromptEndingIsPrompt(HomePrompt, StandardEndings[0]);
  }

  // ---------------------------------------------------------------------------------------------
  // The engine
  // ---------------------------------------------------------------------------------------------

  class CommandCapture {
    /** Finished records, oldest first. */
    var commands: seq<CapturedCommand>
    /** The record being captured, if any. */
    var currentCommand: Option<CapturedCommand>
    /** Recent output, for the prompt heuristic. */
    var outputBuffer: seq<byte>

    /** The window is bounded and, being a Rust `String`, well-formed UTF-8. */
    ghost predicate Valid()
      reads this
    {
      |outputBuffer| <= PromptWindow && Utf8.Valid(outputBuffer)
    }

    constructor ()
      ensures Valid()
      ensures commands == [] && currentCommand == None && outputBuffer == []
    {
      commands := [];
      currentCommand := None;
      outputBuffer := [];
    }

    /**
     * `process_output`: the chunk joins the window, the markers are acted on, the window is
     * trimmed, the cleaned chunk goes to the open record and the prompt heuristic is consulted.
     */
    method ProcessOutput(data: seq<byte>, workingDir: seq<byte>, now: int) returns (promptLikely: bool)
      requires Valid() && Utf8.Valid(data)
      modifies this
      ensures Valid()
      ensures Log(commands, currentCommand) == AfterChunk(Log(old(commands), old(currentCommand)), data, workingDir, now)
      ensures outputBuffer == KeepTail(old(outputBuffer) + data)
      ensures EndsWith(old(outputBuffer) + data, outputBuffer)
      ensures promptLikely == DetectPrompt(outputBuffer)
    {
      ConcatValid(outputBuffer, data);
      outputBuffer := outputBuffer + data;
      ParseOscSequences(data, workingDir, now);
      outputBuffer := KeepTail(outputBuffer);
      var cleanOutput := StripOscSequences(data);
      if currentCommand.Some? {
        currentCommand := Some(currentCommand.value.AppendOutput(cleanOutput));
      }
      promptLikely := DetectPrompt(outputBuffer);
    }

    /** `parse_osc_sequences`: the first start marker, then the first end marker, of the chunk. */
    method ParseOscSequences(data: seq<byte>, workingDir: seq<byte>, now: int)
      modifies this`commands, this`currentCommand
      ensures Log(commands, currentCommand) == AfterMarkers(Log(old(commands), old(currentCommand)), data, workingDir, now)
    {
      match MarkerPayload(data, CommandStartPrefix) {
        case Some(command) => StartCommand(command, workingDir, now);
        case None =>
      }
      match MarkerPayload(data, CommandEndPrefix) {
        case Some(payload) =>
          match ParseI32(payload) {
            case Some(code) => FinalizeCommand(code);
            case None =>
          }
        case None =>
      }
    }

    /** `strip_osc_sequences`: deletes closed markers from a copy of the chunk, one at a time. */
    method StripOscSequences(data: seq<byte>) returns (result: seq<byte>)
      ensures result == Stripped(data)
    {
      result := data;
      while true
        invariant Stripped(result) == Stripped(data)
        decreases |result|
      {
        var found, rest := StripFirstMarker(result);
        if !found {
          break;
        }
        StrippedStep(result, rest);
        result := rest;
      }
    }

    /** One pass of the loop in `strip_osc_sequences`: the first marker prefix through the first BEL after it goes. */
    method StripFirstMarker(s: seq<byte>) returns (found: bool, rest: seq<byte>)
      ensures found ==> StripOnce(s) == Some(rest)
      ensures !found ==> StripOnce(s).None?
    {
      var start := IndexOf(s, OscPrefix);
      if start.None? {
        StrippedDone(s);
        return false, s;
      }
      var end := FirstIndexOf(s[start.value..], Bel);
      if end.None? {
        StrippedDone(s);
        return false, s;
      }
      StripOnceAt(s, start.value, end.value);
      assert start.value + end.value < |s|;
      return true, s[..start.value] + s[start.value + end.value + 1..];
    }

    /** `start_command`. */
    method StartCommand(command: seq<byte>, workingDir: seq<byte>, now: int)
      modifies this`commands, this`currentCommand
      ensures Log(commands, currentCommand) == Started(Log(old(commands), old(currentCommand)), command, workingDir, now)
    {
      if currentCommand.Some? {
        commands := commands + [currentCommand.value];
      }
      currentCommand := Some(NewCommand(command, workingDir, now));
    }

    /** `finalize_command`. */
    method FinalizeCommand(code: i32)
      modifies this`currentCommand
      ensures Log(commands, currentCommand) == Finalized(Log(commands, old(currentCommand)), code)
    {
      if currentCommand.Some? {
        currentCommand := Some(currentCommand.value.SetExitCode(code));
      }
    }

    /** `get_commands`: the finished records, oldest first. */
    method GetCommands() returns (history: seq<CapturedCommand>)
      ensures history == commands
    {
      history := commands;
    }

    /** `current`: the open record, if any. */
    method Current() returns (open: Option<CapturedCommand>)
      ensures open == currentCommand
    {
      open := currentCommand;
    }

    /** `clear`: forgets the history, the open record and the window. */
    method Clear()
      modifies this
      ensures Valid()
      ensures commands == [] && currentCommand == None && outputBuffer == []
    {
      commands := [];
      currentCommand := None;
      outputBuffer := [];
    }
  }
}
