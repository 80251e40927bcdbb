/**
 The bash tools the agent calls: start a session (`bash`), feed or wait on
 one (`bash_input`, `bash_wait`), interrupt one, and edit a file through the
 edit skill. Around them sit three pieces of state kept in the agent's
 dependencies: the command history with its "stuck" counter, and the
 countdown that, when it runs out, asks the agent for a progress update.

 The shell session manager is outside the model: the session id it assigns,
 the first answer it returns (`NextResult`, already decoded to text) and the
 list of live sessions are parameters, as is the tokenizer's count.
 */
module ShellTools {
  import opened Wrappers
  import opened PyStr
  import ShellQuote

  /** Output above this many characters, and this many tokens, is withheld. */
  const StdioLimit: nat := 16000

  const CountdownMsg: string := "You've been working for a while. Pause to send a brief progress update to the originating event channel, then continue working."
  const TooLongMsg: string := "The stdout/stderr is too long, please decrease the output size if possiable, or dump to a /tmp file before consume."
  const StuckMsg: string := "You seems to be stuck. You MUST finish with kind: `stuck` right now."
  const RepeatMsg: string := "You are using the same bash command as the last time. If you get stuck, finish with kind: `stuck`."
  const UnknownPrefix: string := "Unknown session id: "
  const UnknownStartSuffix: string := ". Start a new session with bash."
  const UnknownIgnoredSuffix: string := ". Ignored."
  const SessionEnded: string := "Session ended."
  const EditScript: string := "python3 ~/skills/meta/edit-file/edit.py"
  /** The skill path under the agent's configuration base, as the tool's own tests expect the command to name it. */
  const ConfigBaseEditPath: string := "$" + "{K_CONFIG_BASE:-~/.kapybara}/skills/meta/edit-file/edit"
  const IntendedEditScript: string := "python3 " + ConfigBaseEditPath + ".py"

  // ---------------------------------------------------------------------------
  // Values
  // ---------------------------------------------------------------------------

  /** One answer of a shell session: its output so far, and the exit code once it has ended. */
  datatype NextResult = NextResult(stdout: string, stderr: string, exitCode: Option<int>)

  /** What the tools return to the agent; live sessions are kept as their descriptions. */
  datatype BashEvent = BashEvent(
    sessionId: string,
    stdout: string,
    stderr: string,
    exitCode: Option<int>,
    activeSessions: seq<string>,
    systemMsg: Option<string>)

  /** A tool's answer: an event, or a plain message for an unknown session. */
  datatype Reply = Event(event: BashEvent) | Message(text: string)

  /** The part of the agent's dependencies the tools read and update. */
  datatype Deps = Deps(history: seq<string>, stuckWarning: int, stuckWarningLimit: int, countDown: int)

  // ---------------------------------------------------------------------------
  // Small helpers
  // ---------------------------------------------------------------------------

  /** `_append_system_msg`: the extra text on a line of its own after a non-empty message. */
  function AppendSystemMsg(existing: Option<string>, extra: string): (r: string)
    ensures EndsWith(r, extra)
    ensures existing.Some? && existing.value != [] ==> StartsWith(r, existing.value) && |r| == |existing.value| + 1 + |extra|
    ensures existing.None? || existing.value == [] ==> r == extra
  {
    if existing.Some? && existing.value != [] then
      AffixesOfConcat(existing.value + "\n", extra);
      AffixesOfConcat(existing.value, "\n");
      AffixesExtend(existing.value + "\n", existing.value, extra);
      existing.value + "\n" + extra
    else
      AffixesOfConcat([], extra);
      assert [] + extra == extra;
      extra
  }

  /** For a one-line extra text, appending adds exactly one last line and keeps the others. */
  lemma AppendSystemMsgLines(existing: Option<string>, extra: string)
    requires '\n' !in extra
    ensures existing.Some? && existing.value != [] ==>
      Split(AppendSystemMsg(existing, extra), '\n') == Split(existing.value, '\n') + [extra]
    ensures existing.None? || existing.value == [] ==> Split(AppendSystemMsg(existing, extra), '\n') == [extra]
  {
    if existing.Some? && existing.value != [] {
      SplitAppend(existing.value, extra, '\n');
    }
  }

  /** `_validate_timeout_seconds`: absent or positive passes through; anything else is a ValueError. */
  function ValidateTimeout(timeout: Option<real>): (r: Outcome<Option<real>>)
    ensures r.Ok? <==> timeout.None? || timeout.value > 0.0
    ensures r.Ok? ==> r.value == timeout
    ensures r.Fail? ==> r.exc == ValueError
  {
    if timeout.Some? && timeout.value <= 0.0 then Fail(ValueError) else Ok(timeout)
  }

  /** The session description shown in listings: the first 30 characters, marked when cut. */
  function SessionDesc(text: string): (r: string)
    ensures |text| <= 30 ==> r == text
    ensures |text| > 30 ==> |r| == 33 && r[..30] == text[..30] && EndsWith(r, "...")
  {
    if |text| > 30 then
      AffixesOfConcat(text[..30], "...");
      text[..30] + "..."
    else text
  }

  // ---------------------------------------------------------------------------
  // Events
  // ---------------------------------------------------------------------------

  /** The combined output is over the limit both in characters and in tokens. */
  predicate TooLong(res: NextResult, tokenLen: string -> nat)
  {
    var combined := res.stdout + res.stderr;
    |combined| > StdioLimit && tokenLen(combined) > StdioLimit
  }

  /** The system message of an event whose output was withheld: the note, after the message if there is one. */
  function TooLongNote(systemMsg: Option<string>): (r: string)
    ensures EndsWith(r, TooLongMsg)
    ensures systemMsg.Some? ==> StartsWith(r, systemMsg.value)
  {
    if systemMsg.None? then
      AffixesOfConcat([], TooLongMsg);
      assert [] + TooLongMsg == TooLongMsg;
      TooLongMsg
    else
      AffixesOfConcat(systemMsg.value + "\n", TooLongMsg);
      AffixesOfConcat(systemMsg.value, "\n");
      AffixesExtend(systemMsg.value + "\n", systemMsg.value, TooLongMsg);
      systemMsg.value + "\n" + TooLongMsg
  }

  /**
   `BashEvent.new`: the output is kept unless it is too long, in which case
   both streams are emptied and a note is added to the system message.
   */
  function NewEvent(sessionId: string, res: NextResult, sessions: seq<string>, systemMsg: Option<string>,
                    tokenLen: string -> nat): (e: BashEvent)
    ensures e.sessionId == sessionId && e.exitCode == res.exitCode && e.activeSessions == sessions
    ensures |res.stdout + res.stderr| <= StdioLimit ==>
      e.stdout == res.stdout && e.stderr == res.stderr && e.systemMsg == systemMsg
    ensures !TooLong(res, tokenLen) ==> e.stdout == res.stdout && e.stderr == res.stderr && e.systemMsg == systemMsg
    ensures TooLong(res, tokenLen) ==>
      e.stdout == [] && e.stderr == [] && e.systemMsg.Some? && EndsWith(e.systemMsg.value, TooLongMsg)
      && (systemMsg.Some? ==> StartsWith(e.systemMsg.value, systemMsg.value))
    ensures |e.stdout + e.stderr| <= StdioLimit || tokenLen(e.stdout + e.stderr) <= StdioLimit
  {
    if TooLong(res, tokenLen) then
      var none: string := [];
      assert none + none == none;
      BashEvent(sessionId, [], [], res.exitCode, sessions, Some(TooLongNote(systemMsg)))
    else
      BashEvent(sessionId, res.stdout, res.stderr, res.exitCode, sessions, systemMsg)
  }

  /**
   The note about long output joins on `is None` rather than on emptiness,
   so it agrees with `_append_system_msg` on every message but the empty one.
   */
  lemma TooLongJoinAgrees(sessionId: string, res: NextResult, sessions: seq<string>, systemMsg: Option<string>,
                          tokenLen: string -> nat)
    requires TooLong(res, tokenLen)
    ensures systemMsg != Some([]) ==>
      NewEvent(sessionId, res, sessions, systemMsg, tokenLen).systemMsg == Some(AppendSystemMsg(systemMsg, TooLongMsg))
    ensures systemMsg == Some([]) ==>
      NewEvent(sessionId, res, sessions, systemMsg, tokenLen).systemMsg == Some("\n" + TooLongMsg)
  {
    if systemMsg == Some([]) {
      assert [] + "\n" + TooLongMsg == "\n" + TooLongMsg;
    }
  }

  // ---------------------------------------------------------------------------
  // Stuck detection
  // ---------------------------------------------------------------------------

  /** The command, once stripped, is the last one in the history. */
  predicate Repeats(d: Deps, text: string)
  {
    |d.history| > 0 && d.history[|d.history| - 1] == Strip(text)
  }

  /**
   The history step of `_bash_impl`: a repeated command draws a warning (the
   stern one once the counter has reached its limit) and bumps the counter;
   the stripped command is always recorded.
   */
  function StuckCheck(d: Deps, text: string): (r: (Deps, Option<string>))
    ensures r.0.history == d.history + [Strip(text)]
    ensures r.0.countDown == d.countDown && r.0.stuckWarningLimit == d.stuckWarningLimit
    ensures r.0.stuckWarning == d.stuckWarning + (if Repeats(d, text) then 1 else 0)
    ensures r.1.Some? <==> Repeats(d, text)
    ensures r.1 == Some(StuckMsg) <==> Repeats(d, text) && d.stuckWarning >= d.stuckWarningLimit
  {
    var t := Strip(text);
    var warning :=
      if |d.history| > 0 && d.history[|d.history| - 1] == t then
        if d.stuckWarning >= d.stuckWarningLimit then Some(StuckMsg) else Some(RepeatMsg)
      else None;
    var counter := if warning.Some? then d.stuckWarning + 1 else d.stuckWarning;
    StripIdempotent(text);
    assert |StuckMsg| < |RepeatMsg|;
    (d.(history := d.history + [Strip(t)], stuckWarning := counter), warning)
  }

  /** The state after the same command has been issued `n` times. */
  function Repeated(d: Deps, text: string, n: nat): Deps
  {
    if n == 0 then d else StuckCheck(Repeated(d, text, n - 1), text).0
  }

  /**
   Issuing one command over and over: every call after the first warns, and
   the counter grows by one per warning, so the stern warning comes once the
   counter reaches the limit.
   */
  lemma {:induction false} RepeatedWarns(d: Deps, text: string, n: nat)
    requires n >= 1
    ensures Repeats(Repeated(d, text, n), text)
    ensures Repeated(d, text, n).stuckWarning == d.stuckWarning + n - 1 + (if Repeats(d, text) then 1 else 0)
    ensures Repeated(d, text, n).stuckWarningLimit == d.stuckWarningLimit
    ensures StuckCheck(Repeated(d, text, n), text).1 == Some(StuckMsg)
      <==> d.stuckWarning + n - 1 + (if Repeats(d, text) then 1 else 0) >= d.stuckWarningLimit
  {
    if n > 1 {
      RepeatedWarns(d, text, n - 1);
    }
  }

  // ---------------------------------------------------------------------------
  // The countdown
  // ---------------------------------------------------------------------------

  /** One step of the counter: down by one while positive. */
  function Tick(c: int): int
  {
    if c > 0 then c - 1 else c
  }

  /**
   `bash_countdown_tool` after the wrapped call answered `res`: the counter
   steps, and an event gets the progress reminder exactly when the counter
   stood at one.
   */
  function Countdown(d: Deps, res: Reply): (r: (Deps, Reply))
    ensures r.0 == d.(countDown := Tick(d.countDown))
    ensures d.countDown >= 0 ==> r.0.countDown >= 0
    ensures r.1.Event? <==> res.Event?
    ensures r.1 != res <==> d.countDown == 1 && res.Event?
    ensures r.1 != res ==> r.1.event == res.event.(systemMsg := Some(AppendSystemMsg(res.event.systemMsg, CountdownMsg)))
  {
    if d.countDown == 1 && res.Event? then
      var msg := AppendSystemMsg(res.event.systemMsg, CountdownMsg);
      assert res.event.systemMsg != Some(msg) by {
        if res.event.systemMsg.Some? && res.event.systemMsg.value != [] {
          assert |msg| > |res.event.systemMsg.value|;
        }
      }
      (d.(countDown := 0), Event(res.event.(systemMsg := Some(msg))))
    else (d.(countDown := Tick(d.countDown)), res)
  }

  /** A run of wrapped calls, each answering the next reply in order. */
  function CountdownRun(d: Deps, rs: seq<Reply>): (r: (Deps, seq<Reply>))
    ensures |r.1| == |rs|
    decreases |rs|
  {
    if rs == [] then (d, [])
    else
      var first := Countdown(d, rs[0]);
      var rest := CountdownRun(first.0, rs[1..]);
      (rest.0, [first.1] + rest.1)
  }

  /**
   From a counter `c >= 0`, a run of calls leaves `max(c - n, 0)`, and the
   only answer changed is the `c`-th one, when it is an event: the reminder
   comes once, on the call that brings the counter to zero.
   */
  lemma {:induction false} CountdownRunRemindsOnce(d: Deps, rs: seq<Reply>)
    requires d.countDown >= 0
    ensures CountdownRun(d, rs).0.countDown == if d.countDown >= |rs| then d.countDown - |rs| else 0
    ensures CountdownRun(d, rs).0 == d.(countDown := CountdownRun(d, rs).0.countDown)
    ensures forall i :: 0 <= i < |rs| ==>
      (CountdownRun(d, rs).1[i] != rs[i] <==> i == d.countDown - 1 && rs[i].Event?)
    decreases |rs|
  {
    if rs != [] {
      var first := Countdown(d, rs[0]);
      CountdownRunRemindsOnce(first.0, rs[1..]);
      var out := CountdownRun(d, rs).1;
      forall i | 0 <= i < |rs|
        ensures out[i] != rs[i] <==> i == d.countDown - 1 && rs[i].Event?
      {
        if i > 0 {
          assert out[i] == CountdownRun(first.0, rs[1..]).1[i - 1];
          assert rs[i] == rs[1..][i - 1];
        }
      }
    }
  }

  /** The countdown around a tool: a raised error passes through and leaves the counter alone. */
  function Wrap(d: Deps, inner: Outcome<(Deps, Reply)>): (r: Outcome<(Deps, Reply)>)
    ensures r.Ok? <==> inner.Ok?
    ensures r.Fail? ==> r.exc == inner.exc
    ensures r.Ok? ==> r.value == Countdown(inner.value.0, inner.value.1)
  {
    match inner
    case Fail(e) => Fail(e)
    case Ok(v) => Ok(Countdown(v.0, v.1))
  }

  // ---------------------------------------------------------------------------
  // The tools
  // ---------------------------------------------------------------------------

  /** The command line and description a new session is started with. */
  function Launch(cfg: ShellQuote.SshConfig, text: string): (r: (string, string))
    ensures r.0 == ShellQuote.Command(cfg, text, [])
    ensures r.1 == SessionDesc(text)
  {
    (ShellQuote.Command(cfg, text, []), SessionDesc(text))
  }

  /**
   `_bash_impl`: check the timeout, run the history step on the stripped
   command and wrap the session's first answer with its warning.
   */
  function BashImpl(d: Deps, text: string, timeout: Option<real>, sessionId: string, res: NextResult,
                    sessions: seq<string>, tokenLen: string -> nat): (r: Outcome<(Deps, BashEvent)>)
    ensures r.Fail? <==> timeout.Some? && timeout.value <= 0.0
    ensures r.Fail? ==> r.exc == ValueError
    ensures r.Ok? ==> r.value.0.history == d.history + [Strip(text)] && r.value.0.countDown == d.countDown
    ensures r.Ok? ==> r.value.1.sessionId == sessionId && r.value.1.exitCode == res.exitCode
    ensures r.Ok? ==> (r.value.1.systemMsg.Some? <==> Repeats(d, text) || TooLong(res, tokenLen))
  {
    match ValidateTimeout(timeout)
    case Fail(e) => Fail(e)
    case Ok(_) =>
      var step := StuckCheck(d, text);
      Ok((step.0, NewEvent(sessionId, res, sessions, step.1, tokenLen)))
  }

  /** `bash`: `_bash_impl` under the countdown. */
  function Bash(d: Deps, text: string, timeout: Option<real>, sessionId: string, res: NextResult,
                sessions: seq<string>, tokenLen: string -> nat): (r: Outcome<(Deps, Reply)>)
    ensures r.Fail? <==> timeout.Some? && timeout.value <= 0.0
    ensures r.Ok? ==> r.value.1.Event? && r.value.0.countDown == Tick(d.countDown)
    ensures r.Ok? ==> r.value.0.history == d.history + [Strip(text)]
  {
    var inner := BashImpl(d, text, timeout, sessionId, res, sessions, tokenLen);
    Wrap(d, if inner.Fail? then Fail(inner.exc) else Ok((inner.value.0, Event(inner.value.1))))
  }

  /** The answer for a session id the manager does not know. */
  function UnknownSession(sessionId: string): string
  {
    UnknownPrefix + sessionId + UnknownStartSuffix
  }

  /**
   `bash_input` and `bash_wait` (they differ only in the input sent to the
   session, which is outside the model): check the timeout, then wrap the
   answer, or report an unknown session; no history step, no warning.
   */
  function Resume(d: Deps, sessionId: string, timeout: Option<real>, res: Option<NextResult>,
                  sessions: seq<string>, tokenLen: string -> nat): (r: Outcome<(Deps, Reply)>)
    ensures r.Fail? <==> timeout.Some? && timeout.value <= 0.0
    ensures r.Ok? ==> r.value.0 == d.(countDown := Tick(d.countDown))
    ensures r.Ok? ==> (r.value.1.Message? <==> res.None?)
    ensures r.Ok? && res.None? ==> r.value.1 == Message(UnknownSession(sessionId))
    ensures r.Ok? && res.Some? ==>
      (r.value.1.event.systemMsg.Some? <==> d.countDown == 1 || TooLong(res.value, tokenLen))
  {
    match ValidateTimeout(timeout)
    case Fail(e) => Fail(e)
    case Ok(_) =>
      var reply :=
        if res.None? then Message(UnknownSession(sessionId))
        else Event(NewEvent(sessionId, res.value, sessions, None, tokenLen));
      Wrap(d, Ok((d, reply)))
  }

  /** `bash_interrupt`: not under the countdown; it only reports whether the session was known. */
  function Interrupt(known: bool, sessionId: string): (r: string)
    ensures known <==> r == SessionEnded
    ensures !known ==> StartsWith(r, UnknownPrefix + sessionId)
  {
    if known then SessionEnded
    else
      AffixesOfConcat(UnknownPrefix + sessionId, UnknownIgnoredSuffix);
      assert (UnknownPrefix + sessionId + UnknownIgnoredSuffix)[0] != SessionEnded[0];
      UnknownPrefix + sessionId + UnknownIgnoredSuffix
  }

  /** The skill call `edit_file` runs: each argument single-quoted, the start line only when given. */
  function EditCommand(filename: string, oldContent: string, newContent: string, startLine: Option<int>): (r: string)
    ensures StartsWith(r, EditScript)
    ensures startLine.None? <==> r[|r| - 1] == ' '
  {
    EditCommandFor(EditScript, filename, oldContent, newContent, startLine)
  }

  /** The skill call with the given interpreter-and-script prefix. */
  function EditCommandFor(script: string, filename: string, oldContent: string, newContent: string, startLine: Option<int>)
    : (r: string)
    ensures StartsWith(r, script) && |r| > |script|
    ensures r == script + EditArgs(filename, oldContent, newContent, startLine)
    ensures startLine.None? <==> r[|r| - 1] == ' '
  {
    var args := EditArgs(filename, oldContent, newContent, startLine);
    AffixesOfConcat(script, args);
    assert (script + args)[|script + args| - 1] == args[|args| - 1];
    script + args
  }

  /** The skill's arguments: each single-quoted, the start line only when given. */
  function EditArgs(filename: string, oldContent: string, newContent: string, startLine: Option<int>): (r: string)
    ensures |r| > 0
    ensures startLine.None? <==> r[|r| - 1] == ' '
  {
    var head := " --filename " + ShellQuote.SingleQuote(filename)
      + " --old-content " + ShellQuote.SingleQuote(oldContent)
      + " --new-content " + ShellQuote.SingleQuote(newContent) + " ";
    var tail := if startLine.Some? then "--start-line " + ShellQuote.SingleQuote(IntToStr(startLine.value)) else "";
    assert tail != [] ==> (head + tail)[|head + tail| - 1] == tail[|tail| - 1];
    head + tail
  }

  /** A quoted argument holds a `$` only when the argument does. */
  lemma QuotedHasNoDollar(s: string)
    requires '$' !in s
    ensures '$' !in ShellQuote.SingleQuote(s)
  {
    ShellQuote.EscapeAddsOnlyQuotes(s, '$');
  }

  /** Arguments without `$` give a skill call without `$` after the script. */
  lemma EditArgsHaveNoDollar(filename: string, oldContent: string, newContent: string)
    requires '$' !in filename && '$' !in oldContent && '$' !in newContent
    ensures '$' !in EditArgs(filename, oldContent, newContent, None)
  {
    QuotedHasNoDollar(filename);
    QuotedHasNoDollar(oldContent);
    QuotedHasNoDollar(newContent);
  }

  /** The two script prefixes: the written one has no `$`; the expected path starts with one. */
  lemma ScriptPrefixes()
    ensures '$' !in EditScript
    ensures ConfigBaseEditPath != [] && ConfigBaseEditPath[0] == '$'
  {
  }

  /** A text lacking the first character of `t` does not contain `t`. */
  lemma MissingHeadNotContained(r: string, t: string)
    requires t != [] && t[0] !in r
    ensures !Contains(r, t)
  {
  }

  /**
   The command as written never names the skill under the configuration
   base: for arguments without `$` (such as the tests' "x.txt", "old\n",
   "new\n"), the path the tests expect does not occur in it.
   */
  lemma AsWrittenEditCommandLacksConfigBase(filename: string, oldContent: string, newContent: string)
    requires '$' !in filename && '$' !in oldContent && '$' !in newContent
    ensures !Contains(EditCommand(filename, oldContent, newContent, None), ConfigBaseEditPath)
  {
    EditArgsHaveNoDollar(filename, oldContent, newContent);
    ScriptPrefixes();
    var r := EditCommand(filename, oldContent, newContent, None);
    assert r == EditScript + EditArgs(filename, oldContent, newContent, None);
    MissingHeadNotContained(r, ConfigBaseEditPath);
  }

  /** A text starting with `a + p + b` holds `p` right after `a`. */
  lemma PrefixHoldsMiddle(r: string, a: string, p: string, b: string)
    requires StartsWith(r, a + p + b)
    ensures Contains(r, p)
  {
    assert r[|a|..|a| + |p|] == (a + p + b)[|a|..|a| + |p|];
    assert OccursAt(r, p, |a|);
  }

  /**
   The skill call as the tests expect it: the same arguments, with the
   script named under the configuration base, which the command contains.
   */
  function EditCommandIntended(filename: string, oldContent: string, newContent: string, startLine: Option<int>): (r: string)
    ensures StartsWith(r, IntendedEditScript)
    ensures Contains(r, ConfigBaseEditPath)
    ensures r[|IntendedEditScript|..] == EditCommand(filename, oldContent, newContent, startLine)[|EditScript|..]
  {
    var r := EditCommandFor(IntendedEditScript, filename, oldContent, newContent, startLine);
    PrefixHoldsMiddle(r, "python3 ", ConfigBaseEditPath, ".py");
    r
  }

  /** `edit_file`: `_bash_impl` on the skill call, under the countdown once. */
  function EditFile(d: Deps, filename: string, oldContent: string, newContent: string, startLine: Option<int>,
                    sessionId: string, res: NextResult, sessions: seq<string>, tokenLen: string -> nat)
    : (r: Outcome<(Deps, Reply)>)
    ensures r.Ok?
    ensures r.value.0.countDown == Tick(d.countDown)
  {
    var inner := BashImpl(d, EditCommand(filename, oldContent, newContent, startLine), None, sessionId, res,
                          sessions, tokenLen);
    Wrap(d, Ok((inner.value.0, Event(inner.value.1))))
  }

  /**
   `edit_file` is exactly `bash` on the skill call without a timeout: the
   counter steps once, not twice, because the unwrapped implementation is
   called.
   */
  lemma EditFileIsBash(d: Deps, filename: string, oldContent: string, newContent: string, startLine: Option<int>,
                       sessionId: string, res: NextResult, sessions: seq<string>, tokenLen: string -> nat)
    ensures EditFile(d, filename, oldContent, newContent, startLine, sessionId, res, sessions, tokenLen)
      == Bash(d, EditCommand(filename, oldContent, newContent, startLine), None, sessionId, res, sessions, tokenLen)
    ensures d.countDown >= 2 ==>
      EditFile(d, filename, oldContent, newContent, startLine, sessionId, res, sessions, tokenLen).value.0.countDown
        == d.countDown - 1
  {
  }

  /**
   A repeated command at the stuck limit with the counter at one: the stern
   warning comes first and the progress reminder follows on its own line.
   */
  lemma StuckThenReminderExample(res: NextResult, tokenLen: string -> nat)
    requires |res.stdout + res.stderr| <= StdioLimit
    ensures var r := Bash(Deps(["echo hi"], 3, 3, 1), "echo hi", None, "000001", res, [], tokenLen);
      r.Ok? && r.value.0 == Deps(["echo hi", "echo hi"], 4, 3, 0)
      && r.value.1.event.systemMsg == Some(StuckMsg + "\n" + CountdownMsg)
  {
    StripTrimmed("echo hi");
  }
}
