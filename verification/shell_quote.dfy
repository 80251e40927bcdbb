/**
 Shell command construction for the bash tools: POSIX single quoting, and the
 launcher line that runs a command either locally under `script` (to get a
 pseudo-terminal) or over SSH, after sourcing the agent's `.bashrc`.
 */
module ShellQuote {
  import opened Wrappers
  import opened PyStr
  import Seqs

  const Quote: char := '\''
  /** What a quote becomes inside a single-quoted word: close, escaped quote, reopen. */
  const QuotedQuote: string := "'\\''"

  // ---------------------------------------------------------------------------
  // Single quoting
  // ---------------------------------------------------------------------------

  /** `single_quote_escape`: every quote replaced, nothing else touched. */
  function Escape(s: string): (r: string)
  {
    ReplaceAll(s, [Quote], QuotedQuote)
  }

  /** `single_quote`: the escaped text between two quotes. */
  function SingleQuote(s: string): (r: string)
    ensures |r| >= 2 && r[0] == Quote && r[|r| - 1] == Quote
  {
    [Quote] + Escape(s) + [Quote]
  }

  /** Escaping works character by character: a quote is expanded, anything else kept. */
  lemma EscapeHead(s: string)
    requires s != []
    ensures Escape(s) == (if s[0] == Quote then QuotedQuote else [s[0]]) + Escape(s[1..])
  {
    if s[0] != Quote {
      ReplaceHeadMiss(s, [Quote], QuotedQuote);
    } else {
      assert s[..1] == [Quote];
    }
  }

  /** Text without quotes is its own escape. */
  lemma EscapeNoQuote(s: string)
    requires Quote !in s
    ensures Escape(s) == s
  {
    AbsentUnchanged(s, [Quote], QuotedQuote, Quote);
  }

  /** Escaping brings in no character other than the ones of the quoted-quote sequence. */
  lemma {:induction false} EscapeAddsOnlyQuotes(s: string, c: char)
    requires c !in QuotedQuote
    ensures c in Escape(s) ==> c in s
    decreases |s|
  {
    if s == [] {
      assert Escape(s) == [];
    } else {
      EscapeHead(s);
      EscapeAddsOnlyQuotes(s[1..], c);
      assert s == [s[0]] + s[1..];
    }
  }

  /** Escaping a concatenation escapes each part. */
  lemma {:induction false} EscapeConcat(a: string, b: string)
    ensures Escape(a + b) == Escape(a) + Escape(b)
    decreases |a|
  {
    if a != [] {
      EscapeHead(a);
      EscapeHead(a + b);
      assert (a + b)[1..] == a[1..] + b;
      EscapeConcat(a[1..], b);
    } else {
      assert a + b == b;
    }
  }

  /** The escape of a text has one character for each unquoted character and four per quote. */
  lemma {:induction false} EscapeLength(s: string)
    ensures |Escape(s)| == |s| + 3 * |Seqs.Filter(s, (c: char) => c == Quote)|
    decreases |s|
  {
    if s != [] {
      EscapeHead(s);
      EscapeLength(s[1..]);
      assert s == [s[0]] + s[1..];
      Seqs.FilterConcat([s[0]], s[1..], (c: char) => c == Quote);
    }
  }

  /** Prefix a decoded word, propagating a decoding failure. */
  function Prefix(p: string, o: Option<string>): (r: Option<string>)
    ensures r.Some? <==> o.Some?
  {
    if o.Some? then Some(p + o.value) else None
  }

  /**
   How a POSIX shell reads a word built from single-quoted runs and backslash
   escapes (section 2.2 of the POSIX Shell Command Language): inside a run
   every character but the closing quote stands for itself; outside, a quote
   opens a run and a backslash takes the next character literally. An
   unterminated run, a trailing backslash, or an unquoted character (which the
   shell might expand) is outside these words: `None`.
   */
  function Unquote(w: string, inRun: bool): (r: Option<string>)
    decreases |w|
  {
    if w == [] then (if inRun then None else Some([]))
    else if inRun then
      if w[0] == Quote then Unquote(w[1..], false) else Prefix([w[0]], Unquote(w[1..], true))
    else if w[0] == Quote then Unquote(w[1..], true)
    else if w[0] == '\\' && |w| >= 2 then Prefix([w[1]], Unquote(w[2..], false))
    else None
  }

  /** Two prefixes in a row are one. */
  lemma PrefixPrefix(a: string, b: string, o: Option<string>)
    ensures Prefix(a, Prefix(b, o)) == Prefix(a + b, o)
  {
    if o.Some? {
      assert a + (b + o.value) == (a + b) + o.value;
    }
  }

  /** Inside a run, escaped text reads back as the original, and the shell carries on after it. */
  lemma {:induction false} EscapeReadsBack(s: string, rest: string)
    ensures Unquote(Escape(s) + rest, true) == Prefix(s, Unquote(rest, true))
    decreases |s|
  {
    if s == [] {
      assert Escape(s) + rest == rest;
      if Unquote(rest, true).Some? {
        assert s + Unquote(rest, true).value == Unquote(rest, true).value;
      }
    } else {
      EscapeHead(s);
      var tail := Escape(s[1..]) + rest;
      EscapeReadsBack(s[1..], rest);
      var w := Escape(s) + rest;
      if s[0] == Quote {
        assert w == QuotedQuote + tail;
        var w1 := w[1..];
        assert w[0] == Quote && w1 == "\\''" + tail;
        assert Unquote(w, true) == Unquote(w1, false);
        assert w1[0] == '\\' && w1[1] == Quote && w1[2..] == "'" + tail;
        assert Unquote(w1, false) == Prefix([Quote], Unquote(w1[2..], false));
        assert ("'" + tail)[1..] == tail;
        assert Unquote(w1[2..], false) == Unquote(tail, true);
      } else {
        assert w == [s[0]] + tail && w[1..] == tail;
        assert Unquote(w, true) == Prefix([s[0]], Unquote(tail, true));
      }
      PrefixPrefix([s[0]], s[1..], Unquote(rest, true));
      assert [s[0]] + s[1..] == s;
    }
  }

  /** Single quoting round-trips: the shell reads `single_quote(s)` as exactly `s`. */
  lemma SingleQuoteRoundTrip(s: string)
    ensures Unquote(SingleQuote(s), false) == Some(s)
  {
    var w := SingleQuote(s);
    assert w[1..] == Escape(s) + [Quote];
    EscapeReadsBack(s, [Quote]);
    assert Unquote([Quote], true) == Some([]);
    assert s + [] == s;
  }

  /** Different texts are quoted differently. */
  lemma SingleQuoteInjective(a: string, b: string)
    requires SingleQuote(a) == SingleQuote(b)
    ensures a == b
  {
    SingleQuoteRoundTrip(a);
    SingleQuoteRoundTrip(b);
  }

  // ---------------------------------------------------------------------------
  // Launcher commands
  // ---------------------------------------------------------------------------

  /**
   The connection settings the launcher reads. The key path and port are kept
   as the text they format to.
   */
  datatype SshConfig = SshConfig(sshUser: Option<string>, sshAddr: Option<string>, sshKey: string, sshPort: string)

  /** Without both a user and an address, commands run on this machine. */
  predicate IsLocal(c: SshConfig)
  {
    c.sshUser.None? || c.sshAddr.None?
  }

  const LocalBase: string := "script -q -c "
  const ConfigBaseExpr: string := "${K_CONFIG_BASE:-~/.kapybara}"
  const Bootstrap: string := ". " + ConfigBaseExpr + "/.bashrc; "
  const NullTail: string := " /dev/null"
  /** The SSH options up to the opening quote of the key path. */
  const SshOptions: string := "-o StrictHostKeyChecking=no -o UserKnownHostsFile=/dev/null -o LogLevel=ERROR -tt -i \""

  /** `command_base`: the local `script` prefix, or an SSH prefix that ends with `user@addr `. */
  function CommandBase(c: SshConfig): (r: string)
    ensures IsLocal(c) <==> r == LocalBase
    ensures !IsLocal(c) ==> StartsWith(r, "ssh ") && EndsWith(r, c.sshUser.value + "@" + c.sshAddr.value + " ")
  {
    if IsLocal(c) then LocalBase
    else
      var tail := c.sshUser.value + "@" + c.sshAddr.value + " ";
      var target := SshOptions + c.sshKey + "\" -p " + c.sshPort + " ";
      AffixesOfConcat("ssh ", target + tail);
      AffixesOfConcat(target, tail);
      AffixesExtend(target + tail, tail, "ssh ");
      "ssh " + (target + tail)
  }

  /** The environment assignments, in order, each value single-quoted: `key='value'; `. */
  function EnvText(env: seq<(string, string)>): (r: string)
    ensures env == [] <==> r == []
  {
    if env == [] then []
    else env[0].0 + "=" + SingleQuote(env[0].1) + "; " + EnvText(env[1..])
  }

  /** The script the remote or local shell is meant to run. */
  function Script(env: seq<(string, string)>, command: string): string
  {
    Bootstrap + EnvText(env) + command
  }

  /** The quoted part of the launcher line: the bootstrap as is, then the escaped assignments and command. */
  function Payload(env: seq<(string, string)>, command: string): (r: string)
  {
    Bootstrap + Escape(EnvText(env)) + Escape(command)
  }

  /** The payload is the escape of the whole script, since the bootstrap holds no quote. */
  lemma PayloadIsEscapedScript(env: seq<(string, string)>, command: string)
    ensures Payload(env, command) == Escape(Script(env, command))
  {
    EscapeNoQuote(Bootstrap);
    EscapeConcat(Bootstrap, EnvText(env));
    EscapeConcat(Bootstrap + EnvText(env), command);
  }

  /** `command`: the base, then the payload in quotes, then `/dev/null` in local mode. */
  function Command(c: SshConfig, command: string, env: seq<(string, string)>): (r: string)
    ensures IsLocal(c) ==> StartsWith(r, LocalBase) && EndsWith(r, NullTail)
    ensures !IsLocal(c) ==> |r| >= 1 && r[|r| - 1] == Quote
  {
    var wrapped := [Quote] + Payload(env, command) + [Quote];
    if IsLocal(c) then
      AffixesOfConcat(LocalBase, wrapped);
      AffixesExtend(LocalBase + wrapped, LocalBase, NullTail);
      AffixesOfConcat(LocalBase + wrapped, NullTail);
      LocalBase + wrapped + NullTail
    else CommandBase(c) + wrapped
  }

  /**
   The launcher hands the shell one quoted word that reads back as exactly
   the bootstrap, the assignments and the command; `/dev/null` follows it
   only in local mode.
   */
  lemma CommandRoundTrip(c: SshConfig, command: string, env: seq<(string, string)>)
    ensures Command(c, command, env)
      == CommandBase(c) + SingleQuote(Script(env, command)) + (if IsLocal(c) then NullTail else [])
    ensures Unquote(SingleQuote(Script(env, command)), false) == Some(Script(env, command))
  {
    PayloadIsEscapedScript(env, command);
    SingleQuoteRoundTrip(Script(env, command));
    var q := SingleQuote(Script(env, command));
    if !IsLocal(c) {
      assert CommandBase(c) + q + [] == CommandBase(c) + q;
    }
  }
}
