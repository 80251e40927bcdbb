/**
 The system-prompt chunks the agent assembles from the file system
 (core/src/k/agent/core/agent.py): the persona override, the channel
 preference files looked up along the root-to-leaf prefixes of the input
 channel, and the channel-specific skills. File reads are parameters: each
 path maps to the outcome of reading it.
 */
module AgentPrompt {
  import opened Wrappers
  import opened PyStr
  import Seqs
  import Channels
  import Events

  /** Reading a text file: its contents, no such file, or another OS error. */
  datatype FileRead = Contents(text: string) | Missing | Unreadable

  // ---------------------------------------------------------------------------
  // Persona
  // ---------------------------------------------------------------------------

  /**
   `_read_persona_override`: the stripped PERSONA.md; only when that file is
   missing, the stripped PERSONA.default.md; any other failure gives no
   override (the empty string).
   */
  function PersonaOverride(persona: FileRead, fallback: FileRead): (r: string)
    ensures Strip(r) == r
    ensures r != [] ==> (persona.Contents? && r == Strip(persona.text))
                        || (persona.Missing? && fallback.Contents? && r == Strip(fallback.text))
    ensures persona.Contents? && !AllSpace(persona.text) ==> r != []
  {
    match persona
    case Contents(text) =>
      StripIdempotent(text);
      StripEmptyIffAllSpace(text);
      Strip(text)
    case Unreadable => []
    case Missing =>
      match fallback
      case Contents(text) =>
        StripIdempotent(text);
        Strip(text)
      case _ => []
  }

  /**
   A PERSONA.md that exists but is blank gives no override, whatever the
   default file holds: the fallback is taken only for a missing file.
   */
  lemma BlankPersonaHidesDefault(text: string, fallback: FileRead)
    requires AllSpace(text)
    ensures PersonaOverride(Contents(text), fallback) == []
  {
    StripEmptyIffAllSpace(text);
  }

  /** With PERSONA.md missing, a non-blank default file is the override. */
  lemma MissingPersonaUsesDefault(text: string)
    requires !AllSpace(text)
    ensures PersonaOverride(Missing, Contents(text)) == Strip(text) != []
  {
    StripEmptyIffAllSpace(text);
  }

  // ---------------------------------------------------------------------------
  // Channel preference candidates
  // ---------------------------------------------------------------------------

  /** The preference directory below the home directory. */
  const PreferencesDir: string := "/.kapybara/preferences"

  function PreferencesRoot(home: string): string
  {
    home + PreferencesDir
  }

  /** `<root>/<prefix>.md`. */
  function PrefixFile(root: string, prefix: string): string
  {
    root + "/" + prefix + ".md"
  }

  /** `<root>/<prefix>/PREFERENCES.md`. */
  function PrefixDirFile(root: string, prefix: string): string
  {
    root + "/" + prefix + "/PREFERENCES.md"
  }

  /** The two files of each prefix, prefix by prefix. */
  function CandidatesOf(root: string, ps: seq<string>): (r: seq<string>)
    ensures |r| == 2 * |ps|
    ensures forall i :: 0 <= i < |ps| ==> r[2 * i] == PrefixFile(root, ps[i]) && r[2 * i + 1] == PrefixDirFile(root, ps[i])
    decreases |ps|
  {
    if ps == [] then []
    else
      var rest := CandidatesOf(root, ps[1..]);
      var r := [PrefixFile(root, ps[0]), PrefixDirFile(root, ps[0])] + rest;
      assert forall i :: 1 <= i < |ps| ==> r[2 * i] == rest[2 * (i - 1)] && ps[i] == ps[1..][i - 1];
      r
  }

  /**
   `_channel_preference_candidates`: for each prefix of the input channel,
   from the root to the channel itself, `<prefix>.md` and then
   `<prefix>/PREFERENCES.md`.
   */
  function PreferenceCandidates(home: string, inChannel: string): (r: seq<string>)
    ensures |r| == 2 * |Channels.Segments(inChannel)|
    ensures forall i :: 0 <= i < |Channels.Prefixes(inChannel)| ==>
      r[2 * i] == PrefixFile(PreferencesRoot(home), Channels.Prefixes(inChannel)[i])
      && r[2 * i + 1] == PrefixDirFile(PreferencesRoot(home), Channels.Prefixes(inChannel)[i])
  {
    CandidatesOf(PreferencesRoot(home), Channels.Prefixes(inChannel))
  }

  /**
   The candidates are the files of exactly the channel's ancestors: each
   candidate belongs to a prefix the channel has, and each such prefix
   contributes both of its files, the `.md` file immediately first.
   */
  lemma CandidatesAreAncestorFiles(home: string, c: string, p: string)
    ensures Channels.HasPrefix(c, p) <==>
      exists i :: 0 <= i < |Channels.Prefixes(c)| && Channels.Prefixes(c)[i] == p
    ensures Channels.HasPrefix(c, p) ==>
      exists i :: 0 <= i < |Channels.Prefixes(c)|
                  && PreferenceCandidates(home, c)[2 * i] == PrefixFile(PreferencesRoot(home), p)
                  && PreferenceCandidates(home, c)[2 * i + 1] == PrefixDirFile(PreferencesRoot(home), p)
  {
    Channels.PrefixesAreExactlyTheAncestors(c, p);
    if Channels.HasPrefix(c, p) {
      var i :| 0 <= i < |Channels.Prefixes(c)| && Channels.Prefixes(c)[i] == p;
      assert PreferenceCandidates(home, c)[2 * i] == PrefixFile(PreferencesRoot(home), p);
    }
  }

  /** Candidates are ordered from the root to the leaf: an earlier prefix is an ancestor of a later one. */
  lemma {:induction false} CandidatesRootToLeaf(c: string, i: nat, j: nat)
    requires i < j < |Channels.Prefixes(c)|
    ensures Channels.HasPrefix(Channels.Prefixes(c)[j], Channels.Prefixes(c)[i])
    ensures |Channels.Prefixes(c)[i]| < |Channels.Prefixes(c)[j]|
    decreases j - i
  {
    var ps := Channels.Prefixes(c);
    Channels.PrefixesChain(c, j - 1);
    if i < j - 1 {
      CandidatesRootToLeaf(c, i, j - 1);
      Channels.HasPrefixTransitive(ps[j], ps[j - 1], ps[i]);
    }
  }

  // ---------------------------------------------------------------------------
  // Preference prompt
  // ---------------------------------------------------------------------------

  /** A candidate contributes when it exists, reads, and is not blank. */
  predicate Loads(f: FileRead)
  {
    f.Contents? && !AllSpace(f.text)
  }

  /** One file's section: `"\n".join(["Path: <path>", text, "---"])`. */
  function Block(path: string, text: string): (r: string)
    ensures EndsWith(r, "---")
  {
    AffixesOfConcat("Path: " + path + "\n" + text + "\n", "---");
    "Path: " + path + "\n" + text + "\n---"
  }

  /** The sections of the candidates that load, in candidate order, each with the stripped text. */
  function Blocks(paths: seq<string>, read: string -> FileRead): (bs: seq<string>)
    ensures |bs| <= |paths|
    ensures bs == [] <==> forall i :: 0 <= i < |paths| ==> !Loads(read(paths[i]))
    ensures forall k :: 0 <= k < |bs| ==> EndsWith(bs[k], "---")
    decreases |paths|
  {
    if paths == [] then []
    else
      var init := paths[..|paths| - 1];
      var last := paths[|paths| - 1];
      var bs := Blocks(init, read);
      assert forall i :: 0 <= i < |init| ==> init[i] == paths[i];
      if Loads(read(last)) then bs + [Block(last, Strip(read(last).text))] else bs
  }

  /**
   The sections are exactly those of the loading candidates, in order: the
   candidates that load, filtered, with one section each.
   */
  lemma {:induction false} BlocksAreLoadedFiles(paths: seq<string>, read: string -> FileRead)
    ensures var loaded := Seqs.Filter(paths, (p: string) => Loads(read(p)));
      |Blocks(paths, read)| == |loaded|
      && forall k :: 0 <= k < |loaded| ==> Blocks(paths, read)[k] == Block(loaded[k], Strip(read(loaded[k]).text))
    decreases |paths|
  {
    if paths != [] {
      BlocksAreLoadedFiles(paths[..|paths| - 1], read);
    }
  }

  const PreferencesOpen: string := "<Preferences>\n"
  const PreferencesClose: string := "\n</Preferences>"

  /**
   `_load_preferences_prompt`: nothing when no candidate loads; otherwise the
   sections joined by newlines, right-stripped, inside `<Preferences>`.
   */
  function LoadPreferences(home: string, inChannel: string, read: string -> FileRead): (r: string)
    ensures var cands := PreferenceCandidates(home, inChannel);
      r == [] <==> forall i :: 0 <= i < |cands| ==> !Loads(read(cands[i]))
    ensures r != [] ==> StartsWith(r, PreferencesOpen) && EndsWith(r, PreferencesClose)
  {
    var bs := Blocks(PreferenceCandidates(home, inChannel), read);
    if bs == [] then []
    else
      var body := PreferencesOpen + RStrip(Join(bs, "\n"));
      AffixesOfConcat(body, PreferencesClose);
      AffixesOfConcat(PreferencesOpen, RStrip(Join(bs, "\n")));
      AffixesExtend(body, PreferencesOpen, PreferencesClose);
      body + PreferencesClose
  }

  /** A join ends with its last part. */
  lemma {:induction false} JoinEndsWithLast(parts: seq<string>, sep: string)
    requires |parts| >= 1
    ensures EndsWith(Join(parts, sep), parts[|parts| - 1])
    decreases |parts|
  {
    if |parts| >= 2 {
      JoinEndsWithLast(parts[1..], sep);
      AffixesExtend(Join(parts[1..], sep), parts[|parts| - 1], parts[0] + sep);
      assert Join(parts, sep) == parts[0] + sep + Join(parts[1..], sep);
    }
  }

  /** The right-strip removes nothing: every section ends with `---`, so the prompt holds every section whole. */
  lemma PreferencesHoldEverySection(home: string, inChannel: string, read: string -> FileRead)
    requires LoadPreferences(home, inChannel, read) != []
    ensures var bs := Blocks(PreferenceCandidates(home, inChannel), read);
      LoadPreferences(home, inChannel, read) == PreferencesOpen + Join(bs, "\n") + PreferencesClose
  {
    var bs := Blocks(PreferenceCandidates(home, inChannel), read);
    JoinEndsWithLast(bs, "\n");
    EndsWithDashKept(Join(bs, "\n"), bs[|bs| - 1]);
  }

  /** Text ending with a section's `---` is not shortened by a right-strip. */
  lemma EndsWithDashKept(j: string, last: string)
    requires EndsWith(j, last) && EndsWith(last, "---")
    ensures RStrip(j) == j
  {
    assert j[|j| - 1] == last[|last| - 1] == '-';
  }

  // ---------------------------------------------------------------------------
  // Channel skills
  // ---------------------------------------------------------------------------

  const ContextGroup: string := "context"
  const MessagerGroup: string := "messager"

  function BasicSkills(skillsMd: string): string
  {
    "<BasicSkills>" + skillsMd + "</BasicSkills>"
  }

  /** No chunk, or one that is only whitespace. */
  predicate Blank(chunk: Option<string>)
  {
    chunk.None? || AllSpace(chunk.value)
  }

  /** The chunks that were found, in order. */
  function Present(chunks: seq<Option<string>>): (r: seq<string>)
    ensures |r| <= |chunks|
    ensures forall x :: x in r <==> Some(x) in chunks
    decreases |chunks|
  {
    if chunks == [] then []
    else
      var rest := Present(chunks[1..]);
      assert forall o :: o in chunks <==> o == chunks[0] || o in chunks[1..];
      if chunks[0].Some? then [chunks[0].value] + rest else rest
  }

  /** A newline join is blank exactly when every part is. */
  lemma {:induction false} JoinAllSpace(parts: seq<string>)
    ensures AllSpace(Join(parts, "\n")) <==> forall k :: 0 <= k < |parts| ==> AllSpace(parts[k])
    decreases |parts|
  {
    if |parts| >= 2 {
      JoinAllSpace(parts[1..]);
      var j := Join(parts, "\n");
      var a := parts[0];
      var t := Join(parts[1..], "\n");
      assert j == a + "\n" + t;
      assert AllSpace(j) ==> AllSpace(a) && AllSpace(t) by {
        if AllSpace(j) {
          forall i | 0 <= i < |a| ensures IsSpace(a[i]) { assert a[i] == j[i]; }
          forall i | 0 <= i < |t| ensures IsSpace(t[i]) { assert t[i] == j[|a| + 1 + i]; }
        }
      }
      assert forall k :: 1 <= k < |parts| ==> parts[k] == parts[1..][k - 1];
    }
  }

  /** Right-stripping leaves nothing exactly when the text is blank. */
  lemma RStripEmptyIffAllSpace(s: string)
    ensures RStrip(s) == [] <==> AllSpace(s)
  {
    if RStrip(s) == [] {
      assert s[0..] == s;
    }
  }

  /** `"\n".join` of the found chunks, right-stripped. */
  function ChannelMd(contextChunk: Option<string>, messagerChunk: Option<string>): (r: string)
    ensures r == [] <==> Blank(contextChunk) && Blank(messagerChunk)
  {
    var parts := Present([contextChunk, messagerChunk]);
    JoinAllSpace(parts);
    RStripEmptyIffAllSpace(Join(parts, "\n"));
    assert forall k :: 0 <= k < |parts| ==> Some(parts[k]) in [contextChunk, messagerChunk];
    assert contextChunk.Some? ==> contextChunk.value in parts;
    assert messagerChunk.Some? ==> messagerChunk.value in parts;
    RStrip(Join(parts, "\n"))
  }

  /**
   `concat_skills_prompt`: the basic skills, then a `<ChannelSkills>` section
   only when the context skill of the input channel or the messager skill of
   the effective output channel supplies some text. `load(group, channel)` is
   the skill loader.
   */
  function ConcatSkillsPrompt(skillsMd: string, e: Events.Event, load: (string, string) -> Option<string>): (r: string)
    ensures StartsWith(r, BasicSkills(skillsMd))
    ensures r == BasicSkills(skillsMd) <==>
      Blank(load(ContextGroup, e.inChannel)) && Blank(load(MessagerGroup, Events.EventEffectiveOut(e)))
    ensures r != BasicSkills(skillsMd) ==> EndsWith(r, "\n</ChannelSkills>")
  {
    var md := ChannelMd(load(ContextGroup, e.inChannel), load(MessagerGroup, Events.EventEffectiveOut(e)));
    var basic := BasicSkills(skillsMd);
    if md != [] then
      var head := basic + "\n<ChannelSkills>" + md;
      AffixesOfConcat(basic, "\n<ChannelSkills>" + md + "\n</ChannelSkills>");
      assert basic + "\n<ChannelSkills>" + md + "\n</ChannelSkills>" == head + "\n</ChannelSkills>";
      AffixesOfConcat(head, "\n</ChannelSkills>");
      head + "\n</ChannelSkills>"
    else basic
  }

  /** Right-stripping a concatenation only touches its second part, when that part is not blank. */
  lemma {:induction false} RStripConcat(a: string, b: string)
    requires !AllSpace(b)
    ensures RStrip(a + b) == a + RStrip(b)
    decreases |b|
  {
    assert b != [];
    if IsSpace(b[|b| - 1]) {
      var b' := b[..|b| - 1];
      assert !AllSpace(b') by {
        var i :| 0 <= i < |b| && !IsSpace(b[i]);
        assert b'[i] == b[i];
      }
      assert (a + b)[..|a + b| - 1] == a + b';
      RStripConcat(a, b');
    }
  }

  /**
   When both skills are found and the messager skill is not blank, the
   context skill appears whole, then the messager skill right-stripped.
   */
  lemma ChannelSkillsHoldBothChunks(skillsMd: string, e: Events.Event, load: (string, string) -> Option<string>)
    requires load(ContextGroup, e.inChannel).Some?
    requires load(MessagerGroup, Events.EventEffectiveOut(e)).Some?
    requires !AllSpace(load(MessagerGroup, Events.EventEffectiveOut(e)).value)
    ensures var ctx := load(ContextGroup, e.inChannel).value;
      var msg := load(MessagerGroup, Events.EventEffectiveOut(e)).value;
      ConcatSkillsPrompt(skillsMd, e, load)
        == BasicSkills(skillsMd) + "\n<ChannelSkills>" + ctx + "\n" + RStrip(msg) + "\n</ChannelSkills>"
  {
    ChannelMdOfBoth(load(ContextGroup, e.inChannel).value, load(MessagerGroup, Events.EventEffectiveOut(e)).value);
  }

  lemma ChannelMdOfBoth(ctx: string, msg: string)
    requires !AllSpace(msg)
    ensures ChannelMd(Some(ctx), Some(msg)) == ctx + "\n" + RStrip(msg)
  {
    var parts := Present([Some(ctx), Some(msg)]);
    assert parts == [ctx, msg];
    assert Join(parts, "\n") == ctx + "\n" + msg;
    RStripConcat(ctx + "\n", msg);
  }
}
