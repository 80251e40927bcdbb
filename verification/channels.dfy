/**
 Hierarchical channel paths such as `telegram/chat/<id>/thread/<tid>`:
 validation, out-channel normalisation, root, prefix test and the list of
 root-to-leaf prefixes (core/src/k/agent/channels.py).
 */
module Channels {
  import opened Wrappers
  import opened PyStr

  /** The `/`-separated segments of a channel. */
  function Segments(c: string): (segs: seq<string>)
    ensures |segs| >= 1
  {
    Split(c, '/')
  }

  predicate NoEmptySegment(c: string)
  {
    forall k :: 0 <= k < |Segments(c)| ==> Segments(c)[k] != []
  }

  /** A channel as `validate_channel_path` returns it. */
  predicate IsChannel(c: string)
  {
    c != [] && Strip(c) == c && NoEmptySegment(c)
  }

  /** The same shape stated character by character: no edge slash and no `//`. */
  predicate SlashShape(c: string)
  {
    && c != []
    && c[0] != '/'
    && c[|c| - 1] != '/'
    && forall i :: 0 <= i < |c| - 1 ==> !(c[i] == '/' && c[i + 1] == '/')
  }

  /**
   `validate_channel_path`: strip surrounding whitespace, then reject an
   empty result, a leading or trailing `/`, and any empty segment.
   */
  function Validate(value: string): (r: Outcome<string>)
    ensures r.Ok? <==> Strip(value) != [] && NoEmptySegment(Strip(value))
    ensures r.Ok? ==> r.value == Strip(value)
    ensures r.Fail? ==> r.exc == ValueError
  {
    var channel := Strip(value);
    if channel == [] then Fail(ValueError)
    else if channel[0] == '/' || channel[|channel| - 1] == '/' then
      EdgeSlashMakesEmptySegment(channel);
      Fail(ValueError)
    else if !NoEmptySegment(channel) then Fail(ValueError)
    else
      StripIdempotent(value);
      Ok(channel)
  }

  /** What validation accepts is a channel. */
  lemma ValidatedIsChannel(value: string)
    requires Validate(value).Ok?
    ensures IsChannel(Validate(value).value)
  {
    StripIdempotent(value);
  }

  lemma EdgeSlashMakesEmptySegment(c: string)
    requires c != [] && (c[0] == '/' || c[|c| - 1] == '/')
    ensures !NoEmptySegment(c)
  {
    SlashShapeIffNoEmptySegment(c);
  }

  /** Validation accepts an already validated channel unchanged. */
  lemma ValidateIdempotent(value: string)
    requires Validate(value).Ok?
    ensures Validate(Validate(value).value) == Validate(value)
  {
    StripIdempotent(value);
  }

  /** "No empty segment" is exactly "non-empty, no edge slash and no `//`". */
  lemma {:induction false} SlashShapeIffNoEmptySegment(c: string)
    ensures NoEmptySegment(c) <==> SlashShape(c)
    decreases |c|
  {
    match IndexOf(c, '/')
    case None => ShapeWithoutSlash(c);
    case Some(i) =>
      SlashShapeIffNoEmptySegment(c[i + 1..]);
      ShapeAtFirstSlash(c, i);
  }

  lemma ShapeWithoutSlash(c: string)
    requires '/' !in c
    ensures NoEmptySegment(c) <==> SlashShape(c)
  {
    assert Segments(c) == [c];
    if c != [] {
      assert c[|c| - 1] in c;
      assert c[0] in c;
      forall i | 0 <= i < |c| - 1 ensures !(c[i] == '/' && c[i + 1] == '/') { assert c[i] in c; }
      assert SlashShape(c);
      assert Segments(c)[0] != [];
      assert NoEmptySegment(c);
    } else {
      assert Segments(c)[0] == [];
    }
  }

  lemma ShapeAtFirstSlash(c: string, i: nat)
    requires IndexOf(c, '/') == Some(i)
    requires NoEmptySegment(c[i + 1..]) <==> SlashShape(c[i + 1..])
    ensures NoEmptySegment(c) <==> SlashShape(c)
  {
    var t := c[i + 1..];
    assert Segments(c) == [c[..i]] + Segments(t);
    assert NoEmptySegment(c) <==> (i > 0 && NoEmptySegment(t)) by {
      assert Segments(c)[0] == c[..i];
      forall k | 0 <= k < |Segments(t)| ensures Segments(c)[k + 1] == Segments(t)[k] {}
    }
    if SlashShape(c) {
      ForwardShape(c, i);
    }
    if i > 0 && SlashShape(t) {
      BackwardShape(c, i);
    }
  }

  lemma ForwardShape(c: string, i: nat)
    requires IndexOf(c, '/') == Some(i) && SlashShape(c)
    ensures i > 0 && SlashShape(c[i + 1..])
  {
    var t := c[i + 1..];
    assert t != [];
    assert t[0] == c[i + 1];
    assert t[|t| - 1] == c[|c| - 1];
    forall j | 0 <= j < |t| - 1 ensures !(t[j] == '/' && t[j + 1] == '/') {
      assert t[j] == c[i + 1 + j] && t[j + 1] == c[i + 1 + j + 1];
    }
  }

  lemma BackwardShape(c: string, i: nat)
    requires IndexOf(c, '/') == Some(i) && i > 0 && SlashShape(c[i + 1..])
    ensures SlashShape(c)
  {
    var t := c[i + 1..];
    assert c[0] == c[..i][0];
    assert c[|c| - 1] == t[|t| - 1];
    forall j | 0 <= j < |c| - 1 ensures !(c[j] == '/' && c[j + 1] == '/') {
      if j < i {
        assert c[j] == c[..i][j];
      } else if j == i {
        assert c[j + 1] == t[0];
      } else {
        assert c[j] == t[j - i - 1] && c[j + 1] == t[j - i];
      }
    }
  }

  /** A slash-shaped string with no whitespace at either end is a channel. */
  lemma ChannelFromShape(c: string)
    requires SlashShape(c) && !IsSpace(c[0]) && !IsSpace(c[|c| - 1])
    ensures IsChannel(c) && Validate(c) == Ok(c)
  {
    assert LStrip(c) == c;
    assert RStrip(c) == c;
    SlashShapeIffNoEmptySegment(c);
  }

  /**
   The channel fields of a record or event: `in_channel` validated, a
   non-null `out_channel` validated, and an out-channel equal to the
   in-channel stored as None. Either failure is a ValueError.
   */
  function ValidatePair(inChannel: string, outChannel: Option<string>): (r: Outcome<(string, Option<string>)>)
    ensures r.Ok? <==> Validate(inChannel).Ok? && (outChannel.Some? ==> Validate(outChannel.value).Ok?)
    ensures r.Fail? ==> r.exc == ValueError
    ensures r.Ok? ==> IsChannel(r.value.0) && r.value.0 == Strip(inChannel)
    ensures r.Ok? ==> (r.value.1.None? <==> outChannel.None? || Strip(outChannel.value) == Strip(inChannel))
    ensures r.Ok? && r.value.1.Some? ==>
      IsChannel(r.value.1.value) && r.value.1.value == Strip(outChannel.value) && r.value.1.value != r.value.0
  {
    match Validate(inChannel)
    case Fail(_) => Fail(ValueError)
    case Ok(inC) =>
      ValidatedIsChannel(inChannel);
      if outChannel.None? then Ok((inC, None))
      else
        match Validate(outChannel.value)
        case Fail(_) => Fail(ValueError)
        case Ok(outC) =>
          ValidatedIsChannel(outChannel.value);
          Ok((inC, NormalizeOut(inC, Some(outC))))
  }

  /** A channel validates to itself. */
  lemma ChannelValidatesToItself(c: string)
    requires IsChannel(c)
    ensures Validate(c) == Ok(c)
  {
  }

  /** Channel fields that are already validated and normalised pass through unchanged. */
  lemma ValidatePairOfChannels(inChannel: string, outChannel: Option<string>)
    requires IsChannel(inChannel)
    requires outChannel.Some? ==> IsChannel(outChannel.value) && outChannel.value != inChannel
    ensures ValidatePair(inChannel, outChannel) == Ok((inChannel, outChannel))
  {
    assert Validate(inChannel) == Ok(inChannel);
    if outChannel.Some? {
      assert Validate(outChannel.value) == Ok(outChannel.value);
    }
  }

  /** `normalize_out_channel`: an out-channel equal to the in-channel is stored as None. */
  function NormalizeOut(inChannel: string, outChannel: Option<string>): (r: Option<string>)
    ensures r.Some? ==> r == outChannel && r.value != inChannel
    ensures r.None? ==> outChannel.None? || outChannel.value == inChannel
  {
    if outChannel.None? then None
    else if outChannel.value == inChannel then None
    else outChannel
  }

  /** `effective_out_channel`: `out_channel or in_channel`, so an empty string also falls back. */
  function EffectiveOut(inChannel: string, outChannel: Option<string>): (r: string)
    ensures r == inChannel || (outChannel.Some? && r == outChannel.value && r != [])
    ensures outChannel.Some? && outChannel.value != [] ==> r == outChannel.value
  {
    if outChannel.Some? && outChannel.value != [] then outChannel.value else inChannel
  }

  /** Normalising the out-channel first never changes the effective channel. */
  lemma NormalizePreservesEffective(inChannel: string, outChannel: Option<string>)
    ensures EffectiveOut(inChannel, NormalizeOut(inChannel, outChannel)) == EffectiveOut(inChannel, outChannel)
  {
  }

  lemma NormalizeIdempotent(inChannel: string, outChannel: Option<string>)
    ensures NormalizeOut(inChannel, NormalizeOut(inChannel, outChannel)) == NormalizeOut(inChannel, outChannel)
  {
  }

  /** `channel_root`: the text before the first `/`, or the whole channel. */
  function Root(c: string): (r: string)
    ensures '/' !in r
    ensures StartsWith(c, r)
    ensures r == c || c[|r|] == '/'
  {
    match IndexOf(c, '/')
    case None => c
    case Some(i) => c[..i]
  }

  lemma RootIsFirstSegment(c: string)
    ensures Root(c) == Segments(c)[0]
  {
  }

  /** Every channel lies below its root. */
  lemma RootIsAncestor(c: string)
    ensures HasPrefix(c, Root(c))
  {
    var r := Root(c);
    if r != c {
      assert c[..|r| + 1] == r + "/";
    }
  }

  /** `channel_has_prefix`: equal, or in the subtree below `prefix`. */
  predicate HasPrefix(c: string, prefix: string)
  {
    c == prefix || StartsWith(c, prefix + "/")
  }

  predicate IsSeqPrefix(a: seq<string>, b: seq<string>)
  {
    |a| <= |b| && b[..|a|] == a
  }

  /** The textual prefix test is the segment-wise prefix test. */
  lemma {:induction false} HasPrefixIffSegmentPrefix(c: string, p: string)
    ensures HasPrefix(c, p) <==> IsSeqPrefix(Segments(p), Segments(c))
  {
    var sp, sc := Segments(p), Segments(c);
    if c == p {
    } else if StartsWith(c, p + "/") {
      var rest := c[|p| + 1..];
      assert c == p + ['/'] + rest;
      SplitAppend(p, rest, '/');
      assert sc == sp + Segments(rest);
      assert sc[..|sp|] == sp;
    }
    if IsSeqPrefix(sp, sc) {
      JoinSplit(p, '/');
      JoinSplit(c, '/');
      if |sp| == |sc| {
        assert sc[..|sp|] == sc;
      } else {
        assert sc == sp + sc[|sp|..];
        JoinAppend(sp, sc[|sp|..], "/");
        assert c == p + "/" + Join(sc[|sp|..], "/");
        assert c[..|p + "/"|] == p + "/";
      }
    }
  }

  /** "telegram/chat/1" is not a prefix of "telegram/chat/12". */
  lemma PrefixIsSegmentExact()
    ensures !HasPrefix("telegram/chat/12", "telegram/chat/1")
    ensures HasPrefix("telegram/chat/1/thread/2", "telegram/chat/1")
  {
    var c := "telegram/chat/12";
    assert c[15] == '2';
    assert ("telegram/chat/1" + "/")[15] == '/';
  }

  lemma HasPrefixReflexive(c: string)
    ensures HasPrefix(c, c)
  {
  }

  lemma HasPrefixTransitive(a: string, b: string, c: string)
    requires HasPrefix(a, b) && HasPrefix(b, c)
    ensures HasPrefix(a, c)
  {
    HasPrefixIffSegmentPrefix(a, b);
    HasPrefixIffSegmentPrefix(b, c);
    HasPrefixIffSegmentPrefix(a, c);
    var sa, sb, sc := Segments(a), Segments(b), Segments(c);
    assert sa[..|sc|] == sb[..|sc|];
  }

  /** `iter_channel_prefixes`: `"/".join(parts[:i])` for i = 1 .. number of segments. */
  function Prefixes(c: string): (ps: seq<string>)
    ensures |ps| == |Segments(c)|
    ensures ps[|ps| - 1] == c
    ensures ps[0] == Root(c)
  {
    var parts := Segments(c);
    var ps := seq(|parts|, i requires 0 <= i < |parts| => Join(parts[..i + 1], "/"));
    assert ps[|ps| - 1] == c by {
      assert parts[..|parts|] == parts;
      JoinSplit(c, '/');
    }
    assert ps[0] == Root(c) by {
      assert parts[..1] == [parts[0]];
      RootIsFirstSegment(c);
    }
    ps
  }

  lemma PrefixesChain(c: string, i: nat)
    requires i + 1 < |Prefixes(c)|
    ensures HasPrefix(Prefixes(c)[i + 1], Prefixes(c)[i])
    ensures |Prefixes(c)[i]| < |Prefixes(c)[i + 1]|
  {
    var parts := Segments(c);
    assert parts[..i + 2] == parts[..i + 1] + [parts[i + 1]];
    JoinAppend(parts[..i + 1], [parts[i + 1]], "/");
  }

  /** Every prefix of a string's segment list joins back to a prefix of it. */
  lemma {:induction false} SegmentsOfJoinedPrefix(c: string, m: nat)
    requires 1 <= m <= |Segments(c)|
    ensures Segments(Join(Segments(c)[..m], "/")) == Segments(c)[..m]
  {
    var parts := Segments(c);
    forall k | 0 <= k < m ensures '/' !in parts[..m][k] {}
    SplitJoin(parts[..m], '/');
  }

  /** The prefixes are exactly the strings `c` has as a prefix. */
  lemma PrefixesAreExactlyTheAncestors(c: string, p: string)
    ensures p in Prefixes(c) <==> HasPrefix(c, p)
  {
    if p in Prefixes(c) {
      var i :| 0 <= i < |Prefixes(c)| && Prefixes(c)[i] == p;
      ListedPrefixIsAncestor(c, i);
    }
    if HasPrefix(c, p) {
      AncestorIsListed(c, p);
    }
  }

  lemma ListedPrefixIsAncestor(c: string, i: nat)
    requires i < |Prefixes(c)|
    ensures HasPrefix(c, Prefixes(c)[i])
  {
    var parts := Segments(c);
    var p := Prefixes(c)[i];
    assert p == Join(parts[..i + 1], "/");
    SegmentsOfJoinedPrefix(c, i + 1);
    assert IsSeqPrefix(Segments(p), parts);
    HasPrefixIffSegmentPrefix(c, p);
  }

  lemma AncestorIsListed(c: string, p: string)
    requires HasPrefix(c, p)
    ensures p in Prefixes(c)
  {
    var parts := Segments(c);
    HasPrefixIffSegmentPrefix(c, p);
    var m := |Segments(p)|;
    assert Segments(p) == parts[..m];
    JoinSplit(p, '/');
    assert p == Join(parts[..m], "/");
    assert Prefixes(c)[m - 1] == p;
  }

  /** Every prefix of a validated channel is non-empty with no empty segment. */
  lemma PrefixesHaveNoEmptySegment(c: string, i: nat)
    requires IsChannel(c) && i < |Prefixes(c)|
    ensures Prefixes(c)[i] != [] && NoEmptySegment(Prefixes(c)[i])
  {
    var parts := Segments(c);
    var p := Prefixes(c)[i];
    assert p == Join(parts[..i + 1], "/");
    assert Segments(p) == parts[..i + 1] by {
      SegmentsOfJoinedPrefix(c, i + 1);
    }
    assert NoEmptySegment(p);
    assert Segments(p)[0] == parts[0] != [];
  }
}
