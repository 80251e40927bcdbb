/**
 The text-tool call parser of the text-tool agent: a model reply is either a
 JSON head followed by a free-text argument between two markers, or a single
 JSON object. JSON decoding itself is a parameter: `loads` stands for
 `json.loads` on a whole string and `rawDecode` for
 `JSONDecoder.raw_decode`, which decodes the leading value and ignores what
 follows it; `None` stands for a `JSONDecodeError`.
 */
module TextTool {
  import opened Wrappers
  import opened PyStr
  import opened Json

  const TextArgStart: string := "$TextArgStart$"
  const TextArgEnd: string := "$TextArgEnd$"

  /** The tool call handed on to the tool manager. */
  datatype ToolCall = ToolCall(toolName: string, args: Json)

  /** Why the reply is sent back to the model (`ModelRetry`). */
  datatype RetryReason =
    | MissingStartMarker
    | MissingEndMarker
    | BadJson
    | NotAnObject
    | MissingToolName
    | ToolNameNotString
    | ArgumentsNotObject

  /**
   The parser's outcome: a call, a retry request, or the `ValueError` raised
   when no end marker follows the first start marker.
   */
  datatype Parsed =
    | Call(call: ToolCall)
    | Retry(reason: RetryReason)
    | EndMarkerMisplaced
  {
    /** The exception the parser raises, if any. */
    function Raised(): Option<Exc>
    {
      match this
      case Call(_) => None
      case Retry(_) => Some(ModelRetry)
      case EndMarkerMisplaced => Some(ValueError)
    }
  }

  /** `s.split(sep, 1)`: the text before the first `sep` and the text after it. */
  function SplitOnce(s: string, sep: string): (r: Option<(string, string)>)
    requires sep != []
    ensures r.None? <==> !Contains(s, sep)
    ensures r.Some? ==> s == r.value.0 + sep + r.value.1
    ensures r.Some? ==> OccursAt(s, sep, |r.value.0|)
    ensures r.Some? ==> forall j :: 0 <= j < |r.value.0| ==> !OccursAt(s, sep, j)
  {
    FindSomeIffContains(s, sep);
    match Find(s, sep, 0)
    case None => None
    case Some(i) =>
      assert s == s[..i] + sep + s[i + |sep|..];
      Some((s[..i], s[i + |sep|..]))
  }

  /** The `tool_name` and `arguments` checks shared by both reply formats. */
  function CallFields(obj: Json): (r: Parsed)
    requires obj.JObj?
    ensures r.Call? || r.Retry?
    ensures r.Retry? ==> r.reason in {MissingToolName, ToolNameNotString, ArgumentsNotObject}
    ensures r == Retry(MissingToolName) <==> GetOrNull(obj, "tool_name") == JNull
    ensures r == Retry(ToolNameNotString) <==> !GetOrNull(obj, "tool_name").JNull? && !GetOrNull(obj, "tool_name").JStr?
    ensures r.Call? ==> Get(obj, "tool_name") == Some(JStr(r.call.toolName))
    ensures r.Call? ==> r.call.args.JObj?
    ensures r.Call? && !Truthy(GetOrNull(obj, "arguments")) ==> r.call.args == JObj([])
    ensures r.Call? && Truthy(GetOrNull(obj, "arguments")) ==> Get(obj, "arguments") == Some(r.call.args)
  {
    var name := GetOrNull(obj, "tool_name");
    if name == JNull then Retry(MissingToolName)
    else if !name.JStr? then Retry(ToolNameNotString)
    else
      var arguments := GetOrNull(obj, "arguments");
      var a := if Truthy(arguments) then arguments else JObj([]);
      if !a.JObj? then Retry(ArgumentsNotObject)
      else Call(ToolCall(name.s, a))
  }

  /** A decoded value that must be an object before its fields are checked. */
  function FromDecoded(decoded: Option<Json>): (r: Parsed)
    ensures r.Call? || r.Retry?
    ensures r == Retry(BadJson) <==> decoded.None?
    ensures r == Retry(NotAnObject) <==> decoded.Some? && !decoded.value.JObj?
    ensures r.Call? ==> decoded.Some? && decoded.value.JObj?
  {
    match decoded
    case None => Retry(BadJson)
    case Some(v) => if v.JObj? then CallFields(v) else Retry(NotAnObject)
  }

  /** Where the text argument begins: just past the first start marker. */
  function TextBegin(stripped: string): (p: nat)
    requires Contains(stripped, TextArgStart)
    ensures |TextArgStart| <= p <= |stripped|
    ensures OccursAt(stripped, TextArgStart, p - |TextArgStart|)
    ensures forall j :: 0 <= j < p - |TextArgStart| ==> !OccursAt(stripped, TextArgStart, j)
  {
    FindSomeIffContains(stripped, TextArgStart);
    Find(stripped, TextArgStart, 0).value + |TextArgStart|
  }

  /**
   The marker format, once both markers are known to be present: the JSON
   head is what precedes the first start marker, the text argument runs to
   the first end marker after it, and it overrides any `text` argument of
   the head.
   */
  function MarkedReply(stripped: string, loads: string -> Option<Json>): (r: Parsed)
    requires Contains(stripped, TextArgStart)
    ensures r.Call? ==> r.call.args.JObj?
    ensures r != Retry(MissingStartMarker) && r != Retry(MissingEndMarker)
  {
    var (jsonPart, afterStart) := SplitOnce(stripped, TextArgStart).value;
    match SplitOnce(afterStart, TextArgEnd)
    case None => EndMarkerMisplaced
    case Some((textPart, _)) =>
      match FromDecoded(loads(Strip(jsonPart)))
      case Call(c) => Call(ToolCall(c.toolName, Set(c.args, "text", JStr(Strip(textPart)))))
      case other => other
  }

  /** The JSON head and the text argument of a reply with a start marker, cut as `split` cuts. */
  lemma MarkedPieces(stripped: string)
    requires Contains(stripped, TextArgStart)
    ensures SplitOnce(stripped, TextArgStart).value.0 == stripped[..TextBegin(stripped) - |TextArgStart|]
    ensures SplitOnce(stripped, TextArgStart).value.1 == stripped[TextBegin(stripped)..]
    ensures SplitOnce(stripped[TextBegin(stripped)..], TextArgEnd).None?
            <==> Find(stripped, TextArgEnd, TextBegin(stripped)).None?
    ensures SplitOnce(stripped[TextBegin(stripped)..], TextArgEnd).Some? ==>
              SplitOnce(stripped[TextBegin(stripped)..], TextArgEnd).value.0
              == stripped[TextBegin(stripped)..Find(stripped, TextArgEnd, TextBegin(stripped)).value]
  {
    FindSomeIffContains(stripped, TextArgStart);
    var p := SplitPieces(stripped, TextArgStart, TextArgEnd);
  }

  /** `MarkedPieces` for any two separators: cutting at the first `left`, then at the first `right` after it. */
  lemma SplitPieces(s: string, left: string, right: string) returns (p: nat)
    requires left != [] && right != [] && Find(s, left, 0).Some?
    ensures p == Find(s, left, 0).value + |left| && |left| <= p <= |s|
    ensures SplitOnce(s, left).Some?
    ensures SplitOnce(s, left).value.0 == s[..p - |left|] && SplitOnce(s, left).value.1 == s[p..]
    ensures SplitOnce(s[p..], right).None? <==> Find(s, right, p).None?
    ensures SplitOnce(s[p..], right).Some? ==> SplitOnce(s[p..], right).value.0 == s[p..Find(s, right, p).value]
  {
    FindSomeIffContains(s, left);
    var (jsonPart, afterStart) := SplitOnce(s, left).value;
    p := Find(s, left, 0).value + |left|;
    FindSplit(s, left);
    assert |jsonPart| == p - |left|;
    assert afterStart == s[p..];
    FindShift(s, right, p);
    FindSomeIffContains(afterStart, right);
    if SplitOnce(afterStart, right).Some? {
      FindSplit(afterStart, right);
    }
  }

  /**
   The marker format read by positions: the reply fails with `ValueError`
   exactly when no end marker follows the first start marker, and a retry
   comes from the JSON head before that start marker.
   */
  lemma MarkedReplyFailures(stripped: string, loads: string -> Option<Json>)
    requires Contains(stripped, TextArgStart)
    ensures MarkedReply(stripped, loads) == EndMarkerMisplaced
            <==> Find(stripped, TextArgEnd, TextBegin(stripped)).None?
    ensures MarkedReply(stripped, loads).Retry? ==>
              MarkedReply(stripped, loads) == FromDecoded(loads(Strip(stripped[..TextBegin(stripped) - |TextArgStart|])))
  {
    MarkedPieces(stripped);
  }

  /**
   A successful marker reply: the tool name comes from the JSON head, the
   `text` argument is the stripped text from the first start marker to the
   first end marker after it, overriding any `text` of the head, and every
   other argument is the head's.
   */
  lemma MarkedReplyCall(stripped: string, loads: string -> Option<Json>)
    requires Contains(stripped, TextArgStart)
    requires MarkedReply(stripped, loads).Call?
    ensures var head := FromDecoded(loads(Strip(stripped[..TextBegin(stripped) - |TextArgStart|])));
            var q := Find(stripped, TextArgEnd, TextBegin(stripped));
            var c := MarkedReply(stripped, loads).call;
            && head.Call? && q.Some?
            && c.toolName == head.call.toolName
            && Get(c.args, "text") == Some(JStr(Strip(stripped[TextBegin(stripped)..q.value])))
            && forall k :: k != "text" ==> Get(c.args, k) == Get(head.call.args, k)
  {
    MarkedPieces(stripped);
  }

  /** The first occurrence is the one `Find` reports. */
  lemma FindFirst(s: string, t: string, start: nat, i: nat)
    requires start <= i && OccursAt(s, t, i)
    requires forall j :: start <= j < i ==> !OccursAt(s, t, j)
    ensures Find(s, t, start) == Some(i)
  {
  }

  /** `split` cuts at the occurrence `find` reports. */
  lemma FindSplit(s: string, sep: string)
    requires sep != [] && Contains(s, sep)
    ensures Find(s, sep, 0) == Some(|SplitOnce(s, sep).value.0|)
  {
    FindFirst(s, sep, 0, |SplitOnce(s, sep).value.0|);
  }

  /** Searching from `p` is searching the suffix from `p`, shifted by `p`. */
  lemma FindShift(s: string, t: string, p: nat)
    requires p <= |s|
    ensures Find(s[p..], t, 0).None? <==> Find(s, t, p).None?
    ensures Find(s[p..], t, 0).Some? ==> Find(s, t, p) == Some(Find(s[p..], t, 0).value + p)
  {
    match Find(s[p..], t, 0)
    case None =>
      forall j | p <= j
        ensures !OccursAt(s, t, j)
      {
        OccursShift(s, t, p, j);
      }
    case Some(i) =>
      OccursShift(s, t, p, i + p);
      forall j | p <= j < i + p
        ensures !OccursAt(s, t, j)
      {
        OccursShift(s, t, p, j);
      }
      FindFirst(s, t, p, i + p);
  }

  /** An occurrence at or past `p` is an occurrence in the suffix from `p`, shifted by `p`. */
  lemma OccursShift(s: string, t: string, p: nat, j: int)
    requires p <= |s| && p <= j
    ensures OccursAt(s, t, j) <==> OccursAt(s[p..], t, j - p)
  {
    if j + |t| <= |s| {
      assert s[p..][j - p..j - p + |t|] == s[j..j + |t|];
    }
  }

  /** The fallback format: one leading JSON object, whatever follows it. */
  function BareReply(stripped: string, rawDecode: string -> Option<Json>): (r: Parsed)
    ensures r.Call? || r.Retry?
  {
    FromDecoded(rawDecode(LStrip(stripped)))
  }

  /** A bare reply's call carries the `text` argument of the decoded object's `arguments`, if any. */
  lemma BareReplyText(stripped: string, rawDecode: string -> Option<Json>)
    ensures BareReply(stripped, rawDecode).Call? ==>
              var decoded := rawDecode(LStrip(stripped));
              && decoded.Some? && decoded.value.JObj?
              && Get(BareReply(stripped, rawDecode).call.args, "text") == Get(GetOrNull(decoded.value, "arguments"), "text")
  {
    var decoded := rawDecode(LStrip(stripped));
    if decoded.Some? && decoded.value.JObj? {
      assert BareReply(stripped, rawDecode) == CallFields(decoded.value);
      CallArgumentsKey(decoded.value, "text");
    }
  }

  /** Every key of a call's arguments is the key of the object's `arguments`; falsy arguments have no keys. */
  lemma CallArgumentsKey(obj: Json, key: string)
    requires obj.JObj?
    ensures CallFields(obj).Call? ==> Get(CallFields(obj).call.args, key) == Get(GetOrNull(obj, "arguments"), key)
  {
    var r := CallFields(obj);
    var arguments := GetOrNull(obj, "arguments");
    if r.Call? && !Truthy(arguments) {
      assert r.call.args == JObj([]);
      assert arguments.JObj? ==> arguments.fields == [];
    }
  }

  /** `text_tool_parser`. */
  function Parse(text: string, loads: string -> Option<Json>, rawDecode: string -> Option<Json>): (r: Parsed)
    ensures !Contains(Strip(text), TextArgStart) && Contains(Strip(text), TextArgEnd)
            ==> r == Retry(MissingStartMarker)
    ensures Contains(Strip(text), TextArgStart) && !Contains(Strip(text), TextArgEnd)
            ==> r == Retry(MissingEndMarker)
    ensures r.Call? ==> r.call.args.JObj?
    ensures r == EndMarkerMisplaced <==>
              && Contains(Strip(text), TextArgStart) && Contains(Strip(text), TextArgEnd)
              && Find(Strip(text), TextArgEnd, TextBegin(Strip(text))).None?
    ensures r.Call? && !Contains(Strip(text), TextArgStart) ==>
              var decoded := rawDecode(LStrip(Strip(text)));
              && decoded.Some? && decoded.value.JObj?
              && Get(r.call.args, "text") == Get(GetOrNull(decoded.value, "arguments"), "text")
  {
    ParseStripped(Strip(text), loads, rawDecode)
  }

  /** The parse of the reply once surrounding whitespace is gone: markers first, then the bare object. */
  function ParseStripped(stripped: string, loads: string -> Option<Json>, rawDecode: string -> Option<Json>): (r: Parsed)
    ensures !Contains(stripped, TextArgStart) && Contains(stripped, TextArgEnd) ==> r == Retry(MissingStartMarker)
    ensures Contains(stripped, TextArgStart) && !Contains(stripped, TextArgEnd) ==> r == Retry(MissingEndMarker)
    ensures r.Call? ==> r.call.args.JObj?
    ensures r == EndMarkerMisplaced <==>
              && Contains(stripped, TextArgStart) && Contains(stripped, TextArgEnd)
              && Find(stripped, TextArgEnd, TextBegin(stripped)).None?
    ensures r.Call? && !Contains(stripped, TextArgStart) ==>
              var decoded := rawDecode(LStrip(stripped));
              && decoded.Some? && decoded.value.JObj?
              && Get(r.call.args, "text") == Get(GetOrNull(decoded.value, "arguments"), "text")
  {
    var hasStart := Contains(stripped, TextArgStart);
    var hasEnd := Contains(stripped, TextArgEnd);
    if hasStart || hasEnd then
      if !hasStart then Retry(MissingStartMarker)
      else if !hasEnd then Retry(MissingEndMarker)
      else
        MarkedReplyFailures(stripped, loads);
        MarkedReply(stripped, loads)
    else
      BareReplyText(stripped, rawDecode);
      BareReply(stripped, rawDecode)
  }

  /**
   Writing a call in the marker format and parsing it back gives the call,
   with the stripped text between the markers as its `text` argument. The
   JSON head must be trimmed, hold no start marker and not end in one of the
   start marker's characters (so no start marker straddles the seam); the
   text must hold no end marker and not end in one of the end marker's
   characters.
   */
  lemma MarkerFormatRoundTrip(msg: string, head: string, body: string, obj: Json,
                              loads: string -> Option<Json>, rawDecode: string -> Option<Json>)
    requires msg == head + TextArgStart + body + TextArgEnd
    requires IsTrimmed(head) && !Contains(head, TextArgStart) && head[|head| - 1] !in TextArgStart
    requires !Contains(body, TextArgEnd) && (body == [] || body[|body| - 1] !in TextArgEnd)
    requires loads(head) == Some(obj) && obj.JObj? && CallFields(obj).Call?
    ensures var c := CallFields(obj).call;
            Parse(msg, loads, rawDecode) == Call(ToolCall(c.toolName, Set(c.args, "text", JStr(Strip(body)))))
  {
    MarkedRoundTrip(msg, head, body, obj, loads);
    ParseSelfStripped(msg, head, body, loads, rawDecode);
  }

  /** The same round trip for the marker reply of the already stripped message. */
  lemma MarkedRoundTrip(msg: string, head: string, body: string, obj: Json, loads: string -> Option<Json>)
    requires msg == head + TextArgStart + body + TextArgEnd
    requires IsTrimmed(head) && !Contains(head, TextArgStart) && head[|head| - 1] !in TextArgStart
    requires !Contains(body, TextArgEnd) && (body == [] || body[|body| - 1] !in TextArgEnd)
    requires loads(head) == Some(obj) && obj.JObj? && CallFields(obj).Call?
    ensures Contains(msg, TextArgStart) && Contains(msg, TextArgEnd)
    ensures var c := CallFields(obj).call;
            MarkedReply(msg, loads) == Call(ToolCall(c.toolName, Set(c.args, "text", JStr(Strip(body)))))
  {
    MarkersLocated(msg, head, TextArgStart, body, TextArgEnd);
    MarkedFromPositions(msg, head, body, obj, loads);
  }

  /** Where the two markers of such a message are found, and what lies before and between them. */
  lemma MarkersLocated(msg: string, head: string, left: string, body: string, right: string)
    requires msg == head + left + body + right && left != [] && right != []
    requires !Contains(head, left) && (head == [] || head[|head| - 1] !in left)
    requires !Contains(body, right) && (body == [] || body[|body| - 1] !in right)
    ensures Find(msg, left, 0) == Some(|head|)
    ensures Find(msg, right, |head| + |left|) == Some(|head| + |left| + |body|)
    ensures msg[..|head|] == head && msg[|head| + |left|..|head| + |left| + |body|] == body
  {
    StartFound(msg, head, body, left, right);
    EndFound(msg, head, body, left, right);
    Pieces(msg, head, left, body, right);
  }

  /** The marker reply from located markers and the pieces between them. */
  lemma MarkedFromPositions(msg: string, head: string, body: string, obj: Json, loads: string -> Option<Json>)
    requires Find(msg, TextArgStart, 0) == Some(|head|)
    requires Find(msg, TextArgEnd, |head| + |TextArgStart|) == Some(|head| + |TextArgStart| + |body|)
    requires msg[..|head|] == head && msg[|head| + |TextArgStart|..|head| + |TextArgStart| + |body|] == body
    requires IsTrimmed(head) && loads(head) == Some(obj) && obj.JObj? && CallFields(obj).Call?
    ensures Contains(msg, TextArgStart) && Contains(msg, TextArgEnd)
    ensures var c := CallFields(obj).call;
            MarkedReply(msg, loads) == Call(ToolCall(c.toolName, Set(c.args, "text", JStr(Strip(body)))))
  {
    MarkedReplyAt(msg, loads, |head|, |head| + |TextArgStart| + |body|);
    StripTrimmed(head);
  }

  /** A trimmed head followed by both markers and ending in a non-space is parsed in the marker format as it stands. */
  lemma ParseSelfStripped(msg: string, head: string, body: string,
                          loads: string -> Option<Json>, rawDecode: string -> Option<Json>)
    requires msg == head + TextArgStart + body + TextArgEnd && IsTrimmed(head)
    requires Contains(msg, TextArgStart) && Contains(msg, TextArgEnd)
    ensures Parse(msg, loads, rawDecode) == MarkedReply(msg, loads)
  {
    var tail := TextArgStart + body + TextArgEnd;
    assert msg == head + tail;
    assert tail[|tail| - 1] == '$';
    TrimmedConcat(msg, head, tail);
  }

  /**
   The marker reply once the first start marker and the first end marker
   after it are located.
   */
  lemma MarkedReplyAt(stripped: string, loads: string -> Option<Json>, i: nat, j: nat)
    requires Find(stripped, TextArgStart, 0) == Some(i)
    requires Find(stripped, TextArgEnd, i + |TextArgStart|) == Some(j)
    ensures Contains(stripped, TextArgStart) && Contains(stripped, TextArgEnd)
    ensures MarkedReply(stripped, loads)
            == match FromDecoded(loads(Strip(stripped[..i])))
               case Call(c) => Call(ToolCall(c.toolName, Set(c.args, "text", JStr(Strip(stripped[i + |TextArgStart|..j])))))
               case other => other
  {
    ContainsAt(stripped, TextArgStart, i);
    ContainsAt(stripped, TextArgEnd, j);
    MarkedPieces(stripped);
  }

  /** In a message built from a head, a start marker, a text and an end marker, the start marker is found where it was put. */
  lemma StartFound(msg: string, head: string, body: string, left: string, right: string)
    requires msg == head + left + body + right && left != []
    requires !Contains(head, left) && (head == [] || head[|head| - 1] !in left)
    ensures Find(msg, left, 0) == Some(|head|)
  {
    Pieces(msg, head, left, body, right);
    FindFrom(msg, left, 0, |head|, head);
  }

  /** In the same message the end marker is found, from the end of the start marker, where it was put. */
  lemma EndFound(msg: string, head: string, body: string, left: string, right: string)
    requires msg == head + left + body + right && right != []
    requires !Contains(body, right) && (body == [] || body[|body| - 1] !in right)
    ensures Find(msg, right, |head| + |left|) == Some(|head| + |left| + |body|)
  {
    Pieces(msg, head, left, body, right);
    var p, k := |head| + |left|, |head| + |left| + |body|;
    assert OccursAt(msg, right, k) && msg[p..k] == body;
    FindFrom(msg, right, p, k, body);
  }

  /** Where each piece of a four-piece message sits. */
  lemma Pieces(msg: string, a: string, b: string, c: string, d: string)
    requires msg == a + b + c + d
    ensures msg[..|a|] == a && msg[0..|a|] == a && OccursAt(msg, b, |a|)
    ensures msg[|a| + |b|..|a| + |b| + |c|] == c
    ensures msg[|a| + |b|..|a| + |b| + |c|] == c && OccursAt(msg, d, |a| + |b| + |c|)
  {
    assert msg[|a|..|a| + |b|] == b;
    assert msg[|a| + |b| + |c|..|a| + |b| + |c| + |d|] == d;
  }

  lemma SliceOfSlice(s: string, p: nat, k: nat, i: nat, n: nat)
    requires p <= k <= |s| && i + n <= k - p
    ensures s[p..k][i..i + n] == s[p + i..p + i + n]
  {
    var x, y := s[p..k][i..i + n], s[p + i..p + i + n];
    forall m | 0 <= m < n
      ensures x[m] == y[m]
    {
    }
  }

  lemma ContainsAt(s: string, t: string, i: int)
    requires OccursAt(s, t, i)
    ensures Contains(s, t)
  {
  }

  /**
   The first occurrence of a pattern from `p` is at `k` when it occurs there,
   the text between holds none, and that text does not end in one of the
   pattern's characters (so no occurrence straddles `k`).
   */
  lemma FindFrom(s: string, pat: string, p: nat, k: nat, piece: string)
    requires pat != [] && p <= k && OccursAt(s, pat, k) && s[p..k] == piece
    requires !Contains(piece, pat) && (piece == [] || piece[|piece| - 1] !in pat)
    ensures Find(s, pat, p) == Some(k)
  {
    forall j | p <= j < k
      ensures !OccursAt(s, pat, j)
    {
      if j + |pat| <= k {
        SliceOfSlice(s, p, k, j - p, |pat|);
        assert !OccursAt(s[p..k], pat, j - p);
      }
    }
    FindFirst(s, pat, p, k);
  }

  /** A trimmed head followed by text ending in a non-space strips to itself. */
  lemma TrimmedConcat(msg: string, head: string, tail: string)
    requires msg == head + tail
    requires IsTrimmed(head) && tail != [] && !IsSpace(tail[|tail| - 1])
    ensures Strip(msg) == msg
  {
    assert msg[0] == head[0];
    assert msg[|msg| - 1] == tail[|tail| - 1];
    StripTrimmed(msg);
  }
}
