/**
 The payload filters of memory compaction: before a trace is rendered for
 the compaction prompt, strings that look like base64 payloads and binary
 multimodal parts are dropped, while URL parts keep their URL.
 */
module Compactor {
  import opened Wrappers
  import opened PyStr
  import opened Json

  /** Strings shorter than this are never taken for a payload. */
  const MinPayloadLen: nat := 128

  const DataPrefix: string := "data:"
  const Base64Marker: string := ";base64,"

  /** The URL kinds of the multimodal parts. */
  const UrlKinds: set<string> := {"image-url", "audio-url", "video-url", "document-url", "file-url"}

  // ---------------------------------------------------------------------------
  // Base64 detection
  // ---------------------------------------------------------------------------

  /** The character class `[A-Za-z0-9+/=_-]`: both base64 alphabets and the pad. */
  predicate Base64Char(c: char)
  {
    ('A' <= c <= 'Z') || ('a' <= c <= 'z') || ('0' <= c <= '9') || c == '+' || c == '/' || c == '=' || c == '_' || c == '-'
  }

  predicate AllBase64(s: string)
  {
    forall i :: 0 <= i < |s| ==> Base64Char(s[i])
  }

  predicate IsDataUrl(v: string)
  {
    StartsWith(v, DataPrefix) && Contains(v, Base64Marker)
  }

  predicate IsHttpUrl(v: string)
  {
    StartsWith(v, "http://") || StartsWith(v, "https://")
  }

  /**
   `_looks_like_base64`: a base64 data URL, or a long unbroken run of base64
   characters whose length could come from an encoder (not 1 modulo 4);
   plain web URLs are kept.
   */
  function LooksLikeBase64(v: string): (r: bool)
    ensures IsDataUrl(v) ==> r
    ensures !IsDataUrl(v) && IsHttpUrl(v) ==> !r
    ensures !IsDataUrl(v) && (|v| < MinPayloadLen || !AllBase64(v) || exists i :: 0 <= i < |v| && IsSpace(v[i])) ==> !r
    ensures !IsDataUrl(v) && |v| % 4 == 1 ==> !r
    ensures !IsDataUrl(v) && !IsHttpUrl(v) && |v| >= MinPayloadLen && AllBase64(v) && |v| % 4 != 1 ==> r
  {
    if IsDataUrl(v) then true
    else if IsHttpUrl(v) then false
    else if |v| < MinPayloadLen then false
    else if exists i :: 0 <= i < |v| && IsSpace(v[i]) then false
    else if !AllBase64(v) then false
    else |v| % 4 != 1
  }

  /** The whitespace test is subsumed by the character class: no base64 character is a space. */
  lemma Base64CharsAreNotSpace(s: string)
    requires AllBase64(s)
    ensures forall i :: 0 <= i < |s| ==> !IsSpace(s[i])
  {
    forall i | 0 <= i < |s|
      ensures !IsSpace(s[i])
    {
      assert Base64Char(s[i]);
    }
  }

  // ---------------------------------------------------------------------------
  // A reference encoder
  // ---------------------------------------------------------------------------

  newtype byte = x: int | 0 <= x < 256

  /**
   The character for a six-bit group: the standard alphabet of section 4 of
   RFC 4648, or with `urlSafe` the alphabet of section 5.
   */
  function SextetChar(k: nat, urlSafe: bool): (c: char)
    requires k < 64
    ensures Base64Char(c) && c != '='
  {
    if k < 26 then ('A' as int + k) as char
    else if k < 52 then ('a' as int + (k - 26)) as char
    else if k < 62 then ('0' as int + (k - 52)) as char
    else if k == 62 then (if urlSafe then '-' else '+')
    else (if urlSafe then '_' else '/')
  }

  /** The length of the encoding of `n` bytes, with or without padding. */
  function EncodedLen(n: nat, pad: bool): nat
  {
    if pad then 4 * ((n + 2) / 3)
    else 4 * (n / 3) + (if n % 3 == 0 then 0 else n % 3 + 1)
  }

  /** The `k`-th six-bit group, counted from the top, of a 24-bit block. */
  function Sextet(n: nat, k: nat): (d: nat)
    requires n < 16777216 && k < 4
    ensures d < 64
  {
    if k == 0 then n / 262144 else if k == 1 then n / 4096 % 64 else if k == 2 then n / 64 % 64 else n % 64
  }

  /** The first `count` characters of the 24-bit block `n`. */
  function BlockChars(n: nat, count: nat, urlSafe: bool): (r: string)
    requires n < 16777216 && count <= 4
    ensures |r| == count && AllBase64(r)
  {
    seq(count, k requires 0 <= k < count => SextetChar(Sextet(n, k), urlSafe))
  }

  /** Encoding three more bytes adds four characters. */
  lemma EncodedLenStep(n: nat, pad: bool)
    requires n >= 3
    ensures EncodedLen(n, pad) == 4 + EncodedLen(n - 3, pad)
  {
    assert (n + 2) / 3 == 1 + (n - 3 + 2) / 3;
    assert n / 3 == 1 + (n - 3) / 3 && n % 3 == (n - 3) % 3;
  }

  /** Base64 encoding, three bytes to four characters, the last group padded with `=` when `pad`. */
  function Encode(bs: seq<byte>, urlSafe: bool, pad: bool): (r: string)
    ensures |r| == EncodedLen(|bs|, pad)
    ensures AllBase64(r)
    decreases |bs|
  {
    if |bs| >= 3 then
      var n := bs[0] as nat * 65536 + bs[1] as nat * 256 + bs[2] as nat;
      EncodedLenStep(|bs|, pad);
      BlockChars(n, 4, urlSafe) + Encode(bs[3..], urlSafe, pad)
    else if |bs| == 2 then
      var n := bs[0] as nat * 65536 + bs[1] as nat * 256;
      BlockChars(n, 3, urlSafe) + (if pad then "=" else "")
    else if |bs| == 1 then
      var n := bs[0] as nat * 65536;
      BlockChars(n, 2, urlSafe) + (if pad then "==" else "")
    else []
  }

  /** No encoder, padded or not, produces a length of 1 modulo 4. */
  lemma EncodedLenNotOneModFour(n: nat, pad: bool)
    ensures EncodedLen(n, pad) % 4 != 1
    ensures n >= 96 ==> EncodedLen(n, pad) >= MinPayloadLen
  {
  }

  /** An encoded payload of at least 96 bytes, in either alphabet, padded or not, is detected. */
  lemma EncodedPayloadDetected(bs: seq<byte>, urlSafe: bool, pad: bool)
    requires |bs| >= 96
    ensures LooksLikeBase64(Encode(bs, urlSafe, pad))
  {
    var r := Encode(bs, urlSafe, pad);
    EncodedLenNotOneModFour(|bs|, pad);
    Base64CharsAreNotSpace(r);
    assert r[4] != ':' && r[5] != ':';
    assert !StartsWith(r, DataPrefix) by {
      assert DataPrefix[4] == ':';
    }
    assert !StartsWith(r, "http://") && !StartsWith(r, "https://") by {
      assert "http://"[4] == ':' && "https://"[5] == ':';
    }
  }

  /** Two hundred `a`s are taken for a payload; a short word is not. */
  lemma DetectionExamples()
    ensures LooksLikeBase64(seq(200, _ => 'a'))
    ensures !LooksLikeBase64("ok")
  {
    var s := seq(200, _ => 'a');
    Base64CharsAreNotSpace(s);
    assert s[0] == 'a';
    assert !StartsWith(s, DataPrefix) && !StartsWith(s, "http://") && !StartsWith(s, "https://");
  }

  // ---------------------------------------------------------------------------
  // Multimodal parts given as mappings
  // ---------------------------------------------------------------------------

  /**
   `_multimodal_mapping_url_or_binary`: the URL of a URL part when it is a
   non-empty string, and whether the part is binary.
   */
  function MappingUrlOrBinary(value: Json): (r: (Option<string>, bool))
    requires value.JObj?
    ensures !(r.0.Some? && r.1)
    ensures r.1 <==> GetStr(value, "kind") == Some("binary")
    ensures r.0.Some? <==>
      GetStr(value, "kind").Some? && GetStr(value, "kind").value in UrlKinds
      && GetStr(value, "url").Some? && GetStr(value, "url").value != []
    ensures r.0.Some? ==> r.0 == GetStr(value, "url")
  {
    match GetStr(value, "kind")
    case None => (None, false)
    case Some(kind) =>
      if kind == "binary" then (None, true)
      else if kind in UrlKinds then
        match GetStr(value, "url")
        case Some(url) => if url != [] then (Some(url), false) else (None, false)
        case None => (None, false)
      else (None, false)
  }
}
