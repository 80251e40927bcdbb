/**
 The `read_media` tool: each media spec is either an http(s) URL, turned into
 a URL part of the kind its media type suggests, or a local path, read into a
 binary part. URL parsing, the `mimetypes` guess, the HTTP sniff and the file
 read are parameters.
 */
module Media {
  import opened Wrappers
  import opened PyStr
  import Json
  import Compactor

  /** The URL part kinds `read_media` produces. */
  datatype UrlKind = ImageUrl | AudioUrl | VideoUrl | DocumentUrl
  {
    /** The part's `kind` discriminator. */
    function Name(): string
    {
      match this
      case ImageUrl => "image-url"
      case AudioUrl => "audio-url"
      case VideoUrl => "video-url"
      case DocumentUrl => "document-url"
    }
  }

  /** A part the tool returns: a URL part, or the contents of a local file. */
  datatype Content<B> = Url(kind: UrlKind, url: string) | Binary(data: B)

  const KindPrefixes: seq<string> := ["image:", "audio:", "video:", "document:"]

  // ---------------------------------------------------------------------------
  // Media types
  // ---------------------------------------------------------------------------

  /** The media type names a document: a PDF or any text type. */
  predicate IsDocumentType(mt: string)
  {
    mt == "application/pdf" || StartsWith(mt, "text/")
  }

  /**
   `_url_kind_from_media_type`, after lower-casing: the top-level type picks
   the kind; a PDF or text type is a document; anything else has no kind.
   */
  function KindFromMediaType(mediaType: string): (r: Option<UrlKind>)
    ensures r == Some(ImageUrl) <==> StartsWith(Lower(mediaType), "image/")
    ensures r == Some(AudioUrl) <==> StartsWith(Lower(mediaType), "audio/")
    ensures r == Some(VideoUrl) <==> StartsWith(Lower(mediaType), "video/")
    ensures r == Some(DocumentUrl) <==> IsDocumentType(Lower(mediaType))
  {
    var mt := Lower(mediaType);
    PrefixesExclusive(mt);
    if StartsWith(mt, "image/") then Some(ImageUrl)
    else if StartsWith(mt, "audio/") then Some(AudioUrl)
    else if StartsWith(mt, "video/") then Some(VideoUrl)
    else if IsDocumentType(mt) then Some(DocumentUrl)
    else None
  }

  /** The four tests look at different first characters, so at most one of them holds. */
  lemma PrefixesExclusive(mt: string)
    ensures StartsWith(mt, "image/") ==> !StartsWith(mt, "audio/") && !StartsWith(mt, "video/") && !IsDocumentType(mt)
    ensures StartsWith(mt, "audio/") ==> !StartsWith(mt, "video/") && !IsDocumentType(mt)
    ensures StartsWith(mt, "video/") ==> !IsDocumentType(mt)
  {
    if |mt| > 0 {
      assert StartsWith(mt, "image/") ==> mt[0] == 'i';
      assert StartsWith(mt, "audio/") ==> mt[0] == 'a';
      assert StartsWith(mt, "video/") ==> mt[0] == 'v';
      assert IsDocumentType(mt) ==> mt[0] == 'a' || mt[0] == 't';
      assert StartsWith(mt, "audio/") ==> mt[1] == 'u';
      assert mt == "application/pdf" ==> mt[1] == 'p';
    }
  }

  /** Lower-casing forgets an earlier upper-casing. */
  lemma LowerUpper(s: string)
    ensures Lower(Upper(s)) == Lower(s)
  {
    forall i | 0 <= i < |s|
      ensures Lower(Upper(s))[i] == Lower(s)[i]
    {
      var c := s[i];
      assert Upper(s)[i] == UpperChar(c);
    }
  }

  /** The kind ignores case: a media type written in upper case maps to the same kind. */
  lemma KindIgnoresCase(mediaType: string)
    ensures KindFromMediaType(Upper(mediaType)) == KindFromMediaType(mediaType)
    ensures KindFromMediaType(Lower(mediaType)) == KindFromMediaType(mediaType)
  {
    LowerUpper(mediaType);
    LowerIdempotent(mediaType);
  }

  lemma LowerIdempotent(s: string)
    ensures Lower(Lower(s)) == Lower(s)
  {
    forall i | 0 <= i < |s|
      ensures Lower(Lower(s))[i] == Lower(s)[i]
    {
      assert Lower(Lower(s))[i] == LowerChar(Lower(s)[i]);
    }
  }

  /**
   `_infer_url_kind`: the kind of the type guessed from the URL's path, else
   the kind of the sniffed type, else a document. An empty type counts as no
   type.
   */
  function InferUrlKind(guessed: Option<string>, sniffed: Option<string>): (r: UrlKind)
    ensures guessed.Some? && guessed.value != [] && KindFromMediaType(guessed.value).Some? ==>
      r == KindFromMediaType(guessed.value).value
    ensures ((guessed.None? || guessed.value == [] || KindFromMediaType(guessed.value).None?)
             && sniffed.Some? && sniffed.value != [] && KindFromMediaType(sniffed.value).Some?) ==>
      r == KindFromMediaType(sniffed.value).value
    ensures ((guessed.None? || KindFromMediaType(guessed.value).None?)
             && (sniffed.None? || KindFromMediaType(sniffed.value).None?)) ==> r == DocumentUrl
  {
    var fromGuess := if guessed.Some? && guessed.value != [] then KindFromMediaType(guessed.value) else None;
    var fromSniff := if sniffed.Some? && sniffed.value != [] then KindFromMediaType(sniffed.value) else None;
    if fromGuess.Some? then fromGuess.value
    else if fromSniff.Some? then fromSniff.value
    else DocumentUrl
  }

  // ---------------------------------------------------------------------------
  // Reading specs
  // ---------------------------------------------------------------------------

  /** The spec starts, in any case, with one of the rejected kind prefixes. */
  predicate HasKindPrefix(spec: string)
  {
    exists k :: 0 <= k < |KindPrefixes| && StartsWith(Lower(spec), KindPrefixes[k])
  }

  /**
   One spec of `read_media`, stripped: a blank spec or one with a kind prefix
   is a ModelRetry; a URL becomes a URL part of the inferred kind; anything
   else is read as a file, and a failed read is a ModelRetry.
   */
  function ReadOne<B>(raw: string, isHttp: string -> bool, guess: string -> Option<string>,
                      sniff: string -> Option<string>, loadFile: string -> Option<B>): (r: Outcome<Content<B>>)
    ensures r.Fail? ==> r.exc == ModelRetry
    ensures Strip(raw) == [] ==> r.Fail?
    ensures HasKindPrefix(Strip(raw)) ==> r.Fail?
    ensures r.Ok? && r.value.Url? ==> r.value.url == Strip(raw) && r.value.url != [] && isHttp(Strip(raw))
    ensures r.Ok? && r.value.Binary? ==> !isHttp(Strip(raw)) && loadFile(Strip(raw)) == Some(r.value.data)
    ensures Strip(raw) != [] && !HasKindPrefix(Strip(raw)) && isHttp(Strip(raw)) ==>
      r == Ok(Url(InferUrlKind(guess(Strip(raw)), sniff(Strip(raw))), Strip(raw)))
  {
    var spec := Strip(raw);
    if spec == [] then Fail(ModelRetry)
    else if HasKindPrefix(spec) then Fail(ModelRetry)
    else if isHttp(spec) then Ok(Url(InferUrlKind(guess(spec), sniff(spec)), spec))
    else
      match loadFile(spec)
      case None => Fail(ModelRetry)
      case Some(data) => Ok(Binary(data))
  }

  /** `read_media`: the specs in order, stopping at the first one that fails. */
  function ReadMedia<B>(media: seq<string>, isHttp: string -> bool, guess: string -> Option<string>,
                        sniff: string -> Option<string>, loadFile: string -> Option<B>): (r: Outcome<seq<Content<B>>>)
    ensures r.Fail? ==> r.exc == ModelRetry
    ensures r.Ok? ==> |r.value| == |media|
    decreases |media|
  {
    if media == [] then Ok([])
    else
      match ReadOne(media[0], isHttp, guess, sniff, loadFile)
      case Fail(e) => Fail(e)
      case Ok(first) =>
        var rest := ReadMedia(media[1..], isHttp, guess, sniff, loadFile);
        if rest.Fail? then Fail(rest.exc) else Ok([first] + rest.value)
  }

  /** The call succeeds exactly when every spec does, and then answers one part per spec, in order. */
  lemma {:induction false} ReadMediaItems<B>(media: seq<string>, isHttp: string -> bool, guess: string -> Option<string>,
                                             sniff: string -> Option<string>, loadFile: string -> Option<B>)
    ensures var r := ReadMedia(media, isHttp, guess, sniff, loadFile);
      (r.Ok? <==> forall i :: 0 <= i < |media| ==> ReadOne(media[i], isHttp, guess, sniff, loadFile).Ok?)
      && (r.Ok? ==> forall i :: 0 <= i < |media| ==> r.value[i] == ReadOne(media[i], isHttp, guess, sniff, loadFile).value)
    decreases |media|
  {
    if media != [] {
      ReadMediaItems(media[1..], isHttp, guess, sniff, loadFile);
      assert forall i :: 1 <= i < |media| ==> media[i] == media[1..][i - 1];
    }
  }

  /** A single blank or prefixed spec anywhere in the list fails the whole call. */
  lemma BadSpecFailsAll<B>(media: seq<string>, i: nat, isHttp: string -> bool, guess: string -> Option<string>,
                           sniff: string -> Option<string>, loadFile: string -> Option<B>)
    requires i < |media| && (Strip(media[i]) == [] || HasKindPrefix(Strip(media[i])))
    ensures ReadMedia(media, isHttp, guess, sniff, loadFile) == Fail(ModelRetry)
  {
    assert ReadOne(media[i], isHttp, guess, sniff, loadFile).Fail?;
    ReadMediaItems(media, isHttp, guess, sniff, loadFile);
  }

  /** The rejected examples: a kind-prefixed URL and a blank spec. */
  lemma RejectedSpecExamples<B>(isHttp: string -> bool, guess: string -> Option<string>,
                                sniff: string -> Option<string>, loadFile: string -> Option<B>)
    ensures ReadMedia(["audio:https://example.com/stream"], isHttp, guess, sniff, loadFile) == Fail(ModelRetry)
    ensures ReadMedia(["  "], isHttp, guess, sniff, loadFile) == Fail(ModelRetry)
  {
    var spec := "audio:https://example.com/stream";
    StripTrimmed(spec);
    assert StartsWith(Lower(spec), KindPrefixes[1]);
    BadSpecFailsAll([spec], 0, isHttp, guess, sniff, loadFile);
    assert AllSpace("  ");
    StripEmptyIffAllSpace("  ");
    BadSpecFailsAll(["  "], 0, isHttp, guess, sniff, loadFile);
  }

  /**
   The parts agree with the compactor: a URL part, written as a mapping, is
   kept with its URL, and a binary part is recognised as binary.
   */
  lemma PartsAsMappings(kind: UrlKind, url: string)
    requires url != []
    ensures Compactor.MappingUrlOrBinary(Json.JObj([("kind", Json.JStr(kind.Name())), ("url", Json.JStr(url))]))
      == (Some(url), false)
    ensures Compactor.MappingUrlOrBinary(Json.JObj([("kind", Json.JStr("binary"))])) == (None, true)
  {
    var m := Json.JObj([("kind", Json.JStr(kind.Name())), ("url", Json.JStr(url))]);
    Json.LookupAt(m.fields, 0, "kind");
    Json.LookupAt(m.fields, 1, "url");
    Json.LookupAt([("kind", Json.JStr("binary"))], 0, "kind");
  }
}
