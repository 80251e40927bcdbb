/**
 The line-slice file edit behind the `edit_file` skill. The file, the old
 content and the new content are normalised to LF newlines and cut into lines;
 the lines of the old content must sit at `start_line` in the file, and they
 are replaced by the lines of the new content. The result is written back in
 the newline style the file had. Two variants exist: the base one requires an
 explicit `start_line`; the skill one may locate the old content itself when
 it occurs exactly once. The disk is a parameter: `Some(text)` is the file's
 decoded contents and `None` a file that cannot be read.
 */
module LineEdit {
  import opened Wrappers
  import opened PyStr

  const LF: char := '\n'
  const CR: char := '\r'

  // ---------------------------------------------------------------------------
  // Newline styles
  // ---------------------------------------------------------------------------

  datatype NewlineStyle = Lf | Crlf | Cr
  {
    function Text(): string
    {
      match this
      case Lf => "\n"
      case Crlf => "\r\n"
      case Cr => "\r"
    }
  }

  /** `_normalize_newlines`: CRLF and then every remaining CR become LF. */
  function Normalize(text: string): (r: string)
    ensures CR !in r
  {
    var x := ReplaceAll(text, [CR, LF], [LF]);
    ReplaceCharAt(x, CR, LF);
    ReplaceAll(x, [CR], [LF])
  }

  /** `_detect_newline_style`: CRLF if the file has one, else CR if it has one, else LF. */
  function DetectStyle(raw: string): NewlineStyle
  {
    if Contains(raw, [CR, LF]) then Crlf
    else if CR in raw then Cr
    else Lf
  }

  /** LF is detected exactly when the file has no CR at all. */
  lemma DetectLfIffNoCr(raw: string)
    ensures DetectStyle(raw) == Lf <==> CR !in raw
  {
    if Contains(raw, [CR, LF]) {
      var i :| 0 <= i <= |raw| - 2 && OccursAt(raw, [CR, LF], i);
      assert raw[i] == raw[i..i + 2][0] == CR;
    }
  }

  /** Text without CR is left alone by normalisation. */
  lemma NormalizeKeepsPlain(text: string)
    requires CR !in text
    ensures Normalize(text) == text
  {
    AbsentUnchanged(text, [CR, LF], [LF], CR);
    ReplaceCharAt(text, CR, LF);
  }

  /** Normalising twice is normalising once. */
  lemma NormalizeIdempotent(text: string)
    ensures Normalize(Normalize(text)) == Normalize(text)
  {
    NormalizeKeepsPlain(Normalize(text));
  }

  /** Writing LF text in a style: every LF becomes the style's newline. */
  function Restyle(norm: string, style: NewlineStyle): string
  {
    ReplaceAll(norm, [LF], style.Text())
  }

  /** Under CRLF, collapsing the CRLF pairs of restyled text gives it back. */
  lemma {:induction false} CrlfCollapse(s: string)
    requires CR !in s
    ensures ReplaceAll(Restyle(s, Crlf), [CR, LF], [LF]) == s
    decreases |s|
  {
    if s != [] {
      var t := Restyle(s[1..], Crlf);
      CrlfCollapse(s[1..]);
      if s[0] == LF {
        assert s[..1] == [LF];
        assert Restyle(s, Crlf) == [CR, LF] + t;
        var x := [CR, LF] + t;
        assert x[..2] == [CR, LF] && x[2..] == t;
      } else {
        assert s[..1] != [LF];
        assert Restyle(s, Crlf) == [s[0]] + t;
        ReplaceHeadMiss([s[0]] + t, [CR, LF], [LF]);
        assert ([s[0]] + t)[1..] == t;
      }
      assert s == [s[0]] + s[1..];
    }
  }

  /** Reading back a file written in any style gives the LF text that was written. */
  lemma NormalizeRestyled(s: string, style: NewlineStyle)
    requires CR !in s
    ensures Normalize(Restyle(s, style)) == s
  {
    var w := Restyle(s, style);
    match style
    case Lf =>
      ReplaceCharAt(s, LF, LF);
      assert w == s;
      NormalizeKeepsPlain(s);
    case Cr =>
      ReplaceCharAt(s, LF, CR);
      assert LF !in w;
      AbsentUnchanged(w, [CR, LF], [LF], LF);
      ReplaceCharAt(w, CR, LF);
    case Crlf =>
      CrlfCollapse(s);
      ReplaceCharAt(s, CR, LF);
  }

  /** A CRLF-restyled text has a CRLF as soon as it had an LF. */
  lemma {:induction false} CrlfRestyledContains(s: string)
    requires LF in s
    ensures Contains(Restyle(s, Crlf), [CR, LF])
    decreases |s|
  {
    var w := Restyle(s, Crlf);
    if s[0] == LF {
      assert s[..1] == [LF];
      assert OccursAt(w, [CR, LF], 0);
    } else {
      assert s[..1] != [LF];
      var t := Restyle(s[1..], Crlf);
      assert w == [s[0]] + t;
      CrlfRestyledContains(s[1..]);
      var i :| 0 <= i <= |t| - 2 && OccursAt(t, [CR, LF], i);
      assert w[i + 1..i + 3] == t[i..i + 2];
      assert OccursAt(w, [CR, LF], i + 1);
    }
  }

  /** The style of a restyled file is detected as the style it was written in. */
  lemma RestyledDetected(s: string, style: NewlineStyle)
    requires CR !in s && LF in s
    ensures DetectStyle(Restyle(s, style)) == style
  {
    var w := Restyle(s, style);
    match style
    case Lf =>
      ReplaceCharAt(s, LF, LF);
      assert w == s;
      DetectLfIffNoCr(w);
    case Cr =>
      ReplaceCharAt(s, LF, CR);
      var i :| 0 <= i < |s| && s[i] == LF;
      assert w[i] == CR;
      assert !Contains(w, [CR, LF]) by {
        forall j | 0 <= j <= |w| - 2
          ensures !OccursAt(w, [CR, LF], j)
        {
          assert w[j..j + 2][1] == w[j + 1];
        }
      }
    case Crlf =>
      CrlfRestyledContains(s);
  }

  // ---------------------------------------------------------------------------
  // Lines
  // ---------------------------------------------------------------------------

  /** A normalised text as its lines and whether it ends with a newline. */
  datatype LineText = LineText(lines: seq<string>, trailingNewline: bool)

  /**
   The shape every `ToLines` result has: lines hold no LF, no lines means no
   trailing newline, and an empty last line only occurs before a trailing newline.
   */
  predicate WellFormed(t: LineText)
  {
    && (forall k :: 0 <= k < |t.lines| ==> LF !in t.lines[k])
    && (t.lines == [] ==> !t.trailingNewline)
    && (t.lines != [] && t.lines[|t.lines| - 1] == [] ==> t.trailingNewline)
  }

  /**
   The line cutting the edit applies alike to the file, the old content and the
   new content: the empty text has no lines, and the empty piece after a final
   LF is dropped.
   */
  function ToLines(norm: string): (t: LineText)
    ensures forall k :: 0 <= k < |t.lines| ==> LF !in t.lines[k]
    ensures t.trailingNewline <==> norm != [] && norm[|norm| - 1] == LF
  {
    if norm == [] then LineText([], false)
    else
      var parts := Split(norm, LF);
      var ends := EndsWith(norm, [LF]);
      if ends && parts[|parts| - 1] == [] then LineText(parts[..|parts| - 1], true)
      else LineText(parts, ends)
  }

  /** Lines joined with LF, plus the trailing LF if there is one. */
  function Render(t: LineText): string
  {
    Join(t.lines, [LF]) + (if t.trailingNewline then [LF] else [])
  }

  /** Splitting a text that ends with LF leaves an empty last piece. */
  lemma SplitTrailing(s: string)
    requires s != [] && s[|s| - 1] == LF
    ensures Split(s, LF) == Split(s[..|s| - 1], LF) + [[]]
  {
    var init := s[..|s| - 1];
    assert s == init + [LF] + [];
    SplitAppend(init, [], LF);
  }

  /** The lines of a text ending with LF are the pieces of the text before that LF. */
  lemma TerminatedLines(norm: string)
    requires norm != [] && norm[|norm| - 1] == LF
    ensures ToLines(norm) == LineText(Split(norm[..|norm| - 1], LF), true)
  {
    SplitTrailing(norm);
    var parts := Split(norm, LF);
    assert parts[..|parts| - 1] == Split(norm[..|norm| - 1], LF);
  }

  /** A text that does not end with its separator splits into a non-empty last piece. */
  lemma SplitLastNonEmpty(s: string, sep: char)
    requires s != [] && s[|s| - 1] != sep
    ensures Split(s, sep)[|Split(s, sep)| - 1] != []
  {
    JoinSplit(s, sep);
  }

  /** Cutting a text into lines and rendering them gives the text back. */
  lemma ToLinesRender(norm: string)
    ensures Render(ToLines(norm)) == norm
  {
    if norm != [] {
      if norm[|norm| - 1] == LF {
        TerminatedLines(norm);
        JoinSplit(norm[..|norm| - 1], LF);
        assert norm == norm[..|norm| - 1] + [LF];
      } else {
        JoinSplit(norm, LF);
        SplitLastNonEmpty(norm, LF);
      }
    }
  }

  /** Every text cuts into well-formed lines. */
  lemma ToLinesWellFormed(norm: string)
    ensures WellFormed(ToLines(norm))
  {
    if norm != [] {
      if norm[|norm| - 1] == LF {
        TerminatedLines(norm);
      } else {
        SplitLastNonEmpty(norm, LF);
      }
    }
  }

  /** Rendering well-formed lines and cutting the text again gives the same lines. */
  lemma RenderToLines(t: LineText)
    requires WellFormed(t)
    ensures ToLines(Render(t)) == t
  {
    if t.lines != [] {
      SplitJoin(t.lines, LF);
      if t.trailingNewline {
        var j := Join(t.lines, [LF]);
        assert Render(t)[..|Render(t)| - 1] == j;
        TerminatedLines(Render(t));
      } else {
        UnterminatedRender(t);
      }
    }
  }

  /** Well-formed lines without a trailing newline render to a text not ending with LF. */
  lemma UnterminatedRender(t: LineText)
    requires WellFormed(t) && t.lines != [] && !t.trailingNewline
    ensures ToLines(Render(t)) == t
  {
    var j := Join(t.lines, [LF]);
    var last := t.lines[|t.lines| - 1];
    assert Render(t) == j;
    JoinEnd(t.lines, LF);
    assert last[|last| - 1] in last;
    assert !EndsWith(j, [LF]);
    SplitJoin(t.lines, LF);
  }

  /** Joined pieces end as their last piece does, when it is not empty. */
  lemma JoinEnd(parts: seq<string>, sep: char)
    requires parts != [] && parts[|parts| - 1] != []
    ensures var j := Join(parts, [sep]); var last := parts[|parts| - 1];
      j != [] && j[|j| - 1] == last[|last| - 1]
  {
    var n := |parts|;
    if n > 1 {
      JoinAppend(parts[..n - 1], [parts[n - 1]], [sep]);
      assert parts == parts[..n - 1] + [parts[n - 1]];
    }
  }

  /** Whether the lines `olds` sit at index `s` of `lines`. */
  predicate SliceMatches(lines: seq<string>, s: int, olds: seq<string>)
  {
    0 <= s && s + |olds| <= |lines| && lines[s..s + |olds|] == olds
  }

  /**
   The edit itself on lines: `startLine` is 1-based. Lines outside the replaced
   slice keep their places; whether the result ends with a newline follows the
   file unless the edit reaches the end, where it follows the new content, or,
   when the new content has no lines, whether any line precedes the edit.
   */
  function Splice(file: LineText, startLine: int, oldText: LineText, newText: LineText): (r: Outcome<LineText>)
    ensures r.Fail? ==> r.exc == ValueError || r.exc == EditMismatchError
    ensures r == Fail(ValueError) <==> startLine < 1 || startLine > |file.lines| + 1
    ensures r == Fail(EditMismatchError) <==>
      (1 <= startLine <= |file.lines| + 1 && !SliceMatches(file.lines, startLine - 1, oldText.lines))
    ensures r.Ok? ==>
      var s := startLine - 1;
      var n := |newText.lines|;
      && |r.value.lines| == |file.lines| - |oldText.lines| + n
      && r.value.lines[..s] == file.lines[..s]
      && r.value.lines[s..s + n] == newText.lines
      && r.value.lines[s + n..] == file.lines[s + |oldText.lines|..]
    ensures r.Ok? ==>
      r.value.trailingNewline ==
        if startLine - 1 + |oldText.lines| < |file.lines| then file.trailingNewline
        else if newText.lines != [] then newText.trailingNewline
        else startLine > 1
  {
    if startLine < 1 then Fail(ValueError)
    else
      var s := startLine - 1;
      if s > |file.lines| then Fail(ValueError)
      else
        var e := s + |oldText.lines|;
        if e > |file.lines| then Fail(EditMismatchError)
        else if file.lines[s..e] != oldText.lines then Fail(EditMismatchError)
        else
          var lines := file.lines[..s] + newText.lines + file.lines[e..];
          var ends :=
            if e == |file.lines| then (if newText.lines != [] then newText.trailingNewline else s > 0)
            else file.trailingNewline;
          Ok(LineText(lines, ends))
  }

  /** The edit keeps the line shape: its result renders and reads back unchanged. */
  lemma SplicePreservesWellFormed(file: LineText, startLine: int, oldText: LineText, newText: LineText)
    requires WellFormed(file) && WellFormed(newText)
    requires Splice(file, startLine, oldText, newText).Ok?
    ensures WellFormed(Splice(file, startLine, oldText, newText).value)
  {
    var r := Splice(file, startLine, oldText, newText).value;
    var s := startLine - 1;
    var e := s + |oldText.lines|;
    var n := |newText.lines|;
    assert r.lines == file.lines[..s] + newText.lines + file.lines[e..];
    assert forall k :: 0 <= k < |r.lines| ==> LF !in r.lines[k] by {
      forall k | 0 <= k < |r.lines|
        ensures LF !in r.lines[k]
      {
        if k < s {
          assert r.lines[k] == file.lines[k];
        } else if k < s + n {
          assert r.lines[k] == newText.lines[k - s];
        } else {
          assert r.lines[k] == file.lines[e..][k - s - n];
        }
      }
    }
    assert r.lines != [] && r.lines[|r.lines| - 1] == [] ==> r.trailingNewline by {
      if r.lines != [] {
        var last := r.lines[|r.lines| - 1];
        if e < |file.lines| {
          assert last == file.lines[|file.lines| - 1];
        } else if n > 0 {
          assert last == newText.lines[n - 1];
        }
      }
    }
  }

  /** Deleting every line of a file leaves an empty file without a newline. */
  lemma DeleteAllLeavesEmpty(file: LineText)
    requires file.lines != []
    ensures Splice(file, 1, file, LineText([], false)) == Ok(LineText([], false))
  {
    assert file.lines[0..|file.lines|] == file.lines;
  }

  /** With no old lines the new lines are inserted before `startLine`. */
  lemma EmptyOldInserts(file: LineText, startLine: int, newText: LineText)
    requires 1 <= startLine <= |file.lines| + 1
    ensures var r := Splice(file, startLine, LineText([], false), newText);
      r.Ok? && r.value.lines == file.lines[..startLine - 1] + newText.lines + file.lines[startLine - 1..]
  {
    var r := Splice(file, startLine, LineText([], false), newText).value;
    var s := startLine - 1;
    assert r.lines == r.lines[..s] + r.lines[s..s + |newText.lines|] + r.lines[s + |newText.lines|..];
  }

  // ---------------------------------------------------------------------------
  // The explicit-line edit (the base `edit.py`)
  // ---------------------------------------------------------------------------

  /** The edit of file text `raw`, from normalisation to the text written back. */
  function EditText(raw: string, startLine: int, oldContent: string, newContent: string): (r: Outcome<string>)
  {
    var file := ToLines(Normalize(raw));
    var oldText := ToLines(Normalize(oldContent));
    var newText := ToLines(Normalize(newContent));
    match Splice(file, startLine, oldText, newText)
    case Fail(e) => Fail(e)
    case Ok(t) => Ok(Restyle(Render(t), DetectStyle(raw)))
  }

  /** `apply_edit` with an explicit line: the line number is checked before the file is read. */
  function ApplyEdit(disk: Option<string>, startLine: int, oldContent: string, newContent: string): (r: Outcome<string>)
    ensures startLine < 1 ==> r == Fail(ValueError)
    ensures startLine >= 1 && disk.None? ==> r == Fail(OSError)
  {
    if startLine < 1 then Fail(ValueError)
    else if disk.None? then Fail(OSError)
    else EditText(disk.value, startLine, oldContent, newContent)
  }

  /** Lines joined by a separator without CR hold a CR only if a line does. */
  lemma {:induction false} JoinNoChar(parts: seq<string>, sep: string, c: char)
    requires c !in sep
    requires forall k :: 0 <= k < |parts| ==> c !in parts[k]
    ensures c !in Join(parts, sep)
    decreases |parts|
  {
    if |parts| > 1 {
      JoinNoChar(parts[1..], sep, c);
    }
  }

  /** Pieces of a split hold no character the whole did not. */
  lemma {:induction false} SplitNoChar(s: string, sep: char, c: char)
    requires c !in s
    ensures forall k :: 0 <= k < |Split(s, sep)| ==> c !in Split(s, sep)[k]
    decreases |s|
  {
    match IndexOf(s, sep)
    case None =>
    case Some(i) =>
      assert forall x :: x in s[..i] ==> x in s;
      SplitNoChar(s[i + 1..], sep, c);
  }

  /** A line cut from text without CR holds no CR. */
  lemma ToLinesNoCr(norm: string)
    requires CR !in norm
    ensures forall k :: 0 <= k < |ToLines(norm).lines| ==> CR !in ToLines(norm).lines[k]
  {
    if norm != [] {
      SplitNoChar(norm, LF, CR);
    }
  }

  /**
   What the edit writes, read back: normalised and cut into lines it is the
   spliced file, and its newlines are all in the file's detected style.
   */
  lemma EditReadsBack(raw: string, startLine: int, oldContent: string, newContent: string)
    requires EditText(raw, startLine, oldContent, newContent).Ok?
    ensures var written := EditText(raw, startLine, oldContent, newContent).value;
      var file := ToLines(Normalize(raw));
      var oldText := ToLines(Normalize(oldContent));
      var newText := ToLines(Normalize(newContent));
      && ToLines(Normalize(written)) == Splice(file, startLine, oldText, newText).value
      && written == Restyle(Normalize(written), DetectStyle(raw))
  {
    var file := ToLines(Normalize(raw));
    var oldText := ToLines(Normalize(oldContent));
    var newText := ToLines(Normalize(newContent));
    var t := Splice(file, startLine, oldText, newText).value;
    ToLinesWellFormed(Normalize(raw));
    ToLinesWellFormed(Normalize(newContent));
    ToLinesNoCr(Normalize(raw));
    ToLinesNoCr(Normalize(newContent));
    SplicePreservesWellFormed(file, startLine, oldText, newText);
    SpliceNoCr(file, startLine, oldText, newText);
    WrittenReadsBack(t, DetectStyle(raw));
  }

  /** Well-formed lines without CR, written in a style, normalise and cut back to themselves. */
  lemma WrittenReadsBack(t: LineText, style: NewlineStyle)
    requires WellFormed(t)
    requires forall k :: 0 <= k < |t.lines| ==> CR !in t.lines[k]
    ensures var w := Restyle(Render(t), style);
      ToLines(Normalize(w)) == t && w == Restyle(Normalize(w), style)
  {
    JoinNoChar(t.lines, [LF], CR);
    NormalizeRestyled(Render(t), style);
    RenderToLines(t);
  }

  /** The lines of an edit of CR-free lines hold no CR. */
  lemma SpliceNoCr(file: LineText, startLine: int, oldText: LineText, newText: LineText)
    requires (forall k :: 0 <= k < |file.lines| ==> CR !in file.lines[k])
    requires (forall k :: 0 <= k < |newText.lines| ==> CR !in newText.lines[k])
    requires Splice(file, startLine, oldText, newText).Ok?
    ensures var r := Splice(file, startLine, oldText, newText).value;
      forall k :: 0 <= k < |r.lines| ==> CR !in r.lines[k]
  {
    var r := Splice(file, startLine, oldText, newText).value;
    var s := startLine - 1;
    var n := |newText.lines|;
    forall k | 0 <= k < |r.lines|
      ensures CR !in r.lines[k]
    {
      if k < s {
        assert r.lines[k] == r.lines[..s][k] == file.lines[k];
      } else if k < s + n {
        assert r.lines[k] == r.lines[s..s + n][k - s] == newText.lines[k - s];
      } else {
        assert r.lines[k] == r.lines[s + n..][k - s - n] == file.lines[s + |oldText.lines|..][k - s - n];
      }
    }
  }

  /** A written file that has a newline is detected in the style of the original. */
  lemma EditKeepsStyle(raw: string, startLine: int, oldContent: string, newContent: string)
    requires EditText(raw, startLine, oldContent, newContent).Ok?
    requires LF in Normalize(EditText(raw, startLine, oldContent, newContent).value)
    ensures DetectStyle(EditText(raw, startLine, oldContent, newContent).value) == DetectStyle(raw)
  {
    var written := EditText(raw, startLine, oldContent, newContent).value;
    EditReadsBack(raw, startLine, oldContent, newContent);
    RestyledDetected(Normalize(written), DetectStyle(raw));
  }

  // ---------------------------------------------------------------------------
  // Locating the old content (the skill's `edit.py`)
  // ---------------------------------------------------------------------------

  /**
   The search loop of `_find_unique_start_line`: every index from `from` on
   where `t` occurs, ascending, overlapping occurrences included.
   */
  function Occurrences(s: string, t: string, from: nat): (occ: seq<nat>)
    decreases |s| + 1 - from
  {
    match Find(s, t, from)
    case None => []
    case Some(i) => [i] + Occurrences(s, t, i + 1)
  }

  /** Every index the search reports is an occurrence at or after `from`. */
  lemma {:induction false} OccurrencesSound(s: string, t: string, from: nat)
    ensures forall k :: 0 <= k < |Occurrences(s, t, from)| ==>
      from <= Occurrences(s, t, from)[k] && OccursAt(s, t, Occurrences(s, t, from)[k])
    decreases |s| + 1 - from
  {
    match Find(s, t, from)
    case None =>
    case Some(i) =>
      OccurrencesSound(s, t, i + 1);
      var rest := Occurrences(s, t, i + 1);
      var occ := [i] + rest;
      assert Occurrences(s, t, from) == occ;
      forall k | 0 <= k < |occ|
        ensures from <= occ[k] && OccursAt(s, t, occ[k])
      {
        if k == 0 {
          assert occ[k] == i;
        } else {
          assert occ[k] == rest[k - 1];
        }
      }
  }

  /** The search reports indices in strictly ascending order. */
  lemma {:induction false} OccurrencesAscending(s: string, t: string, from: nat)
    ensures forall k, l :: 0 <= k < l < |Occurrences(s, t, from)| ==>
      Occurrences(s, t, from)[k] < Occurrences(s, t, from)[l]
    decreases |s| + 1 - from
  {
    match Find(s, t, from)
    case None =>
    case Some(i) =>
      OccurrencesAscending(s, t, i + 1);
      OccurrencesSound(s, t, i + 1);
      var rest := Occurrences(s, t, i + 1);
      var occ := [i] + rest;
      assert Occurrences(s, t, from) == occ;
      forall k, l | 0 <= k < l < |occ|
        ensures occ[k] < occ[l]
      {
        assert occ[l] == rest[l - 1];
        if k == 0 {
          assert occ[k] == i;
        } else {
          assert occ[k] == rest[k - 1];
        }
      }
  }

  /** The search misses no occurrence at or after `from`, overlapping ones included. */
  lemma {:induction false} OccurrencesComplete(s: string, t: string, from: nat, j: nat)
    requires from <= j && OccursAt(s, t, j)
    ensures j in Occurrences(s, t, from)
    decreases |s| + 1 - from
  {
    match Find(s, t, from)
    case None =>
    case Some(i) =>
      if j > i {
        OccurrencesComplete(s, t, i + 1, j);
      }
  }

  /** The same search as the source's `while` loop over `find`. */
  method FindOccurrences(s: string, t: string) returns (occ: seq<nat>)
    ensures occ == Occurrences(s, t, 0)
  {
    occ := [];
    var start := 0;
    while true
      invariant start <= |s| + 1
      invariant occ + Occurrences(s, t, start) == Occurrences(s, t, 0)
      decreases |s| + 1 - start
    {
      var idx := Find(s, t, start);
      if idx.None? {
        break;
      }
      var rest := Occurrences(s, t, idx.value + 1);
      assert Occurrences(s, t, start) == [idx.value] + rest;
      assert (occ + [idx.value]) + rest == occ + ([idx.value] + rest);
      occ := occ + [idx.value];
      start := idx.value + 1;
    }
  }

  lemma OccurrencesCompleteAll(s: string, t: string)
    ensures forall j :: 0 <= j && OccursAt(s, t, j) ==> j in Occurrences(s, t, 0)
  {
    forall j | 0 <= j && OccursAt(s, t, j)
      ensures j in Occurrences(s, t, 0)
    {
      OccurrencesComplete(s, t, 0, j);
    }
  }

  /** `t` occurs in `s` at exactly one index. */
  predicate OccursOnce(s: string, t: string)
  {
    exists i :: 0 <= i <= |s| && OccursAt(s, t, i) && forall j :: 0 <= j <= |s| && OccursAt(s, t, j) ==> j == i
  }

  /** The number of LF in `s`. */
  function NewlineCount(s: string): nat
    decreases |s|
  {
    if s == [] then 0 else NewlineCount(s[..|s| - 1]) + (if s[|s| - 1] == LF then 1 else 0)
  }

  /** Counting LFs adds up over a concatenation. */
  lemma {:induction false} NewlineCountConcat(a: string, b: string)
    ensures NewlineCount(a + b) == NewlineCount(a) + NewlineCount(b)
    decreases |b|
  {
    if b != [] {
      assert (a + b)[..|a + b| - 1] == a + b[..|b| - 1];
      NewlineCountConcat(a, b[..|b| - 1]);
    } else {
      assert a + b == a;
    }
  }

  /**
   `_find_unique_start_line`: an empty old content is a ValueError, and a
   missing or repeated occurrence a mismatch; the line of the one occurrence
   is 1 plus the newlines before it.
   */
  function UniqueStartLine(fileNorm: string, oldNorm: string): (r: Outcome<int>)
    ensures r.Fail? ==> r.exc == ValueError || r.exc == EditMismatchError
    ensures r == Fail(ValueError) <==> oldNorm == []
    ensures r.Ok? <==> oldNorm != [] && OccursOnce(fileNorm, oldNorm)
    ensures r.Ok? ==> forall i :: OccursAt(fileNorm, oldNorm, i) ==> r.value == NewlineCount(fileNorm[..i]) + 1
  {
    if oldNorm == [] then Fail(ValueError)
    else
      var occ := Occurrences(fileNorm, oldNorm, 0);
      OccurrencesSound(fileNorm, oldNorm, 0);
      OccurrencesCompleteAll(fileNorm, oldNorm);
      if |occ| == 0 then Fail(EditMismatchError)
      else if |occ| > 1 then
        OccurrencesAscending(fileNorm, oldNorm, 0);
        assert OccursAt(fileNorm, oldNorm, occ[0]) && OccursAt(fileNorm, oldNorm, occ[1]);
        Fail(EditMismatchError)
      else
        assert forall j :: OccursAt(fileNorm, oldNorm, j) ==> j == occ[0];
        Ok(NewlineCount(fileNorm[..occ[0]]) + 1)
  }

  /** `apply_edit` of the skill: the file is read first, then the line located if omitted. */
  function ApplySkillEdit(disk: Option<string>, startLine: Option<int>, oldContent: string, newContent: string): (r: Outcome<string>)
    ensures disk.None? ==> r == Fail(OSError)
    ensures disk.Some? && startLine.None? && oldContent == [] ==> r == Fail(ValueError)
  {
    if disk.None? then Fail(OSError)
    else
      var start :=
        if startLine.Some? then Ok(startLine.value)
        else UniqueStartLine(Normalize(disk.value), Normalize(oldContent));
      match start
      case Fail(e) => Fail(e)
      case Ok(n) => EditText(disk.value, n, oldContent, newContent)
  }

  /** Given a line number and a readable file, the two variants edit alike. */
  lemma VariantsAgree(raw: string, startLine: int, oldContent: string, newContent: string)
    ensures ApplySkillEdit(Some(raw), Some(startLine), oldContent, newContent)
         == ApplyEdit(Some(raw), startLine, oldContent, newContent)
  {
    if startLine < 1 {
      assert Splice(ToLines(Normalize(raw)), startLine, ToLines(Normalize(oldContent)), ToLines(Normalize(newContent))) == Fail(ValueError);
    }
  }

  /** They differ in what a bad line number on an unreadable file reports. */
  lemma VariantsCheckInOtherOrder(startLine: int, oldContent: string, newContent: string)
    requires startLine < 1
    ensures ApplyEdit(None, startLine, oldContent, newContent) == Fail(ValueError)
    ensures ApplySkillEdit(None, Some(startLine), oldContent, newContent) == Fail(OSError)
  {
  }

  /**
   Where the piece of `f` before `i` ends: the line holding index `i` is the
   piece of the split numbered by the LFs before `i`, and it is `f[a..b]`.
   */
  lemma {:induction false} SplitLine(f: string, i: nat) returns (a: nat, b: nat)
    requires i <= |f|
    ensures NewlineCount(f[..i]) < |Split(f, LF)|
    ensures a <= i <= b <= |f|
    ensures Split(f, LF)[NewlineCount(f[..i])] == f[a..b]
    ensures a == 0 || f[a - 1] == LF
    ensures b == |f| || f[b] == LF
    decreases |f|
  {
    match IndexOf(f, LF)
    case None =>
      SplitLineNoLf(f, i);
      a, b := 0, |f|;
    case Some(p) =>
      IndexOfFirst(f, p);
      if i <= p {
        SplitLineFirst(f, p, i);
        a, b := 0, p;
      } else {
        var g := f[p + 1..];
        var a', b' := SplitLine(g, i - p - 1);
        var k := NewlineCount(g[..i - p - 1]);
        assert NewlineCount(f[..i]) == k + 1 by {
          CountPastFirst(f, p, i);
        }
        assert k + 1 < |Split(f, LF)| && Split(f, LF)[k + 1] == Split(g, LF)[k] by {
          SplitPastFirst(f, p, k);
        }
        a, b := ShiftPastFirst(f, p, g, a', b');
      }
  }

  /** Without an LF the whole text is the one line. */
  lemma SplitLineNoLf(f: string, i: nat)
    requires i <= |f| && LF !in f
    ensures NewlineCount(f[..i]) == 0 && Split(f, LF) == [f[0..|f|]]
  {
    assert LF !in f[..i];
    NoNewlineCount(f[..i]);
    assert f[0..|f|] == f;
  }

  /** Up to the first LF, the line is the first piece. */
  lemma SplitLineFirst(f: string, p: nat, i: nat)
    requires i <= p < |f| && f[p] == LF && LF !in f[..p]
    ensures NewlineCount(f[..i]) == 0 && Split(f, LF)[0] == f[0..p]
  {
    assert LF !in f[..i] by {
      assert f[..i] == f[..p][..i];
    }
    NoNewlineCount(f[..i]);
    SplitAt(f, LF, p);
    assert f[0..p] == f[..p];
  }

  /** The first LF found is the first LF there is. */
  lemma IndexOfFirst(f: string, p: nat)
    requires IndexOf(f, LF) == Some(p)
    ensures p < |f| && f[p] == LF && LF !in f[..p]
  {
  }

  /** A stretch of the text after the LF at `p`, shifted back into `f`, keeps its bounding LFs. */
  lemma ShiftPastFirst(f: string, p: nat, g: string, a': nat, b': nat) returns (a: nat, b: nat)
    requires p < |f| && f[p] == LF && g == f[p + 1..]
    requires a' <= b' <= |g|
    requires a' == 0 || g[a' - 1] == LF
    requires b' == |g| || g[b'] == LF
    ensures a == a' + p + 1 && b == b' + p + 1 && b <= |f|
    ensures f[a..b] == g[a'..b']
    ensures a == 0 || f[a - 1] == LF
    ensures b == |f| || f[b] == LF
  {
    a, b := a' + p + 1, b' + p + 1;
    ShiftSlice(f, p + 1, a', b');
  }

  lemma {:induction false} NoNewlineCount(s: string)
    requires LF !in s
    ensures NewlineCount(s) == 0
    decreases |s|
  {
    if s != [] {
      assert LF !in s[..|s| - 1] by {
        assert forall k :: 0 <= k < |s| - 1 ==> s[..|s| - 1][k] == s[k];
      }
      NoNewlineCount(s[..|s| - 1]);
    }
  }

  /** Positions in the suffix `f[d..]` are positions in `f` shifted by `d`. */
  lemma ShiftSlice(f: string, d: nat, a: nat, b: nat)
    requires d <= |f| && a <= b <= |f| - d
    ensures f[a + d..b + d] == f[d..][a..b]
    ensures a > 0 ==> f[a + d - 1] == f[d..][a - 1]
    ensures b < |f| - d ==> f[b + d] == f[d..][b]
  {
  }

  /** The pieces after the first are the pieces of the text after the first LF. */
  lemma SplitPastFirst(f: string, p: nat, k: nat)
    requires p < |f| && f[p] == LF && LF !in f[..p]
    requires k < |Split(f[p + 1..], LF)|
    ensures k + 1 < |Split(f, LF)| && Split(f, LF)[k + 1] == Split(f[p + 1..], LF)[k]
  {
    SplitAt(f, LF, p);
  }

  /** The LFs before `i` are the first one at `p` and those between `p` and `i`. */
  lemma CountPastFirst(f: string, p: nat, i: nat)
    requires p < i <= |f| && f[p] == LF && LF !in f[..p]
    ensures NewlineCount(f[..i]) == 1 + NewlineCount(f[p + 1..][..i - p - 1])
  {
    var rest := f[p + 1..][..i - p - 1];
    assert f[..i] == (f[..p] + [LF]) + rest;
    NewlineCountConcat(f[..p] + [LF], rest);
    NewlineCountConcat(f[..p], [LF]);
    NoNewlineCount(f[..p]);
    assert NewlineCount([LF]) == 1 by {
      assert [LF][..0] == [];
    }
  }

  /**
   An occurrence of the old content that begins inside a line gives a line
   number whose line is longer than the old content's first line, so the
   slice check fails.
   */
  lemma MidLineSliceMismatch(f: string, o: string, i: nat)
    requires o != [] && OccursAt(f, o, i)
    requires 0 < i && f[i - 1] != LF
    ensures NewlineCount(f[..i]) < |ToLines(f).lines|
    ensures !SliceMatches(ToLines(f).lines, NewlineCount(f[..i]), ToLines(o).lines)
  {
    var a, b := LineOfIndex(f, i);
    var first := FirstLineAt(f, o, i);
  }

  /** The line numbered by the LFs before a position inside a line is `f[a..b]`, begun before it. */
  lemma LineOfIndex(f: string, i: nat) returns (a: nat, b: nat)
    requires 0 < i < |f| && f[i - 1] != LF
    ensures NewlineCount(f[..i]) < |ToLines(f).lines|
    ensures a < i <= b <= |f|
    ensures ToLines(f).lines[NewlineCount(f[..i])] == f[a..b]
    ensures b == |f| || f[b] == LF
  {
    a, b := SplitLine(f, i);
    var k := NewlineCount(f[..i]);
    if f[|f| - 1] == LF {
      TerminatedLines(f);
      SplitTrailing(f);
      var init := Split(f[..|f| - 1], LF);
      assert Split(f, LF) == init + [[]];
      assert Split(f, LF)[k] == init[k];
    }
  }

  /** The first line of the old content, found at `i`, is the stretch of `f` from `i` up to the first LF. */
  lemma FirstLineAt(f: string, o: string, i: nat) returns (first: string)
    requires o != [] && OccursAt(f, o, i)
    ensures ToLines(o).lines != [] && ToLines(o).lines[0] == first
    ensures i + |first| <= |f| && first == f[i..i + |first|] && LF !in first
  {
    ToLinesRender(o);
    ToLinesWellFormed(o);
    first := Split(o, LF)[0];
    SplitHead(o, LF);
    if o[|o| - 1] == LF {
      TerminatedLines(o);
      SplitTrailing(o);
    }
    assert first == o[..|first|];
    assert o == f[i..i + |o|];
    assert f[i..i + |first|] == o[..|first|];
  }

  /** The first piece of a split is a prefix of the text. */
  lemma SplitHead(s: string, sep: char)
    ensures |Split(s, sep)[0]| <= |s| && Split(s, sep)[0] == s[..|Split(s, sep)[0]|]
  {
  }

  /**
   With the line omitted, an old content found once but in the middle of a
   line is reported as a mismatch.
   */
  lemma MidLineMatchFails(raw: string, oldContent: string, newContent: string, i: nat)
    requires var f := Normalize(raw); var o := Normalize(oldContent);
      o != [] && OccursOnce(f, o) && OccursAt(f, o, i) && 0 < i && f[i - 1] != LF
    ensures ApplySkillEdit(Some(raw), None, oldContent, newContent) == Fail(EditMismatchError)
  {
    var f := Normalize(raw);
    var o := Normalize(oldContent);
    MidLineSliceMismatch(f, o, i);
  }

  // ---------------------------------------------------------------------------
  // Exit status
  // ---------------------------------------------------------------------------

  /** The parsed command line; `None` is a usage error. */
  datatype Args = Args(filename: string, startLine: Option<int>, oldContent: string, newContent: string)

  /** `main`: 0 on success, 3 on a mismatch, 2 on any other error. */
  function ExitCode<T>(r: Outcome<T>): (code: int)
    ensures code == 0 <==> r.Ok?
    ensures code == 3 <==> r == Fail(EditMismatchError)
    ensures code == 0 || code == 2 || code == 3
  {
    match r
    case Ok(_) => 0
    case Fail(EditMismatchError) => 3
    case Fail(_) => 2
  }

  /** The skill's `main` on parsed arguments and the disk. */
  function SkillMain(args: Option<Args>, disk: Option<string>): (code: int)
    ensures args.None? ==> code == 2
    ensures args.Some? && disk.None? ==> code == 2
  {
    match args
    case None => 2
    case Some(a) => ExitCode(ApplySkillEdit(disk, a.startLine, a.oldContent, a.newContent))
  }
  // ---------------------------------------------------------------------------
  // Worked examples from the skill's tests
  // ---------------------------------------------------------------------------

  /** Restyling passes a line through and rewrites the LF after it. */
  lemma {:induction false} RestyleLine(line: string, rest: string, style: NewlineStyle)
    requires LF !in line
    ensures Restyle(line + [LF] + rest, style) == line + style.Text() + Restyle(rest, style)
    decreases |line|
  {
    var s := line + [LF] + rest;
    if line == [] {
      assert s[..1] == [LF] && s[1..] == rest;
    } else {
      assert s[..1] != [LF] by {
        assert s[..1][0] == line[0];
      }
      assert s[1..] == line[1..] + [LF] + rest;
      RestyleLine(line[1..], rest, style);
      assert line == [line[0]] + line[1..];
    }
  }

  /**
   Editing a file whose LF text is `norm`, written in `style`: the lines are
   spliced and written back in the same style.
   */
  lemma EditOfStyled(norm: string, style: NewlineStyle, startLine: int, oldContent: string, newContent: string,
                     file: LineText, oldText: LineText, newText: LineText)
    requires CR !in norm && CR !in oldContent && CR !in newContent
    requires LF in norm || style == Lf
    requires WellFormed(file) && WellFormed(oldText) && WellFormed(newText)
    requires Render(file) == norm && Render(oldText) == oldContent && Render(newText) == newContent
    ensures var r := Splice(file, startLine, oldText, newText);
      EditText(Restyle(norm, style), startLine, oldContent, newContent)
        == if r.Ok? then Ok(Restyle(Render(r.value), style)) else Fail(r.exc)
  {
    NormalizeRestyled(norm, style);
    if LF in norm {
      RestyledDetected(norm, style);
    } else {
      ReplaceCharAt(norm, LF, LF);
      assert Restyle(norm, style) == norm;
      DetectLfIffNoCr(norm);
    }
    NormalizeKeepsPlain(oldContent);
    NormalizeKeepsPlain(newContent);
    RenderToLines(file);
    RenderToLines(oldText);
    RenderToLines(newText);
  }

  /** LF text restyled as LF is itself. */
  lemma RestyleLf(s: string)
    ensures Restyle(s, Lf) == s
  {
    ReplaceCharAt(s, LF, LF);
  }

  /** A line of text: no LF and no CR in it. */
  predicate IsLine(a: string)
  {
    LF !in a && CR !in a
  }

  lemma RenderOne(a: string)
    requires IsLine(a)
    ensures Render(LineText([a], true)) == a + [LF]
    ensures WellFormed(LineText([a], true))
  {
  }

  lemma RenderTwo(a: string, b: string)
    requires IsLine(a) && IsLine(b)
    ensures Render(LineText([a, b], true)) == a + [LF] + b + [LF]
    ensures WellFormed(LineText([a, b], true))
  {
    assert [a, b][1..] == [b];
    assert Join([a, b], [LF]) == a + [LF] + b;
  }

  lemma RenderThree(a: string, b: string, c: string)
    requires IsLine(a) && IsLine(b) && IsLine(c)
    ensures Render(LineText([a, b, c], true)) == a + [LF] + b + [LF] + c + [LF]
    ensures WellFormed(LineText([a, b, c], true))
  {
    assert [a, b, c][1..] == [b, c];
    assert [b, c][1..] == [c];
    assert Join([b, c], [LF]) == b + [LF] + c;
  }

  /** The middle line of a three-line file replaced by another line. */
  lemma ReplacesMiddleLine(a: string, b: string, c: string, b2: string)
    requires IsLine(a) && IsLine(b) && IsLine(c) && IsLine(b2)
    ensures ApplyEdit(Some(a + [LF] + b + [LF] + c + [LF]), 2, b + [LF], b2 + [LF])
         == Ok(a + [LF] + b2 + [LF] + c + [LF])
  {
    var file := LineText([a, b, c], true);
    RenderThree(a, b, c);
    RenderThree(a, b2, c);
    RenderOne(b);
    RenderOne(b2);
    RestyleLf(a + [LF] + b + [LF] + c + [LF]);
    RestyleLf(a + [LF] + b2 + [LF] + c + [LF]);
    assert file.lines[1..2] == [b];
    assert file.lines[..1] + [b2] + file.lines[2..] == [a, b2, c];
    EditOfStyled(a + [LF] + b + [LF] + c + [LF], Lf, 2, b + [LF], b2 + [LF], file, LineText([b], true), LineText([b2], true));
  }

  /** A CRLF file keeps its CRLF newlines and its trailing newline. */
  lemma KeepsCrlf(a: string, b: string, b2: string)
    requires IsLine(a) && IsLine(b) && IsLine(b2)
    ensures ApplyEdit(Some(a + [CR, LF] + b + [CR, LF]), 2, b + [LF], b2 + [LF]) == Ok(a + [CR, LF] + b2 + [CR, LF])
  {
    var file := LineText([a, b], true);
    RenderTwo(a, b);
    RenderTwo(a, b2);
    RenderOne(b);
    RenderOne(b2);
    CrlfTwoLines(a, b);
    CrlfTwoLines(a, b2);
    assert file.lines[1..2] == [b];
    assert file.lines[..1] + [b2] + file.lines[2..] == [a, b2];
    EditOfStyled(a + [LF] + b + [LF], Crlf, 2, b + [LF], b2 + [LF], file, LineText([b], true), LineText([b2], true));
  }

  lemma CrlfTwoLines(a: string, b: string)
    requires IsLine(a) && IsLine(b)
    ensures Restyle(a + [LF] + b + [LF], Crlf) == a + [CR, LF] + b + [CR, LF]
  {
    assert Restyle([], Crlf) == [];
    assert Crlf.Text() == [CR, LF];
    RestyleLine(b, [], Crlf);
    assert b + [LF] + [] == b + [LF];
    assert Restyle(b + [LF], Crlf) == b + [CR, LF];
    RestyleLine(a, b + [LF], Crlf);
    assert a + [LF] + (b + [LF]) == a + [LF] + b + [LF];
  }

  /** Old content that is not at the given line is a mismatch: exit status 3. */
  lemma MismatchExitsThree(a: string, b: string, c: string, d: string)
    requires IsLine(a) && IsLine(b) && IsLine(c) && IsLine(d) && c != b
    ensures ExitCode(ApplyEdit(Some(a + [LF] + b + [LF]), 2, c + [LF], d + [LF])) == 3
  {
    var file := LineText([a, b], true);
    RenderTwo(a, b);
    RenderOne(c);
    RenderOne(d);
    RestyleLf(a + [LF] + b + [LF]);
    assert file.lines[1..2] == [b];
    EditOfStyled(a + [LF] + b + [LF], Lf, 2, c + [LF], d + [LF], file, LineText([c], true), LineText([d], true));
  }

  /** Empty old content at line 1 inserts before the first line. */
  lemma InsertsAtTop(a: string, b: string)
    requires IsLine(a) && IsLine(b)
    ensures ApplyEdit(Some(b + [LF]), 1, [], a + [LF]) == Ok(a + [LF] + b + [LF])
  {
    var file := LineText([b], true);
    RenderOne(b);
    RenderOne(a);
    RenderTwo(a, b);
    RestyleLf(b + [LF]);
    RestyleLf(a + [LF] + b + [LF]);
    assert file.lines[..0] + [a] + file.lines[0..] == [a, b];
    EditOfStyled(b + [LF], Lf, 1, [], a + [LF], file, LineText([], false), LineText([a], true));
  }

  /** An empty file takes the new content as it is. */
  lemma FillsEmptyFile(h: string)
    requires IsLine(h)
    ensures ApplyEdit(Some([]), 1, [], h + [LF]) == Ok(h + [LF])
  {
    RenderOne(h);
    RestyleLf([]);
    RestyleLf(h + [LF]);
    assert [] + [h] + [] == [h];
    EditOfStyled([], Lf, 1, [], h + [LF], LineText([], false), LineText([], false), LineText([h], true));
  }

  /** With the line omitted, a line found exactly once is located and edited. */
  lemma LocatesUniqueMatch(a: char, b: char, c: char, b2: char)
    requires IsLine([a]) && IsLine([b]) && IsLine([c]) && IsLine([b2]) && b != a && b != c
    ensures ApplySkillEdit(Some([a] + [LF] + [b] + [LF] + [c] + [LF]), None, [b] + [LF], [b2] + [LF])
         == Ok([a] + [LF] + [b2] + [LF] + [c] + [LF])
  {
    var f := [a] + [LF] + [b] + [LF] + [c] + [LF];
    NormalizeKeepsPlain(f);
    NormalizeKeepsPlain([b] + [LF]);
    MiddleLineOnce(a, b, c);
    assert ApplySkillEdit(Some(f), None, [b] + [LF], [b2] + [LF]) == EditText(f, 2, [b] + [LF], [b2] + [LF]);
    ReplacesMiddleLine([a], [b], [c], [b2]);
  }

  lemma MiddleLineOnce(a: char, b: char, c: char)
    requires b != a && b != c && a != LF && b != LF
    ensures UniqueStartLine([a] + [LF] + [b] + [LF] + [c] + [LF], [b] + [LF]) == Ok(2)
  {
    var f := [a] + [LF] + [b] + [LF] + [c] + [LF];
    assert |f| == 6 && f[0] == a && f[1] == LF && f[2] == b && f[3] == LF && f[4] == c && f[5] == LF;
    assert f[2..4] == [b] + [LF];
    assert f[..2] == [a, LF];
    forall j | 0 <= j <= |f| && OccursAt(f, [b] + [LF], j)
      ensures j == 2
    {
      assert f[j] == f[j..j + 2][0] == b;
      assert f[j + 1] == f[j..j + 2][1] == LF;
    }
    assert NewlineCount(f[..2]) == 1 by {
      assert f[..2][..1] == [a] && [a][..0] == [];
      assert NewlineCount([a]) == 0;
    }
    assert OccursAt(f, [b] + [LF], 2);
    assert OccursOnce(f, [b] + [LF]);
  }

  /** With the line omitted, old content that occurs twice is a mismatch: exit status 3. */
  lemma AmbiguousMatchExitsThree(x: string, y: string, x2: string, y2: string)
    requires IsLine(x) && IsLine(y)
    ensures var twice := x + [LF] + y + [LF];
      ExitCode(ApplySkillEdit(Some(twice + twice), None, twice, x2 + [LF] + y2 + [LF])) == 3
  {
    var twice := x + [LF] + y + [LF];
    NormalizeKeepsPlain(twice + twice);
    NormalizeKeepsPlain(twice);
    assert OccursAt(twice + twice, twice, 0) && OccursAt(twice + twice, twice, |twice|);
  }

  /** With the line omitted, empty old content is an error: exit status 2. */
  lemma OmittedLineNeedsOldContent()
    ensures SkillMain(Some(Args("a.txt", None, "", "a\n")), Some("b\n")) == 2
  {
  }
}
