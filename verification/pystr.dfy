/**
 The pieces of Python's `str` behaviour the modelled code relies on:
 whitespace stripping (the `str.isspace` character set), prefix and substring
 tests, splitting on one separator character, joining, whitespace-run
 splitting, and decimal integer rendering and parsing.
 */
module PyStr {
  import opened Wrappers

  /** The characters for which Python's `str.isspace()` is true. */
  predicate IsSpace(c: char)
  {
    var n := c as int;
    (9 <= n <= 13) || (28 <= n <= 32) || n == 0x85 || n == 0xA0 || n == 0x1680
    || (0x2000 <= n <= 0x200A) || n == 0x2028 || n == 0x2029 || n == 0x202F
    || n == 0x205F || n == 0x3000
  }

  predicate AllSpace(s: string)
  {
    forall i :: 0 <= i < |s| ==> IsSpace(s[i])
  }

  predicate NoSpace(s: string)
  {
    forall i :: 0 <= i < |s| ==> !IsSpace(s[i])
  }

  /** `s.lstrip()`. */
  function LStrip(s: string): (r: string)
    ensures |r| <= |s| && r == s[|s| - |r|..]
    ensures AllSpace(s[..|s| - |r|])
    ensures r == [] || !IsSpace(r[0])
  {
    if |s| > 0 && IsSpace(s[0]) then
      var r := LStrip(s[1..]);
      assert s[..|s| - |r|] == [s[0]] + s[1..][..|s| - 1 - |r|];
      r
    else s
  }

  /** `s.rstrip()`. */
  function RStrip(s: string): (r: string)
    ensures |r| <= |s| && r == s[..|r|]
    ensures AllSpace(s[|r|..])
    ensures r == [] || !IsSpace(r[|r| - 1])
  {
    if |s| > 0 && IsSpace(s[|s| - 1]) then
      var r := RStrip(s[..|s| - 1]);
      assert s[|r|..] == s[..|s| - 1][|r|..] + [s[|s| - 1]];
      r
    else s
  }

  /** `s.strip()`: the longest infix with no surrounding whitespace. */
  function Strip(s: string): (r: string)
    ensures exists i :: (0 <= i <= |s| - |r| && r == s[i..i + |r|]
                         && AllSpace(s[..i]) && AllSpace(s[i + |r|..]))
    ensures r == [] || (!IsSpace(r[0]) && !IsSpace(r[|r| - 1]))
  {
    var l := LStrip(s);
    var r := RStrip(l);
    StripWitness(s, l, r);
    r
  }

  /** Stripping the left run and then the right run leaves a middle slice between two blank runs. */
  lemma StripWitness(s: string, l: string, r: string)
    requires |l| <= |s| && l == s[|s| - |l|..] && AllSpace(s[..|s| - |l|])
    requires |r| <= |l| && r == l[..|r|] && AllSpace(l[|r|..])
    ensures exists i :: (0 <= i <= |s| - |r| && r == s[i..i + |r|]
                         && AllSpace(s[..i]) && AllSpace(s[i + |r|..]))
  {
    var i := |s| - |l|;
    assert r == s[i..i + |r|];
    assert s[i + |r|..] == l[|r|..];
  }

  lemma LStripEmptyIffAllSpace(s: string)
    ensures LStrip(s) == [] <==> AllSpace(s)
  {
    if LStrip(s) == [] {
      assert s[..|s|] == s;
    }
  }

  lemma StripEmptyIffAllSpace(s: string)
    ensures Strip(s) == [] <==> AllSpace(s)
  {
    var l := LStrip(s);
    LStripEmptyIffAllSpace(s);
    if l != [] {
      assert l[0..] == l;
    }
  }

  lemma StripIdempotent(s: string)
    ensures Strip(Strip(s)) == Strip(s)
  {
    var r := Strip(s);
    if r != [] {
      assert !IsSpace(r[0]) && !IsSpace(r[|r| - 1]);
      assert LStrip(r) == r;
      assert RStrip(r) == r;
    }
  }

  /** A string with no whitespace at either end strips to itself. */
  lemma StripTrimmed(s: string)
    requires s == [] || (!IsSpace(s[0]) && !IsSpace(s[|s| - 1]))
    ensures LStrip(s) == s && RStrip(s) == s && Strip(s) == s
  {
  }

  /** The same, without mentioning `Strip`: both one-sided strips leave such a string alone. */
  lemma EndsTrimmed(s: string)
    requires s == [] || (!IsSpace(s[0]) && !IsSpace(s[|s| - 1]))
    ensures LStrip(s) == s && RStrip(s) == s
  {
  }

  predicate StartsWith(s: string, p: string)
  {
    |p| <= |s| && s[..|p|] == p
  }

  predicate EndsWith(s: string, p: string)
  {
    |p| <= |s| && s[|s| - |p|..] == p
  }

  /** A concatenation starts with its first part and ends with its last. */
  lemma AffixesOfConcat(a: string, b: string)
    ensures StartsWith(a + b, a) && EndsWith(a + b, b)
  {
    assert (a + b)[..|a|] == a;
    assert (a + b)[|a|..] == b;
  }

  /** Appending keeps a prefix; prepending keeps a suffix. */
  lemma AffixesExtend(s: string, p: string, t: string)
    ensures StartsWith(s, p) ==> StartsWith(s + t, p)
    ensures EndsWith(s, p) ==> EndsWith(t + s, p)
  {
    if StartsWith(s, p) {
      assert (s + t)[..|p|] == s[..|p|];
    }
    if EndsWith(s, p) {
      assert (t + s)[|t + s| - |p|..] == s[|s| - |p|..];
    }
  }

  predicate OccursAt(s: string, t: string, i: int)
  {
    0 <= i && i + |t| <= |s| && s[i..i + |t|] == t
  }

  /** Python's `t in s`. */
  predicate Contains(s: string, t: string)
  {
    exists i :: 0 <= i <= |s| - |t| && OccursAt(s, t, i)
  }

  predicate ContainsChar(s: string, c: char)
  {
    exists i :: 0 <= i < |s| && s[i] == c
  }

  /** `s.find(t, start)`: the least occurrence index at or after `start`. */
  function Find(s: string, t: string, start: nat): (r: Option<nat>)
    decreases |s| - start
    ensures r.Some? ==> start <= r.value && OccursAt(s, t, r.value)
    ensures r.Some? ==> forall j :: start <= j < r.value ==> !OccursAt(s, t, j)
    ensures r.None? ==> forall j :: start <= j ==> !OccursAt(s, t, j)
  {
    if start + |t| > |s| then None
    else if s[start..start + |t|] == t then Some(start)
    else Find(s, t, start + 1)
  }

  lemma FindSomeIffContains(s: string, t: string)
    ensures Find(s, t, 0).Some? <==> Contains(s, t)
  {
    if Contains(s, t) {
      var i :| OccursAt(s, t, i);
    }
  }

  /** Index of the first occurrence of `c`, if any. */
  function IndexOf(s: string, c: char): (r: Option<nat>)
    ensures r.Some? ==> r.value < |s| && s[r.value] == c && c !in s[..r.value]
    ensures r.None? <==> c !in s
  {
    if |s| == 0 then None
    else if s[0] == c then Some(0)
    else match IndexOf(s[1..], c)
      case None => None
      case Some(k) => assert s[1..][..k] == s[1..k + 1]; Some(k + 1)
  }

  lemma {:induction false} IndexOfAt(s: string, c: char, i: nat)
    requires i < |s| && s[i] == c && c !in s[..i]
    ensures IndexOf(s, c) == Some(i)
    decreases i
  {
    if i > 0 {
      assert s[..i][0] == s[0];
      assert s[1..][..i - 1] == s[..i][1..];
      IndexOfAt(s[1..], c, i - 1);
    }
  }

  /** `s.split(sep)` for a one-character separator. */
  function Split(s: string, sep: char): (parts: seq<string>)
    ensures |parts| >= 1
    ensures forall k :: 0 <= k < |parts| ==> sep !in parts[k]
    ensures sep !in s ==> parts == [s]
  {
    match IndexOf(s, sep)
    case None => [s]
    case Some(i) => [s[..i]] + Split(s[i + 1..], sep)
  }

  /** `sep.join(parts)`. */
  function Join(parts: seq<string>, sep: string): string
  {
    if |parts| == 0 then ""
    else if |parts| == 1 then parts[0]
    else parts[0] + sep + Join(parts[1..], sep)
  }

  /** A sequence is the part before an index, the element there, and the part after it. */
  lemma SplitAround<T>(s: seq<T>, i: nat)
    requires i < |s|
    ensures s == s[..i] + [s[i]] + s[i + 1..]
  {
  }

  lemma {:induction false} JoinSplit(s: string, sep: char)
    ensures Join(Split(s, sep), [sep]) == s
    decreases |s|
  {
    match IndexOf(s, sep)
    case None =>
    case Some(i) =>
      var rest := Split(s[i + 1..], sep);
      assert Split(s, sep) == [s[..i]] + rest;
      assert Join([s[..i]] + rest, [sep]) == s[..i] + [sep] + Join(rest, [sep]) by {
        assert ([s[..i]] + rest)[1..] == rest;
      }
      JoinSplit(s[i + 1..], sep);
      SplitAround(s, i);
  }

  lemma {:induction false} SplitJoin(parts: seq<string>, sep: char)
    requires |parts| >= 1
    requires forall k :: 0 <= k < |parts| ==> sep !in parts[k]
    ensures Split(Join(parts, [sep]), sep) == parts
    decreases |parts|
  {
    if |parts| == 1 {
    } else {
      var rest := Join(parts[1..], [sep]);
      var s := parts[0] + [sep] + rest;
      assert s[..|parts[0]|] == parts[0];
      assert s[|parts[0]|] == sep;
      assert IndexOf(s, sep) == Some(|parts[0]|) by {
        var r := IndexOf(s, sep);
        assert r.Some?;

      }
      assert s[|parts[0]| + 1..] == rest;
      SplitJoin(parts[1..], sep);
    }
  }

  lemma {:induction false} JoinAppend(a: seq<string>, b: seq<string>, sep: string)
    requires |a| >= 1 && |b| >= 1
    ensures Join(a + b, sep) == Join(a, sep) + sep + Join(b, sep)
    decreases |a|
  {
    if |a| == 1 {
      assert (a + b)[1..] == b;
    } else {
      assert (a + b)[1..] == a[1..] + b;
      JoinAppend(a[1..], b, sep);
    }
  }

  lemma {:induction false} SplitAppend(a: string, b: string, sep: char)
    ensures Split(a + [sep] + b, sep) == Split(a, sep) + Split(b, sep)
    decreases |a|
  {
    var s := a + [sep] + b;
    match IndexOf(a, sep)
    case None =>
      assert s[..|a|] == a && s[|a| + 1..] == b;
      SplitAt(s, sep, |a|);
    case Some(i) =>
      assert s[..i] == a[..i] && s[i + 1..] == a[i + 1..] + [sep] + b;
      SplitAt(s, sep, i);
      SplitAppend(a[i + 1..], b, sep);
      assert [a[..i]] + Split(a[i + 1..], sep) + Split(b, sep) == [a[..i]] + (Split(a[i + 1..], sep) + Split(b, sep));
  }

  /** Splitting at the first separator, found at `i`. */
  lemma SplitAt(s: string, sep: char, i: nat)
    requires i < |s| && s[i] == sep && sep !in s[..i]
    ensures Split(s, sep) == [s[..i]] + Split(s[i + 1..], sep)
  {
    IndexOfAt(s, sep, i);
  }

  /** Non-empty, with no whitespace at either end: what `strip` leaves of a non-blank string. */
  predicate IsTrimmed(k: string)
  {
    k != [] && !IsSpace(k[0]) && !IsSpace(k[|k| - 1])
  }

  /** One part as `[p.strip() for p in parts if p.strip()]` keeps it: its stripped form, or nothing when that is empty. */
  function KeepStripped(part: string): (ks: seq<string>)
    ensures forall i :: 0 <= i < |ks| ==> IsTrimmed(ks[i])
  {
    if Strip(part) != [] then [Strip(part)] else []
  }

  /** A trimmed part is kept as it is. */
  lemma KeepTrimmed(k: string)
    requires IsTrimmed(k)
    ensures KeepStripped(k) == [k]
  {
    assert LStrip(k) == k;
    assert RStrip(k) == k;
  }

  /** The stripped, non-blank parts of `parts`, in order. */
  function KeptParts(parts: seq<string>): (ks: seq<string>)
    ensures |ks| <= |parts|
    ensures forall i :: 0 <= i < |ks| ==> IsTrimmed(ks[i])
  {
    if parts == [] then [] else KeepStripped(parts[0]) + KeptParts(parts[1..])
  }

  /** `[p.strip() for p in s.split(sep) if p.strip()]`. */
  function StrippedParts(s: string, sep: char): (ks: seq<string>)
    ensures forall i :: 0 <= i < |ks| ==> IsTrimmed(ks[i])
  {
    KeptParts(Split(s, sep))
  }

  /** Parts that are already trimmed are kept as they are. */
  lemma {:induction false} KeptPartsOfTrimmed(ks: seq<string>)
    requires forall i :: 0 <= i < |ks| ==> IsTrimmed(ks[i])
    ensures KeptParts(ks) == ks
    decreases |ks|
  {
    if ks != [] {
      KeepTrimmed(ks[0]);
      TailTrimmed(ks);
      KeptPartsOfTrimmed(ks[1..]);
      calc {
        KeptParts(ks);
        KeepStripped(ks[0]) + KeptParts(ks[1..]);
        [ks[0]] + ks[1..];
        ks;
      }
    }
  }

  lemma TailTrimmed(ks: seq<string>)
    requires ks != []
    requires forall i :: 0 <= i < |ks| ==> IsTrimmed(ks[i])
    ensures forall i :: 0 <= i < |ks[1..]| ==> IsTrimmed(ks[1..][i])
  {
    forall i | 0 <= i < |ks[1..]|
      ensures IsTrimmed(ks[1..][i])
    {
      assert ks[1..][i] == ks[i + 1];
    }
  }

  /** A list of trimmed parts joined with the separator splits back into the same list. */
  lemma StrippedPartsJoin(ks: seq<string>, sep: char)
    requires |ks| >= 1
    requires forall i :: 0 <= i < |ks| ==> IsTrimmed(ks[i]) && sep !in ks[i]
    ensures StrippedParts(Join(ks, [sep]), sep) == ks
  {
    SplitJoin(ks, sep);
    KeptPartsOfTrimmed(ks);
  }

  /** `s.split()` with no argument: the maximal runs of non-whitespace. */
  function SplitWhitespace(s: string): (words: seq<string>)
    ensures forall k :: 0 <= k < |words| ==> words[k] != [] && NoSpace(words[k])
    decreases |s|
  {
    var t := LStrip(s);
    if t == [] then []
    else
      var w := LeadingWord(t);
      var rest := SplitWhitespace(t[|w|..]);
      WordsCons(w, rest);
      [w] + rest
  }

  /** Adding a word in front of a list of words gives a list of words. */
  lemma WordsCons(w: string, rest: seq<string>)
    requires w != [] && NoSpace(w)
    requires forall k :: 0 <= k < |rest| ==> rest[k] != [] && NoSpace(rest[k])
    ensures forall k :: 0 <= k < |[w] + rest| ==> ([w] + rest)[k] != [] && NoSpace(([w] + rest)[k])
  {
    forall k | 0 <= k < |[w] + rest|
      ensures ([w] + rest)[k] != [] && NoSpace(([w] + rest)[k])
    {
      if k > 0 {
        assert ([w] + rest)[k] == rest[k - 1];
      }
    }
  }

  /** The leading non-whitespace run of a string that starts with a non-space. */
  function LeadingWord(t: string): (w: string)
    requires t != [] && !IsSpace(t[0])
    ensures w != [] && NoSpace(w) && |w| <= |t| && w == t[..|w|]
  {
    t[..WordLen(t)]
  }

  /** Length of the leading non-whitespace run of a string. */
  function WordLen(t: string): (n: nat)
    ensures n <= |t|
    ensures forall i :: 0 <= i < n ==> !IsSpace(t[i])
    ensures n < |t| ==> IsSpace(t[n])
  {
    if |t| == 0 || IsSpace(t[0]) then 0 else 1 + WordLen(t[1..])
  }

  /** `" ".join(s.split())`: whitespace runs collapsed to one space and trimmed. */
  function CollapseWhitespace(s: string): (r: string)
  {
    Join(SplitWhitespace(s), " ")
  }

  lemma {:induction false} CollapseHasNoSpaceButBlank(s: string)
    ensures forall i :: (0 <= i < |CollapseWhitespace(s)| && IsSpace(CollapseWhitespace(s)[i])
                         ==> CollapseWhitespace(s)[i] == ' ')
  {
    JoinedOnlySpaces(SplitWhitespace(s));
  }

  lemma {:induction false} JoinedOnlySpaces(words: seq<string>)
    requires forall k :: 0 <= k < |words| ==> NoSpace(words[k])
    ensures forall i :: (0 <= i < |Join(words, " ")| && IsSpace(Join(words, " ")[i])
                         ==> Join(words, " ")[i] == ' ')
    decreases |words|
  {
    if |words| >= 2 {
      JoinedOnlySpaces(words[1..]);
      var j := Join(words, " ");
      forall i | 0 <= i < |j| && IsSpace(j[i]) ensures j[i] == ' ' {
        if i > |words[0]| {
          assert j[i] == Join(words[1..], " ")[i - |words[0]| - 1];
        }
      }
    }
  }

  // ---------------------------------------------------------------------
  // ASCII case mapping

  function LowerChar(c: char): char
  {
    if 'A' <= c <= 'Z' then (c as int + 32) as char else c
  }

  function UpperChar(c: char): char
  {
    if 'a' <= c <= 'z' then (c as int - 32) as char else c
  }

  function Lower(s: string): (r: string)
    ensures |r| == |s| && forall i :: 0 <= i < |s| ==> r[i] == LowerChar(s[i])
  {
    seq(|s|, i requires 0 <= i < |s| => LowerChar(s[i]))
  }

  function Upper(s: string): (r: string)
    ensures |r| == |s| && forall i :: 0 <= i < |s| ==> r[i] == UpperChar(s[i])
  {
    seq(|s|, i requires 0 <= i < |s| => UpperChar(s[i]))
  }

  // ---------------------------------------------------------------------
  // Decimal integers

  predicate IsDigit(c: char) { '0' <= c <= '9' }

  predicate AllDigits(s: string)
  {
    forall i :: 0 <= i < |s| ==> IsDigit(s[i])
  }

  function DigitChar(d: nat): char
    requires d < 10
  {
    ('0' as int + d) as char
  }

  function DigitValue(c: char): nat
    requires IsDigit(c)
  {
    c as int - '0' as int
  }

  /** The decimal digits of a natural number, without leading zeros. */
  function NatToDigits(n: nat): (s: string)
    ensures |s| >= 1 && AllDigits(s)
    ensures |s| > 1 ==> s[0] != '0'
    ensures DigitsValue(s) == n
  {
    if n < 10 then [DigitChar(n)]
    else
      var p := NatToDigits(n / 10);
      DigitsValueSnoc(p, DigitChar(n % 10));
      p + [DigitChar(n % 10)]
  }

  /** The value of a string of decimal digits. */
  function DigitsValue(s: string): nat
    requires AllDigits(s)
  {
    if |s| == 0 then 0 else 10 * DigitsValue(s[..|s| - 1]) + DigitValue(s[|s| - 1])
  }

  lemma DigitsValueSnoc(s: string, c: char)
    requires AllDigits(s) && IsDigit(c)
    ensures AllDigits(s + [c]) && DigitsValue(s + [c]) == 10 * DigitsValue(s) + DigitValue(c)
  {
    assert (s + [c])[..|s|] == s;
  }

  /** Python's `str(n)` for an int. */
  function IntToStr(n: int): (s: string)
    ensures |s| >= 1
    ensures n >= 0 ==> AllDigits(s) && DigitsValue(s) == n
    ensures n < 0 ==> s[0] == '-' && AllDigits(s[1..]) && DigitsValue(s[1..]) == -n
  {
    if n >= 0 then NatToDigits(n) else "-" + NatToDigits(-n)
  }

  /**
   Python's `int(s)` on the forms the model needs: optional surrounding
   whitespace, an optional sign, and a non-empty run of ASCII digits with
   single underscores allowed between digits.
   */
  function ParseInt(s: string): (r: Option<int>)
  {
    ParseSigned(Strip(s))
  }

  /** `int(t)` for text already stripped: an optional sign, then the digits. */
  function ParseSigned(t: string): (r: Option<int>)
  {
    if |t| == 0 then None
    else if t[0] == '-' || t[0] == '+' then
      match ParseUnsigned(t[1..])
      case None => None
      case Some(v) =>
        var x: int := if t[0] == '-' then -(v as int) else v as int;
        Some(x)
    else ParseUnsigned(t)
  }

  /** Digits with optional single underscores between them. */
  function ParseUnsigned(t: string): (r: Option<nat>)
    ensures AllDigits(t) && |t| > 0 ==> r == Some(DigitsValue(t))
  {
    if |t| == 0 || !IsDigit(t[0]) || !IsDigit(t[|t| - 1]) then None
    else if AllDigits(t) then Some(DigitsValue(t))
    else if (exists i :: 0 < i < |t| && t[i] == '_' && t[i - 1] == '_') then None
    else if !(forall i :: 0 <= i < |t| ==> IsDigit(t[i]) || t[i] == '_') then None
    else Some(DigitsValue(RemoveUnderscores(t)))
  }

  function RemoveUnderscores(t: string): (r: string)
    requires forall i :: 0 <= i < |t| ==> IsDigit(t[i]) || t[i] == '_'
    ensures AllDigits(r)
  {
    if |t| == 0 then [] else (if t[0] == '_' then [] else [t[0]]) + RemoveUnderscores(t[1..])
  }

  lemma IntToStrRoundTrip(n: int)
    ensures ParseInt(IntToStr(n)) == Some(n)
  {
    var s := IntToStr(n);
    assert !IsSpace(s[0]);
    assert !IsSpace(s[|s| - 1]) by {
      if n >= 0 { assert IsDigit(s[|s| - 1]); } else { assert IsDigit(s[1..][|s| - 2]); }
    }
    assert LStrip(s) == s;
    assert RStrip(s) == s;
    if n < 0 {
      assert s[1..] == NatToDigits(-n);
    }
  }

  lemma IntToStrInjective(a: int, b: int)
    requires IntToStr(a) == IntToStr(b)
    ensures a == b
  {
    IntToStrRoundTrip(a);
    IntToStrRoundTrip(b);
  }

  /** `10^k`. */
  function Pow10(k: nat): (r: nat)
    ensures r >= 1
  {
    if k == 0 then 1 else 10 * Pow10(k - 1)
  }

  function Zeros(k: nat): (r: string)
    ensures |r| == k && AllDigits(r) && DigitsValue(r) == 0
  {
    if k == 0 then [] else
      var z := Zeros(k - 1);
      DigitsValueSnoc(z, '0');
      z + ['0']
  }

  /** Leading zeros do not change the value of a digit string. */
  lemma {:induction false} LeadingZeros(k: nat, s: string)
    requires AllDigits(s)
    ensures AllDigits(Zeros(k) + s) && DigitsValue(Zeros(k) + s) == DigitsValue(s)
    decreases |s|
  {
    if |s| == 0 {
      assert Zeros(k) + s == Zeros(k);
    } else {
      var init := s[..|s| - 1];
      LeadingZeros(k, init);
      assert Zeros(k) + s == (Zeros(k) + init) + [s[|s| - 1]];
      DigitsValueSnoc(Zeros(k) + init, s[|s| - 1]);
      DigitsValueSnoc(init, s[|s| - 1]);
      assert s == init + [s[|s| - 1]];
    }
  }

  /** A number below 10^k has at most k digits. */
  lemma {:induction false} DigitsFit(n: nat, k: nat)
    requires n < Pow10(k)
    ensures |NatToDigits(n)| <= k || (n == 0 && k == 0)
  {
    if n >= 10 {
      DigitsFit(n / 10, k - 1);
    }
  }

  /** `f"{n:0{width}d}"` for a non-negative n: the digits, left-padded with zeros to `width`. */
  function ZeroPad(n: nat, width: nat): (r: string)
    ensures AllDigits(r) && DigitsValue(r) == n
    ensures |r| >= width && |r| >= 1
    ensures 0 < width && n < Pow10(width) ==> |r| == width
    ensures |r| > width ==> r == NatToDigits(n)
  {
    var d := NatToDigits(n);
    LeadingZeros(if |d| < width then width - |d| else 0, d);
    assert 0 < width && n < Pow10(width) ==> |d| <= width by {
      if 0 < width && n < Pow10(width) {
        DigitsFit(n, width);
      }
    }
    if |d| < width then Zeros(width - |d|) + d else d
  }

  /** Python's `a <= b` on strings: lexicographic by code point, a prefix first. */
  predicate StrLe(a: string, b: string)
  {
    a == [] || (b != [] && (a[0] < b[0] || (a[0] == b[0] && StrLe(a[1..], b[1..]))))
  }

  lemma {:induction false} StrLeTotal(a: string, b: string)
    ensures StrLe(a, b) || StrLe(b, a)
  {
    if a != [] && b != [] && a[0] == b[0] {
      StrLeTotal(a[1..], b[1..]);
    }
  }

  lemma {:induction false} StrLeTransitive(a: string, b: string, c: string)
    requires StrLe(a, b) && StrLe(b, c)
    ensures StrLe(a, c)
  {
    if a != [] && a[0] == b[0] && b[0] == c[0] {
      StrLeTransitive(a[1..], b[1..], c[1..]);
    }
  }

  lemma {:induction false} StrLeAntisymmetric(a: string, b: string)
    requires StrLe(a, b) && StrLe(b, a)
    ensures a == b
  {
    if a != [] {
      StrLeAntisymmetric(a[1..], b[1..]);
      assert a == [a[0]] + a[1..] && b == [b[0]] + b[1..];
    }
  }

  // ---------------------------------------------------------------------------
  // Replacing substrings
  // ---------------------------------------------------------------------------

  /** `s.replace(pat, rep)`: every occurrence, leftmost first, not overlapping. */
  function ReplaceAll(s: string, pat: string, rep: string): (r: string)
    requires pat != []
    decreases |s|
  {
    if |s| < |pat| then s
    else if s[..|pat|] == pat then rep + ReplaceAll(s[|pat|..], pat, rep)
    else [s[0]] + ReplaceAll(s[1..], pat, rep)
  }

  /** Replacing one character by another acts position by position. */
  lemma {:induction false} ReplaceCharAt(s: string, c: char, d: char)
    ensures |ReplaceAll(s, [c], [d])| == |s|
    ensures forall i :: 0 <= i < |s| ==> ReplaceAll(s, [c], [d])[i] == if s[i] == c then d else s[i]
    decreases |s|
  {
    if |s| >= 1 {
      ReplaceCharAt(s[1..], c, d);
    }
  }

  /** A string that misses a character of the pattern has nothing to replace. */
  lemma {:induction false} AbsentUnchanged(s: string, pat: string, rep: string, c: char)
    requires pat != [] && c in pat && c !in s
    ensures ReplaceAll(s, pat, rep) == s
    decreases |s|
  {
    if |s| >= |pat| {
      assert c !in s[..|pat|];
      AbsentUnchanged(s[1..], pat, rep, c);
    }
  }

  /** A first character that cannot start the pattern is copied. */
  lemma ReplaceHeadMiss(x: string, pat: string, rep: string)
    requires pat != [] && x != [] && x[0] != pat[0]
    ensures ReplaceAll(x, pat, rep) == [x[0]] + ReplaceAll(x[1..], pat, rep)
  {
    if |x| >= |pat| {
      assert x[..|pat|][0] == x[0];
    }
  }
}
