/**
 Memory record ids (core/src/k/agent/memory/entities.py): a 48-bit POSIX
 millisecond timestamp written as 8 characters of 6 bits each, most
 significant first, over an alphabet listed in ascending ASCII order, so that
 string order is time order. This is deliberately not RFC 4648 base64url.
 */
module MemoryIds {
  import opened Wrappers

  /** The id alphabet, in ascending ASCII order (written in chunks; the concatenation is the 64-character literal). */
  const Alphabet: string :=
    "-" + "0123456789" + "ABCDEFGHIJKLM" + "NOPQRSTUVWXYZ" + "_" + "abcdefghijklm" + "nopqrstuvwxyz"

  /** 2^48, the exclusive upper bound of encodable milliseconds. */
  const Limit: nat := 0x1_0000_0000_0000

  function Pow64(n: nat): (p: nat)
    ensures p >= 1
  {
    if n == 0 then 1 else 64 * Pow64(n - 1)
  }

  /** The alphabet's character for a 6-bit digit, stated by ranges. */
  function DigitChar(d: nat): char
    requires d < 64
  {
    if d == 0 then '-'
    else if d <= 10 then ('0' as int + d - 1) as char
    else if d <= 36 then ('A' as int + d - 11) as char
    else if d == 37 then '_'
    else ('a' as int + d - 38) as char
  }

  /** The alphabet literal is the range description above, position by position. */
  lemma AlphabetByRanges()
    ensures |Alphabet| == 64
    ensures forall d :: 0 <= d < 64 ==> Alphabet[d] == DigitChar(d)
  {
    forall d | 0 <= d < 64 ensures Alphabet[d] == DigitChar(d) {
      if d == 0 { assert Alphabet[0] == '-'; }
      else if d == 1 { assert Alphabet[1] == '0'; }
      else if d == 2 { assert Alphabet[2] == '1'; }
      else if d == 3 { assert Alphabet[3] == '2'; }
      else if d == 4 { assert Alphabet[4] == '3'; }
      else if d == 5 { assert Alphabet[5] == '4'; }
      else if d == 6 { assert Alphabet[6] == '5'; }
      else if d == 7 { assert Alphabet[7] == '6'; }
      else if d == 8 { assert Alphabet[8] == '7'; }
      else if d == 9 { assert Alphabet[9] == '8'; }
      else if d == 10 { assert Alphabet[10] == '9'; }
      else if d == 11 { assert Alphabet[11] == 'A'; }
      else if d == 12 { assert Alphabet[12] == 'B'; }
      else if d == 13 { assert Alphabet[13] == 'C'; }
      else if d == 14 { assert Alphabet[14] == 'D'; }
      else if d == 15 { assert Alphabet[15] == 'E'; }
      else if d == 16 { assert Alphabet[16] == 'F'; }
      else if d == 17 { assert Alphabet[17] == 'G'; }
      else if d == 18 { assert Alphabet[18] == 'H'; }
      else if d == 19 { assert Alphabet[19] == 'I'; }
      else if d == 20 { assert Alphabet[20] == 'J'; }
      else if d == 21 { assert Alphabet[21] == 'K'; }
      else if d == 22 { assert Alphabet[22] == 'L'; }
      else if d == 23 { assert Alphabet[23] == 'M'; }
      else if d == 24 { assert Alphabet[24] == 'N'; }
      else if d == 25 { assert Alphabet[25] == 'O'; }
      else if d == 26 { assert Alphabet[26] == 'P'; }
      else if d == 27 { assert Alphabet[27] == 'Q'; }
      else if d == 28 { assert Alphabet[28] == 'R'; }
      else if d == 29 { assert Alphabet[29] == 'S'; }
      else if d == 30 { assert Alphabet[30] == 'T'; }
      else if d == 31 { assert Alphabet[31] == 'U'; }
      else if d == 32 { assert Alphabet[32] == 'V'; }
      else if d == 33 { assert Alphabet[33] == 'W'; }
      else if d == 34 { assert Alphabet[34] == 'X'; }
      else if d == 35 { assert Alphabet[35] == 'Y'; }
      else if d == 36 { assert Alphabet[36] == 'Z'; }
      else if d == 37 { assert Alphabet[37] == '_'; }
      else if d == 38 { assert Alphabet[38] == 'a'; }
      else if d == 39 { assert Alphabet[39] == 'b'; }
      else if d == 40 { assert Alphabet[40] == 'c'; }
      else if d == 41 { assert Alphabet[41] == 'd'; }
      else if d == 42 { assert Alphabet[42] == 'e'; }
      else if d == 43 { assert Alphabet[43] == 'f'; }
      else if d == 44 { assert Alphabet[44] == 'g'; }
      else if d == 45 { assert Alphabet[45] == 'h'; }
      else if d == 46 { assert Alphabet[46] == 'i'; }
      else if d == 47 { assert Alphabet[47] == 'j'; }
      else if d == 48 { assert Alphabet[48] == 'k'; }
      else if d == 49 { assert Alphabet[49] == 'l'; }
      else if d == 50 { assert Alphabet[50] == 'm'; }
      else if d == 51 { assert Alphabet[51] == 'n'; }
      else if d == 52 { assert Alphabet[52] == 'o'; }
      else if d == 53 { assert Alphabet[53] == 'p'; }
      else if d == 54 { assert Alphabet[54] == 'q'; }
      else if d == 55 { assert Alphabet[55] == 'r'; }
      else if d == 56 { assert Alphabet[56] == 's'; }
      else if d == 57 { assert Alphabet[57] == 't'; }
      else if d == 58 { assert Alphabet[58] == 'u'; }
      else if d == 59 { assert Alphabet[59] == 'v'; }
      else if d == 60 { assert Alphabet[60] == 'w'; }
      else if d == 61 { assert Alphabet[61] == 'x'; }
      else if d == 62 { assert Alphabet[62] == 'y'; }
      else { assert Alphabet[63] == 'z'; }
    }
  }

  lemma DigitCharStrictlyIncreasing(a: nat, b: nat)
    requires a < b < 64
    ensures DigitChar(a) < DigitChar(b)
  {
  }

  predicate InAlphabet(c: char)
  {
    c == '-' || ('0' <= c <= '9') || ('A' <= c <= 'Z') || c == '_' || ('a' <= c <= 'z')
  }

  /** The inverse of `DigitChar` (the decode table). */
  function DigitOf(c: char): (d: nat)
    requires InAlphabet(c)
    ensures d < 64 && DigitChar(d) == c
  {
    if c == '-' then 0
    else if '0' <= c <= '9' then c as int - '0' as int + 1
    else if 'A' <= c <= 'Z' then c as int - 'A' as int + 11
    else if c == '_' then 37
    else c as int - 'a' as int + 38
  }

  lemma DigitOfChar(d: nat)
    requires d < 64
    ensures InAlphabet(DigitChar(d)) && DigitOf(DigitChar(d)) == d
  {
  }

  /** `memory_record_id_from_millis`. */
  function IdFromMillis(millis: int): (r: Outcome<string>)
    ensures r.Fail? <==> millis < 0 || millis >= Limit
    ensures r.Fail? ==> r.exc == ValueError
    ensures r.Ok? ==> IsMemoryRecordId(r.value) && Decode(r.value) == millis
  {
    if millis < 0 || millis >= Limit then Fail(ValueError)
    else
      var s := Encode(millis, 8);
      EncodeRoundTrip(millis, 8);
      IdIffEightAlphabetChars(s);
      Ok(s)
  }

  /**
   The last `n` base-64 digits of `m`, most significant first, as alphabet
   characters. For n = 8 character k is the group `(m >> (42 - 6k)) & 0x3F`
   (see `EncodeIsShiftGroups`).
   */
  function Encode(m: nat, n: nat): (s: string)
    ensures |s| == n
    ensures forall k :: 0 <= k < n ==> InAlphabet(s[k])
  {
    if n == 0 then [] else
      var c := DigitChar(m % 64);
      DigitOfChar(m % 64);
      Encode(m / 64, n - 1) + [c]
  }

  /** The decoding loop: `decoded = (decoded << 6) | digit` over the characters. */
  function Decode(s: string): nat
    requires forall k :: 0 <= k < |s| ==> InAlphabet(s[k])
  {
    if |s| == 0 then 0 else Decode(s[..|s| - 1]) * 64 + DigitOf(s[|s| - 1])
  }

  /** `is_memory_record_id`: 8 characters of the alphabet whose value is below 2^48. */
  predicate IsMemoryRecordId(s: string)
  {
    |s| == 8 && (forall k :: 0 <= k < 8 ==> InAlphabet(s[k])) && Decode(s) < Limit
  }

  lemma {:induction false} DecodeBound(s: string)
    requires forall k :: 0 <= k < |s| ==> InAlphabet(s[k])
    ensures Decode(s) < Pow64(|s|)
  {
    if |s| > 0 {
      DecodeBound(s[..|s| - 1]);
    }
  }

  /** The 48-bit range check in `is_memory_record_id` never fails: 8 characters hold 48 bits. */
  lemma IdIffEightAlphabetChars(s: string)
    ensures IsMemoryRecordId(s) <==> |s| == 8 && forall k :: 0 <= k < 8 ==> InAlphabet(s[k])
  {
    if |s| == 8 && forall k :: 0 <= k < 8 ==> InAlphabet(s[k]) {
      DecodeBound(s);
      assert Pow64(8) == Limit;
    }
  }

  lemma {:induction false} EncodeRoundTrip(m: nat, n: nat)
    requires m < Pow64(n)
    ensures Decode(Encode(m, n)) == m
  {
    if n > 0 {
      EncodeRoundTrip(m / 64, n - 1);
      var s := Encode(m, n);
      assert s[..n - 1] == Encode(m / 64, n - 1);
      DigitOfChar(m % 64);
    }
  }

  /** Decoding then encoding a string of alphabet characters gives it back. */
  lemma {:induction false} DecodeRoundTrip(s: string)
    requires forall k :: 0 <= k < |s| ==> InAlphabet(s[k])
    ensures Encode(Decode(s), |s|) == s
  {
    if |s| > 0 {
      var p := s[..|s| - 1];
      DecodeRoundTrip(p);
      var d := DigitOf(s[|s| - 1]);
      assert (Decode(p) * 64 + d) / 64 == Decode(p);
      assert (Decode(p) * 64 + d) % 64 == d;
    }
  }

  /** Lexicographic order on equal-length strings. */
  predicate LexLess(a: string, b: string)
  {
    |a| == |b| && exists i :: 0 <= i < |a| && a[..i] == b[..i] && a[i] < b[i]
  }

  lemma LexLessSnoc(a: string, b: string, x: char, y: char)
    requires LexLess(a, b)
    ensures LexLess(a + [x], b + [y])
  {
    var i :| 0 <= i < |a| && a[..i] == b[..i] && a[i] < b[i];
    assert (a + [x])[..i] == a[..i] && (b + [y])[..i] == b[..i];
  }

  /** Ids order exactly as their milliseconds do. */
  lemma {:induction false} EncodeOrderPreserving(m1: nat, m2: nat, n: nat)
    requires m1 < m2 < Pow64(n)
    ensures LexLess(Encode(m1, n), Encode(m2, n))
  {
    var a, b := m1 / 64, m2 / 64;
    if a < b {
      EncodeOrderPreserving(a, b, n - 1);
      LexLessSnoc(Encode(a, n - 1), Encode(b, n - 1), DigitChar(m1 % 64), DigitChar(m2 % 64));
    } else {
      assert m1 % 64 < m2 % 64;
      DigitCharStrictlyIncreasing(m1 % 64, m2 % 64);
      var e1, e2 := Encode(m1, n), Encode(m2, n);
      assert e1[..n - 1] == e2[..n - 1];
    }
  }

  lemma IdOrderIsTimeOrder(m1: nat, m2: nat)
    requires m1 < m2 < Limit
    ensures IdFromMillis(m1).Ok? && IdFromMillis(m2).Ok?
    ensures LexLess(IdFromMillis(m1).value, IdFromMillis(m2).value)
  {
    assert Pow64(8) == Limit;
    EncodeOrderPreserving(m1, m2, 8);
  }

  /** Character k of an 8-character id is `(m >> (42 - 6k)) & 0x3F`, the code's formula. */
  lemma {:induction false} EncodeIsShiftGroups(m: nat, n: nat, k: nat)
    requires k < n
    ensures Encode(m, n)[k] == DigitChar(m / Pow64(n - 1 - k) % 64)
  {
    if k < n - 1 {
      EncodeIsShiftGroups(m / 64, n - 1, k);
      DivDiv64(m, Pow64(n - 2 - k));
    }
  }

  lemma DivDiv64(m: nat, p: nat)
    requires p >= 1
    ensures m / 64 / p == m / (64 * p)
  {
    var q := m / (64 * p);
    var r := m % (64 * p);
    assert m == 64 * (p * q) + r;
    assert m / 64 == p * q + r / 64;
    assert r / 64 < p;
    DivOfMultiplePlus(p, q, r / 64);
  }

  lemma DivOfMultiplePlus(p: nat, q: nat, t: nat)
    requires p >= 1 && t < p
    ensures (p * q + t) / p == q
  {
    var x := p * q + t;
    var d := x / p;
    var r := x % p;
    assert x == p * d + r;
    if d < q {
      MulMonotone(p, d + 1, q);
    } else if d > q {
      MulMonotone(p, q + 1, d);
    }
  }

  lemma MulMonotone(p: nat, a: nat, b: nat)
    requires a <= b
    ensures p * a <= p * b
  {
  }

  /** Millisecond 0 encodes to eight copies of the smallest character. */
  lemma ZeroId()
    ensures IdFromMillis(0) == Ok("--------")
  {
    assert Encode(0, 8) == "--------";
  }

  /** A 32-character hex id or a 36-character UUID is not a memory record id. */
  lemma LegacyIdsRejected(s: string)
    requires |s| == 32 || |s| == 36
    ensures !IsMemoryRecordId(s)
  {
  }

  /**
   Milliseconds of a timezone-aware instant: the offset from the UTC epoch
   normalised the way `timedelta` stores it (days, seconds in [0, 86400),
   microseconds in [0, 10^6)), then `days*86_400_000 + seconds*1000 +
   microseconds//1000`.
   */
  function AwareMillis(deltaMicros: int): (ms: int)
    ensures ms == deltaMicros / 1000
    ensures ms * 1000 <= deltaMicros < ms * 1000 + 1000
  {
    var days := deltaMicros / 86_400_000_000;
    var rest := deltaMicros % 86_400_000_000;
    var seconds := rest / 1_000_000;
    var micros := rest % 1_000_000;
    assert deltaMicros == days * 86_400_000_000 + seconds * 1_000_000 + micros;
    days * 86_400_000 + seconds * 1000 + micros / 1000
  }

  /** Two instants in the same millisecond get the same id. */
  lemma SameMillisecondSameId(d1: int, d2: int)
    requires AwareMillis(d1) == AwareMillis(d2)
    ensures IdFromMillis(AwareMillis(d1)) == IdFromMillis(AwareMillis(d2))
  {
  }
}
