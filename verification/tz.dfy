/**
 Timezone arguments of the Telegram starter
 (collections/src/kapy_collections/starters/telegram/tz.py): "UTC" and "Z"
 in any case, fixed offsets such as "UTC+8", "+08:00", "-05" or "-0530",
 and otherwise an IANA zone name. The zone database is a parameter: it says
 which names `ZoneInfo` accepts.
 */
module Tz {
  import opened Wrappers
  import opened PyStr

  /** What the parser yields: UTC itself, a fixed offset in minutes east of UTC, or a named zone. */
  datatype TzInfo = Utc | Fixed(offsetMinutes: int) | Zone(name: string)

  /** The default argument "UTC+8" and the zone it stands for. */
  const DefaultTimezone: string := "UTC+8"
  const DefaultTzInfo: TzInfo := Fixed(8 * 60)

  /** The largest offset accepted: 23 hours 59 minutes. */
  const MaxOffsetMinutes: int := 23 * 60 + 59

  // ---------------------------------------------------------------------
  // The offset grammar

  /** `s` starts with "UTC" in any letter case. */
  predicate StartsWithUtc(s: string)
  {
    |s| >= 3 && Upper(s[..3]) == "UTC"
  }

  /**
   The hour and minute digits after the sign: one or two hour digits,
   optionally followed by two minute digits, with an optional colon between.
   A run of three or four digits splits its last two off as the minutes,
   which is where the regular expression's backtracking lands.
   */
  function OffsetDigits(t: string): (r: Option<(nat, nat)>)
    ensures r.Some? ==> r.value.0 < 100 && r.value.1 < 100
  {
    if 1 <= |t| <= 2 && AllDigits(t) then
      DigitsBelow(t);
      Some((DigitsValue(t), 0))
    else if 3 <= |t| <= 5 && t[|t| - 3] == ':' && |t| - 3 >= 1 && AllDigits(t[..|t| - 3]) && AllDigits(t[|t| - 2..]) then
      DigitsBelow(t[..|t| - 3]);
      DigitsBelow(t[|t| - 2..]);
      Some((DigitsValue(t[..|t| - 3]), DigitsValue(t[|t| - 2..])))
    else if 3 <= |t| <= 4 && AllDigits(t) then
      assert AllDigits(t[..|t| - 2]) && AllDigits(t[|t| - 2..]);
      DigitsBelow(t[..|t| - 2]);
      DigitsBelow(t[|t| - 2..]);
      Some((DigitsValue(t[..|t| - 2]), DigitsValue(t[|t| - 2..])))
    else None
  }

  /** At most two digits are worth less than 100. */
  lemma DigitsBelow(t: string)
    requires |t| <= 2 && AllDigits(t)
    ensures DigitsValue(t) < 100
  {
    if |t| > 0 {
      assert DigitsValue(t[..|t| - 1]) < 10 by {
        if |t| == 2 {
          assert t[..1][..0] == [];
        }
      }
    }
  }

  /** A sign character: +1 for '+', -1 for '-'. */
  function SignOf(c: char): (r: Option<int>)
    ensures r.Some? ==> r.value == 1 || r.value == -1
  {
    if c == '+' then Some(1) else if c == '-' then Some(-1) else None
  }

  /**
   The full match of the offset pattern against `raw`: an optional "UTC"
   prefix and blanks, a sign, blanks, the digits, and trailing blanks. The
   result is the sign, the hours and the minutes.
   */
  function OffsetMatch(raw: string): (r: Option<(int, nat, nat)>)
    ensures r.Some? ==> r.value.0 == 1 || r.value.0 == -1
  {
    var afterUtc := if StartsWithUtc(raw) then raw[3..] else raw;
    SignedOffset(LStrip(afterUtc))
  }

  /** The part of the match from the sign on: the sign, blanks, the digits and trailing blanks. */
  function SignedOffset(atSign: string): (r: Option<(int, nat, nat)>)
    ensures r.Some? ==> atSign != [] && SignOf(atSign[0]) == Some(r.value.0)
  {
    if atSign == [] then None
    else
      var sign := SignOf(atSign[0]);
      var digits := OffsetDigits(RStrip(LStrip(atSign[1..])));
      if sign.None? || digits.None? then None
      else Some((sign.value, digits.value.0, digits.value.1))
  }

  // ---------------------------------------------------------------------
  // Parsing

  /** The offset in minutes for a sign, hours and minutes in range. */
  function SignedMinutes(sign: int, hours: nat, minutes: nat): (r: int)
    requires sign == 1 || sign == -1
    requires hours <= 23 && minutes <= 59
    ensures -MaxOffsetMinutes <= r <= MaxOffsetMinutes
    ensures r == sign * (hours * 60 + minutes)
  {
    if sign == 1 then hours * 60 + minutes else -(hours * 60 + minutes)
  }

  /** "UTC" or "Z", compared after upper-casing. */
  predicate IsUtcName(raw: string)
  {
    Upper(raw) == "UTC" || Upper(raw) == "Z"
  }

  /** The parse of a stripped, non-blank argument. */
  function ParseStripped(raw: string, zoneExists: string -> bool): (r: Outcome<TzInfo>)
    ensures r.Fail? ==> r.exc == ValueError
    ensures r.Ok? && r.value.Fixed? ==> -MaxOffsetMinutes <= r.value.offsetMinutes <= MaxOffsetMinutes
    ensures r.Ok? && r.value.Zone? ==> r.value.name == raw && zoneExists(raw)
    ensures !IsUtcName(raw) && OffsetMatch(raw).None? ==>
      r == (if zoneExists(raw) then Ok(Zone(raw)) else Fail(ValueError))
  {
    if IsUtcName(raw) then Ok(Utc)
    else
      match OffsetMatch(raw)
      case Some((sign, hours, minutes)) =>
        if hours > 23 then Fail(ValueError)
        else if minutes > 59 then Fail(ValueError)
        else Ok(Fixed(SignedMinutes(sign, hours, minutes)))
      case None =>
        if zoneExists(raw) then Ok(Zone(raw)) else Fail(ValueError)
  }

  /**
   `_parse_timezone`: a blank argument is a ValueError; "UTC" or "Z" in any
   case is UTC; an offset is checked against 23 hours and 59 minutes and
   gives sign times (hours and minutes); anything else is looked up as a
   zone name, and an unknown name is a ValueError.
   */
  function ParseTimezone(value: string, zoneExists: string -> bool): (r: Outcome<TzInfo>)
    ensures r.Fail? ==> r.exc == ValueError
    ensures r.Ok? && r.value.Fixed? ==> -MaxOffsetMinutes <= r.value.offsetMinutes <= MaxOffsetMinutes
    ensures r.Ok? && r.value.Zone? ==> r.value.name == Strip(value) && zoneExists(Strip(value))
    ensures Strip(value) != [] && !IsUtcName(Strip(value)) && OffsetMatch(Strip(value)).None? ==>
      r == (if zoneExists(Strip(value)) then Ok(Zone(Strip(value))) else Fail(ValueError))
  {
    var raw := Strip(value);
    if raw == [] then Fail(ValueError) else ParseStripped(raw, zoneExists)
  }

  /** A blank argument is rejected. */
  lemma BlankRejected(value: string, zoneExists: string -> bool)
    requires AllSpace(value)
    ensures ParseTimezone(value, zoneExists) == Fail(ValueError)
  {
    StripEmptyIffAllSpace(value);
  }

  /** "UTC" and "Z" are recognised in any letter case and with surrounding blanks. */
  lemma UtcNames(value: string, zoneExists: string -> bool)
    requires IsUtcName(Strip(value))
    ensures ParseTimezone(value, zoneExists) == Ok(Utc)
  {
  }

  // ---------------------------------------------------------------------
  // Rendered offsets parse back

  /** Hours and minutes as two digits each with a colon between. */
  function OffsetBody(hours: nat, minutes: nat): string
  {
    ZeroPad(hours, 2) + ":" + ZeroPad(minutes, 2)
  }

  /** The offset `sign * (hours:minutes)` rendered with a sign, two hour digits, a colon and two minute digits. */
  function RenderOffset(sign: int, hours: nat, minutes: nat): string
    requires sign == 1 || sign == -1
  {
    [if sign == 1 then '+' else '-'] + OffsetBody(hours, minutes)
  }

  /** Two zero-padded digits of a number below 100. */
  lemma TwoDigits(n: nat)
    requires n < 100
    ensures |ZeroPad(n, 2)| == 2 && AllDigits(ZeroPad(n, 2)) && DigitsValue(ZeroPad(n, 2)) == n
  {
    assert Pow10(2) == 100 by {
      assert Pow10(1) == 10 * Pow10(0);
    }
  }

  /** The body of a rendered offset: five characters, digits around a colon. */
  lemma OffsetBodyShape(hours: nat, minutes: nat)
    requires hours < 100 && minutes < 100
    ensures var t := OffsetBody(hours, minutes);
      && |t| == 5 && t[2] == ':' && t[..2] == ZeroPad(hours, 2) && t[3..] == ZeroPad(minutes, 2)
      && IsDigit(t[0]) && IsDigit(t[4])
  {
    TwoDigits(hours);
    TwoDigits(minutes);
    var t := OffsetBody(hours, minutes);
    assert t[..2] == ZeroPad(hours, 2);
    assert t[3..] == ZeroPad(minutes, 2);
    assert t[0] == ZeroPad(hours, 2)[0];
    assert t[4] == ZeroPad(minutes, 2)[1];
  }

  /** The digits with a colon read back as the hours and minutes. */
  lemma OffsetDigitsWithColon(hours: nat, minutes: nat)
    requires hours < 100 && minutes < 100
    ensures OffsetDigits(OffsetBody(hours, minutes)) == Some((hours, minutes))
  {
    TwoDigits(hours);
    TwoDigits(minutes);
    OffsetBodyShape(hours, minutes);
    var t := OffsetBody(hours, minutes);
    assert !AllDigits(t) by {
      assert t[2] == ':';
    }
  }

  /** Four digits without a colon read back as the hours and minutes too. */
  lemma OffsetDigitsPacked(hours: nat, minutes: nat)
    requires hours < 100 && minutes < 100
    ensures OffsetDigits(ZeroPad(hours, 2) + ZeroPad(minutes, 2)) == Some((hours, minutes))
  {
    TwoDigits(hours);
    TwoDigits(minutes);
    var t := ZeroPad(hours, 2) + ZeroPad(minutes, 2);
    assert t[..2] == ZeroPad(hours, 2);
    assert t[2..] == ZeroPad(minutes, 2);
    assert AllDigits(t);
    assert t[1] != ':';
  }

  /** Digits are not whitespace. */
  lemma DigitNotSpace(c: char)
    requires IsDigit(c)
    ensures !IsSpace(c)
  {
  }

  /** A sign followed by a blank-free digits part is the signed part of the offset pattern. */
  lemma SignedBodyOffset(c: char, sign: int, body: string, hours: nat, minutes: nat)
    requires SignOf(c) == Some(sign)
    requires body != [] && !IsSpace(body[0]) && !IsSpace(body[|body| - 1])
    requires OffsetDigits(body) == Some((hours, minutes))
    ensures SignedOffset([c] + body) == Some((sign, hours, minutes))
  {
    EndsTrimmed(body);
    assert ([c] + body)[1..] == body;
  }

  /** Before a sign, an optional "UTC" prefix is skipped and nothing else is. */
  lemma UtcPrefixSkipped(off: string, utcPrefix: bool)
    requires off != [] && SignOf(off[0]).Some? && !IsSpace(off[|off| - 1])
    ensures var s := (if utcPrefix then "UTC" else "") + off;
      && OffsetMatch(s) == SignedOffset(off)
      && !IsSpace(s[0]) && !IsSpace(s[|s| - 1]) && |s| == |off| + (if utcPrefix then 3 else 0)
  {
    if utcPrefix {
      UtcThenSign(off);
    } else {
      assert "" + off == off;
      SignFirst(off);
    }
  }

  /** "UTC" directly before a sign is the pattern's prefix. */
  lemma UtcThenSign(off: string)
    requires off != [] && SignOf(off[0]).Some? && !IsSpace(off[|off| - 1])
    ensures var s := "UTC" + off;
      && OffsetMatch(s) == SignedOffset(off) && !IsSpace(s[0]) && !IsSpace(s[|s| - 1])
  {
    var s := "UTC" + off;
    assert s[..3] == "UTC";
    assert s[3..] == off;
    assert StartsWithUtc(s);
    assert LStrip(off) == off;
    assert s[|s| - 1] == off[|off| - 1];
  }

  /** A string that starts at the sign has no "UTC" prefix to skip. */
  lemma SignFirst(off: string)
    requires off != [] && SignOf(off[0]).Some?
    ensures OffsetMatch(off) == SignedOffset(off) && !IsSpace(off[0])
  {
    assert !StartsWithUtc(off) by {
      if |off| >= 3 {
        assert Upper(off[..3])[0] == UpperChar(off[0]);
      }
    }
    assert LStrip(off) == off;
  }

  /** A sign followed by a blank-free digits part, after an optional "UTC", matches the offset pattern. */
  lemma SignedBodyMatches(c: char, sign: int, body: string, hours: nat, minutes: nat, utcPrefix: bool)
    requires SignOf(c) == Some(sign)
    requires body != [] && !IsSpace(body[0]) && !IsSpace(body[|body| - 1])
    requires OffsetDigits(body) == Some((hours, minutes))
    ensures var s := (if utcPrefix then "UTC" else "") + ([c] + body);
      && OffsetMatch(s) == Some((sign, hours, minutes))
      && !IsSpace(s[0]) && !IsSpace(s[|s| - 1]) && |s| == |body| + 1 + (if utcPrefix then 3 else 0)
  {
    SignedBodyOffset(c, sign, body, hours, minutes);
    var off := [c] + body;
    assert off[|off| - 1] == body[|body| - 1];
    UtcPrefixSkipped(off, utcPrefix);
  }

  /** A rendered offset, after an optional "UTC", matches the offset pattern with its own sign, hours and minutes. */
  lemma RenderedOffsetMatches(sign: int, hours: nat, minutes: nat, utcPrefix: bool)
    requires sign == 1 || sign == -1
    requires hours < 100 && minutes < 100
    ensures var s := (if utcPrefix then "UTC" else "") + RenderOffset(sign, hours, minutes);
      && OffsetMatch(s) == Some((sign, hours, minutes))
      && !IsSpace(s[0]) && !IsSpace(s[|s| - 1]) && |s| >= 6
  {
    var c := if sign == 1 then '+' else '-';
    RenderedBodyTrimmed(hours, minutes);
    SignedBodyMatches(c, sign, OffsetBody(hours, minutes), hours, minutes, utcPrefix);
  }

  /** The body of a rendered offset has no blank at either end and reads back as its hours and minutes. */
  lemma RenderedBodyTrimmed(hours: nat, minutes: nat)
    requires hours < 100 && minutes < 100
    ensures var body := OffsetBody(hours, minutes);
      && body != [] && !IsSpace(body[0]) && !IsSpace(body[|body| - 1])
      && OffsetDigits(body) == Some((hours, minutes))
  {
    var body := OffsetBody(hours, minutes);
    OffsetBodyShape(hours, minutes);
    DigitNotSpace(body[0]);
    DigitNotSpace(body[4]);
    OffsetDigitsWithColon(hours, minutes);
  }

  /** A blank-free argument longer than "UTC" that matches the offset pattern is checked against the bounds and never looked up as a zone. */
  lemma MatchedOffsetParses(s: string, sign: int, hours: nat, minutes: nat, zoneExists: string -> bool)
    requires |s| > 3 && !IsSpace(s[0]) && !IsSpace(s[|s| - 1])
    requires OffsetMatch(s) == Some((sign, hours, minutes))
    ensures ParseTimezone(s, zoneExists)
      == if hours > 23 || minutes > 59 then Fail(ValueError) else Ok(Fixed(sign * (hours * 60 + minutes)))
  {
    StripTrimmed(s);
    LongNotUtc(s);
    assert ParseTimezone(s, zoneExists) == ParseStripped(s, zoneExists);
  }

  /** Nothing longer than "UTC" is a name of UTC. */
  lemma LongNotUtc(s: string)
    requires |s| > 3
    ensures !IsUtcName(s)
  {
    assert |Upper(s)| == |s|;
  }

  /**
   Every offset in range, rendered with or without the "UTC" prefix, parses
   back to the same number of minutes, whatever zone names exist.
   */
  lemma RenderedOffsetParses(sign: int, hours: nat, minutes: nat, utcPrefix: bool, zoneExists: string -> bool)
    requires sign == 1 || sign == -1
    requires hours <= 23 && minutes <= 59
    ensures ParseTimezone((if utcPrefix then "UTC" else "") + RenderOffset(sign, hours, minutes), zoneExists)
      == Ok(Fixed(sign * (hours * 60 + minutes)))
  {
    var s := (if utcPrefix then "UTC" else "") + RenderOffset(sign, hours, minutes);
    RenderedOffsetMatches(sign, hours, minutes, utcPrefix);
    MatchedOffsetParses(s, sign, hours, minutes, zoneExists);
  }

  /** Hours above 23 are rejected, never passed on to the zone lookup. */
  lemma HoursOutOfRange(sign: int, hours: nat, minutes: nat, utcPrefix: bool, zoneExists: string -> bool)
    requires sign == 1 || sign == -1
    requires 23 < hours < 100 && minutes < 100
    ensures ParseTimezone((if utcPrefix then "UTC" else "") + RenderOffset(sign, hours, minutes), zoneExists)
      == Fail(ValueError)
  {
    var s := (if utcPrefix then "UTC" else "") + RenderOffset(sign, hours, minutes);
    RenderedOffsetMatches(sign, hours, minutes, utcPrefix);
    MatchedOffsetParses(s, sign, hours, minutes, zoneExists);
  }

  /** Minutes above 59 are rejected as well. */
  lemma MinutesOutOfRange(sign: int, hours: nat, minutes: nat, utcPrefix: bool, zoneExists: string -> bool)
    requires sign == 1 || sign == -1
    requires hours <= 23 && 59 < minutes < 100
    ensures ParseTimezone((if utcPrefix then "UTC" else "") + RenderOffset(sign, hours, minutes), zoneExists)
      == Fail(ValueError)
  {
    var s := (if utcPrefix then "UTC" else "") + RenderOffset(sign, hours, minutes);
    RenderedOffsetMatches(sign, hours, minutes, utcPrefix);
    MatchedOffsetParses(s, sign, hours, minutes, zoneExists);
  }

  /** The default argument parses to the default zone. */
  lemma DefaultParses(zoneExists: string -> bool)
    ensures ParseTimezone(DefaultTimezone, zoneExists) == Ok(DefaultTzInfo)
  {
    StripTrimmed(DefaultTimezone);
    DefaultOffsetMatch();
    DefaultIsNoUtcName();
    assert ParseStripped(DefaultTimezone, zoneExists) == Ok(Fixed(SignedMinutes(1, 8, 0)));
  }

  lemma DefaultOffsetMatch()
    ensures OffsetMatch(DefaultTimezone) == Some((1, 8, 0))
  {
    assert OffsetDigits("8") == Some((8, 0)) by {
      assert "8"[..0] == [];
    }
    SignedBodyMatches('+', 1, "8", 8, 0, true);
    assert DefaultTimezone == "UTC" + ("+" + "8");
  }

  lemma DefaultIsNoUtcName()
    ensures !IsUtcName(DefaultTimezone)
  {
    assert |Upper(DefaultTimezone)| == 5;
  }
}
