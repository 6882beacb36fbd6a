/** `WeiboCnSpider.get_time`: turns the relative times the site prints ("5分钟前",
    "今天 10:30", "04月03日 12:05") into `%Y-%m-%d %H:%M:%S` stamps, trying the three
    patterns in a fixed order and returning anything else unchanged. The clock reading
    `datetime.now()` is the parameter `now`. */
module Timestamps {
  import opened Base
  import opened Text
  import opened Clock

  const MinutesAgoMark: string := "分钟前"
  const TodayMark: string := "今天"

  /** The pattern `(\d*)分钟前` at position `i`: the digits before the mark. */
  function MinutesAgoAt(s: string, i: nat): (r: Option<string>)
    ensures r.Some? ==> i <= |s| && AllDigits(r.value)
    ensures r.Some? ==> i + |r.value| <= |s| && OccursAt(s, MinutesAgoMark, i + |r.value|)
  {
    if i > |s| then None
    else
      var k := DigitRunEnd(s, i);
      if OccursAt(s, MinutesAgoMark, k) then Some(s[i..k]) else None
  }

  /** The tail `\s*(\d*):(\d*)` the two dated patterns share, from position `j`: hour
      and minute digits. */
  function ClockAt(s: string, j: nat): (r: Option<(string, string)>)
    requires j <= |s|
    ensures r.Some? ==> AllDigits(r.value.0) && AllDigits(r.value.1)
  {
    var h := SpaceRunEnd(s, j);
    var k1 := DigitRunEnd(s, h);
    if k1 < |s| && s[k1] == ':' then
      var k2 := DigitRunEnd(s, k1 + 1);
      Some((s[h..k1], s[k1 + 1..k2]))
    else None
  }

  /** The pattern `今天\s*(\d*):(\d*)` at position `i`: hour and minute digits. */
  function TodayAt(s: string, i: nat): (r: Option<(string, string)>)
    ensures r.Some? ==> OccursAt(s, TodayMark, i) && AllDigits(r.value.0) && AllDigits(r.value.1)
  {
    if OccursAt(s, TodayMark, i) then ClockAt(s, i + 2) else None
  }

  /** The pattern `(\d*)月(\d*)日\s*(\d*):(\d*)` at position `i`: month, day, hour and
      minute digits. */
  function MonthDayAt(s: string, i: nat): (r: Option<(string, string, string, string)>)
    ensures r.Some? ==> i <= |s| && OccursAt(s, "月", DigitRunEnd(s, i))
    ensures r.Some? ==> AllDigits(r.value.0) && AllDigits(r.value.1) && AllDigits(r.value.2) && AllDigits(r.value.3)
  {
    if i > |s| then None
    else
      var k1 := DigitRunEnd(s, i);
      if !OccursAt(s, "月", k1) then None
      else
        var k2 := DigitRunEnd(s, k1 + 1);
        if !OccursAt(s, "日", k2) then None
        else
          match ClockAt(s, k2 + 1)
          case None => None
          case Some((hh, mm)) => Some((s[i..k1], s[k1 + 1..k2], hh, mm))
  }

  /** The "N分钟前" branch: `now` minus N minutes. */
  function MinutesAgoTime(d: string, now: DateTime): Result<string>
    requires AllDigits(d) && Valid(now)
  {
    var n :- ParseDigits(d);
    var dt :- MinusMinutes(now, n);
    Ok(Format(dt))
  }

  /** A time of day on `now`'s date, from hour and minute digits. */
  function TodayTime(hh: string, mm: string, now: DateTime): Result<string>
    requires AllDigits(hh) && AllDigits(mm)
  {
    var h :- ParseDigits(hh);
    var m :- ParseDigits(mm);
    var dt :- Make(now.year, now.month, now.day, h, m);
    Ok(Format(dt))
  }

  /** The "M月D日 HH:MM" branch: that date and time in `now`'s year. */
  function MonthDayTime(c: (string, string, string, string), now: DateTime): Result<string>
    requires AllDigits(c.0) && AllDigits(c.1) && AllDigits(c.2) && AllDigits(c.3)
  {
    var mo :- ParseDigits(c.0);
    var d :- ParseDigits(c.1);
    var h :- ParseDigits(c.2);
    var mi :- ParseDigits(c.3);
    var dt :- Make(now.year, mo, d, h, mi);
    Ok(Format(dt))
  }

  /** The three patterns in their priority order; `hourAsMinute` selects whether the
      "today" branch reads its minute from the hour capture. */
  function GetTimeWith(s: string, now: DateTime, hourAsMinute: bool): Result<string>
    requires Valid(now)
  {
    match FirstMatch(s, MinutesAgoAt, 0)
    case Some((_, d)) => MinutesAgoTime(d, now)
    case None =>
      match FirstMatch(s, TodayAt, 0)
      case Some((_, c)) => TodayTime(c.0, if hourAsMinute then c.0 else c.1, now)
      case None =>
        match FirstMatch(s, MonthDayAt, 0)
        case Some((_, c)) => MonthDayTime(c, now)
        case None => Ok(s)
  }

  /** `get_time` as the source writes it: the "today" branch passes the hour capture
      as both hour and minute. */
  function GetTimeAsWritten(s: string, now: DateTime): Result<string>
    requires Valid(now)
  {
    GetTimeWith(s, now, true)
  }

  /** `get_time` with the "today" branch reading hour and minute from their own
      captures; the records of this model are built with it. */
  function GetTime(s: string, now: DateTime): Result<string>
    requires Valid(now)
  {
    GetTimeWith(s, now, false)
  }

  /** None of the three patterns matches anywhere in `s`. */
  predicate Unrecognised(s: string)
  {
    forall i | 0 <= i <= |s| :: MinutesAgoAt(s, i).None? && TodayAt(s, i).None? && MonthDayAt(s, i).None?
  }

  lemma FormatLacks(dt: DateTime, c: char)
    requires Valid(dt) && !IsStampChar(c)
    ensures Lacks(Format(dt), c)
  {
  }

  // ---- which branch runs ------------------------------------------------------------

  lemma TakesMinutesAgo(s: string, now: DateTime, hourAsMinute: bool, i: nat, d: string)
    requires Valid(now) && FirstMatch(s, MinutesAgoAt, 0) == Some((i, d))
    ensures AllDigits(d) && GetTimeWith(s, now, hourAsMinute) == MinutesAgoTime(d, now)
  {
  }

  lemma TakesToday(s: string, now: DateTime, hourAsMinute: bool, i: nat, c: (string, string))
    requires Valid(now) && FirstMatch(s, MinutesAgoAt, 0).None? && FirstMatch(s, TodayAt, 0) == Some((i, c))
    ensures AllDigits(c.0) && AllDigits(c.1)
    ensures GetTimeWith(s, now, hourAsMinute) == TodayTime(c.0, if hourAsMinute then c.0 else c.1, now)
  {
  }

  lemma TakesMonthDay(s: string, now: DateTime, hourAsMinute: bool, i: nat, c: (string, string, string, string))
    requires Valid(now) && FirstMatch(s, MinutesAgoAt, 0).None? && FirstMatch(s, TodayAt, 0).None?
    requires FirstMatch(s, MonthDayAt, 0) == Some((i, c))
    ensures AllDigits(c.0) && AllDigits(c.1) && AllDigits(c.2) && AllDigits(c.3)
    ensures GetTimeWith(s, now, hourAsMinute) == MonthDayTime(c, now)
  {
  }

  // ---- the input comes back only when nothing matched ------------------------------

  /** A successful branch yields a stamp, and a stamp lacks the character `c`. */
  lemma StampLacks(r: Result<string>, c: char)
    requires r.Ok? && !IsStampChar(c)
    requires exists dt :: Valid(dt) && r.value == Format(dt)
    ensures Lacks(r.value, c)
  {
    var dt :| Valid(dt) && r.value == Format(dt);
    FormatLacks(dt, c);
  }

  lemma MinutesAgoIsStamp(d: string, now: DateTime)
    requires AllDigits(d) && Valid(now)
    ensures var r := MinutesAgoTime(d, now); r.Ok? ==> exists dt :: Valid(dt) && r.value == Format(dt)
  {
    var r := MinutesAgoTime(d, now);
    if r.Ok? {
      var dt := MinusMinutes(now, DigitsValue(d)).value;
      assert Valid(dt) && r.value == Format(dt);
    }
  }

  lemma TodayIsStamp(hh: string, mm: string, now: DateTime)
    requires AllDigits(hh) && AllDigits(mm)
    ensures var r := TodayTime(hh, mm, now); r.Ok? ==> exists dt :: Valid(dt) && r.value == Format(dt)
  {
    var r := TodayTime(hh, mm, now);
    if r.Ok? {
      var dt := Make(now.year, now.month, now.day, DigitsValue(hh), DigitsValue(mm)).value;
      assert Valid(dt) && r.value == Format(dt);
    }
  }

  lemma MonthDayIsStamp(c: (string, string, string, string), now: DateTime)
    requires AllDigits(c.0) && AllDigits(c.1) && AllDigits(c.2) && AllDigits(c.3)
    ensures var r := MonthDayTime(c, now); r.Ok? ==> exists dt :: Valid(dt) && r.value == Format(dt)
  {
    var r := MonthDayTime(c, now);
    if r.Ok? {
      var dt := Make(now.year, DigitsValue(c.0), DigitsValue(c.1), DigitsValue(c.2), DigitsValue(c.3)).value;
      assert Valid(dt) && r.value == Format(dt);
    }
  }

  /** Whatever branch runs, a string that contains `c` does not come back unchanged. */
  lemma NotVerbatim(s: string, r: Result<string>, c: char, k: nat)
    requires k < |s| && s[k] == c && !IsStampChar(c)
    requires r.Ok? ==> exists dt :: Valid(dt) && r.value == Format(dt)
    ensures r != Ok(s)
  {
    if r.Ok? {
      StampLacks(r, c);
    }
  }

  lemma MinutesAgoNotVerbatim(s: string, now: DateTime, hourAsMinute: bool)
    requires Valid(now) && FirstMatch(s, MinutesAgoAt, 0).Some?
    ensures GetTimeWith(s, now, hourAsMinute) != Ok(s)
  {
    var (i, d) := FirstMatch(s, MinutesAgoAt, 0).value;
    TakesMinutesAgo(s, now, hourAsMinute, i, d);
    MinutesAgoIsStamp(d, now);
    var k := i + |d|;
    assert s[k] == s[k..k + 3][0];
    NotVerbatim(s, GetTimeWith(s, now, hourAsMinute), '分', k);
  }

  lemma TodayNotVerbatim(s: string, now: DateTime, hourAsMinute: bool)
    requires Valid(now) && FirstMatch(s, MinutesAgoAt, 0).None? && FirstMatch(s, TodayAt, 0).Some?
    ensures GetTimeWith(s, now, hourAsMinute) != Ok(s)
  {
    var (i, c) := FirstMatch(s, TodayAt, 0).value;
    TakesToday(s, now, hourAsMinute, i, c);
    TodayIsStamp(c.0, if hourAsMinute then c.0 else c.1, now);
    assert s[i] == s[i..i + 2][0];
    NotVerbatim(s, GetTimeWith(s, now, hourAsMinute), '今', i);
  }

  /** Where a month/day match at `i` has its `月`. */
  lemma MonthMarkOf(s: string, i: nat, c: (string, string, string, string)) returns (k: nat)
    requires MonthDayAt(s, i) == Some(c)
    ensures k < |s| && s[k] == '月'
  {
    k := DigitRunEnd(s, i);
    assert s[k] == s[k..k + 1][0];
  }

  lemma MonthDayNotVerbatim(s: string, now: DateTime, hourAsMinute: bool)
    requires Valid(now) && FirstMatch(s, MinutesAgoAt, 0).None? && FirstMatch(s, TodayAt, 0).None?
    requires FirstMatch(s, MonthDayAt, 0).Some?
    ensures GetTimeWith(s, now, hourAsMinute) != Ok(s)
  {
    var (i, c) := FirstMatch(s, MonthDayAt, 0).value;
    TakesMonthDay(s, now, hourAsMinute, i, c);
    MonthDayIsStamp(c, now);
    var k := MonthMarkOf(s, i, c);
    NotVerbatim(s, GetTimeWith(s, now, hourAsMinute), '月', k);
  }

  lemma NothingMatches(s: string, now: DateTime, hourAsMinute: bool)
    requires Valid(now) && FirstMatch(s, MinutesAgoAt, 0).None? && FirstMatch(s, TodayAt, 0).None?
    requires FirstMatch(s, MonthDayAt, 0).None?
    ensures GetTimeWith(s, now, hourAsMinute) == Ok(s) && Unrecognised(s)
  {
  }

  lemma UnrecognisedFindsNothing(s: string)
    requires Unrecognised(s)
    ensures FirstMatch(s, MinutesAgoAt, 0).None? && FirstMatch(s, TodayAt, 0).None?
    ensures FirstMatch(s, MonthDayAt, 0).None?
  {
    forall j | 0 <= j <= |s| ensures MinutesAgoAt(s, j).None? && TodayAt(s, j).None? && MonthDayAt(s, j).None? {
    }
    FirstMatchNone(s, MinutesAgoAt, 0);
    FirstMatchNone(s, TodayAt, 0);
    FirstMatchNone(s, MonthDayAt, 0);
  }

  /** `get_time` hands back its input unchanged exactly when no pattern matches it:
      a stamp never contains the marks that the patterns need. */
  lemma GetTimeVerbatimIff(s: string, now: DateTime, hourAsMinute: bool)
    requires Valid(now)
    ensures GetTimeWith(s, now, hourAsMinute) == Ok(s) <==> Unrecognised(s)
  {
    if FirstMatch(s, MinutesAgoAt, 0).Some? {
      MinutesAgoNotVerbatim(s, now, hourAsMinute);
    } else if FirstMatch(s, TodayAt, 0).Some? {
      TodayNotVerbatim(s, now, hourAsMinute);
    } else if FirstMatch(s, MonthDayAt, 0).Some? {
      MonthDayNotVerbatim(s, now, hourAsMinute);
    } else {
      NothingMatches(s, now, hourAsMinute);
    }
    if Unrecognised(s) {
      UnrecognisedFindsNothing(s);
    }
  }

  // ---- each branch on the texts the site prints -----------------------------------

  /** No "N分钟前" match in `p + rest` when `p` has no '分' and `rest` lacks the mark. */
  lemma NoMinutesAgo(p: string, rest: string)
    requires Lacks(p, '分') && !Contains(rest, MinutesAgoMark)
    ensures FirstMatch(p + rest, MinutesAgoAt, 0).None?
  {
    forall j | 0 <= j <= |p + rest| ensures MinutesAgoAt(p + rest, j).None? {
      var s := p + rest;
      var k := DigitRunEnd(s, j);
      NotInConcat(p, rest, MinutesAgoMark, k);
    }
  }

  /** No "今天" match in `p` when `p` has no '今'. */
  lemma NoToday(p: string)
    requires Lacks(p, '今')
    ensures FirstMatch(p, TodayAt, 0).None?
  {
    forall j | 0 <= j <= |p| ensures TodayAt(p, j).None? {
      if j + 2 <= |p| {
        assert p[j..j + 2][0] == p[j] != '今';
      }
    }
  }

  lemma MinutesAgoMatch(d: string, rest: string)
    requires AllDigits(d)
    ensures MinutesAgoAt(d + MinutesAgoMark + rest, 0) == Some(d)
  {
    var s := d + MinutesAgoMark + rest;
    DigitRunOf(s, 0, d);
    assert s[0..|d|] == d;
    assert OccursAt(s, MinutesAgoMark, |d|) by { assert s[|d|..|d| + 3] == MinutesAgoMark; }
  }

  /** "N分钟前" followed by anything is `now` less N minutes, or OverflowError when
      that would fall before year 1. */
  lemma MinutesAgoStamp(d: string, rest: string, now: DateTime)
    requires AllDigits(d) && d != "" && Valid(now)
    ensures var n := DigitsValue(d);
      && (n <= MinuteNumber(now) ==>
            var dt := FromMinuteNumber(MinuteNumber(now) - n, now.second);
            Valid(dt) && MinuteNumber(dt) == MinuteNumber(now) - n && dt.second == now.second
            && GetTime(d + MinutesAgoMark + rest, now) == Ok(Format(dt)))
      && (n > MinuteNumber(now) ==> GetTime(d + MinutesAgoMark + rest, now) == Err(OverflowError))
  {
    var s := d + MinutesAgoMark + rest;
    MinutesAgoMatch(d, rest);
    FirstMatchAtStart(s, MinutesAgoAt);
    TakesMinutesAgo(s, now, false, 0, d);
  }

  /** "分钟前" with no number in front makes `int('')` raise ValueError. */
  lemma MinutesAgoWithoutNumber(rest: string, now: DateTime)
    requires Valid(now)
    ensures GetTime(MinutesAgoMark + rest, now) == Err(ValueError)
  {
    var s := MinutesAgoMark + rest;
    MinutesAgoMatch("", rest);
    assert "" + MinutesAgoMark + rest == s;
    FirstMatchAtStart(s, MinutesAgoAt);
    TakesMinutesAgo(s, now, false, 0, "");
  }

  function TodayText(w: string, hh: string, mm: string): string
  {
    TodayMark + w + hh + ":" + mm
  }

  predicate AllSpaces(w: string)
  {
    forall j :: 0 <= j < |w| ==> IsSpace(w[j])
  }

  lemma TodayTextLacks(w: string, hh: string, mm: string)
    requires AllSpaces(w) && AllDigits(hh) && AllDigits(mm)
    ensures Lacks(TodayText(w, hh, mm), '分')
  {
    var p := TodayText(w, hh, mm);
    forall i | 0 <= i < |p| ensures p[i] != '分' {
      if 2 <= i < 2 + |w| { assert p[i] == w[i - 2]; }
      else if 2 + |w| <= i < 2 + |w| + |hh| { assert p[i] == hh[i - 2 - |w|]; }
      else if 3 + |w| + |hh| <= i { assert p[i] == mm[i - 3 - |w| - |hh|]; }
    }
  }

  /** `\s*(\d*):(\d*)` at `j`, read off the parts the text is made of. */
  lemma ClockAtParts(s: string, j: nat, w: string, hh: string, mm: string)
    requires AllSpaces(w) && AllDigits(hh) && AllDigits(mm)
    requires j + 1 + |w| + |hh| + |mm| <= |s|
    requires s[j..j + |w|] == w
    requires s[j + |w|..j + |w| + |hh|] == hh && s[j + |w| + |hh|] == ':'
    requires s[j + 1 + |w| + |hh|..j + 1 + |w| + |hh| + |mm|] == mm
    requires j + 1 + |w| + |hh| + |mm| < |s| ==> !IsDigit(s[j + 1 + |w| + |hh| + |mm|])
    ensures ClockAt(s, j) == Some((hh, mm))
  {
    var h := j + |w|;
    var k1 := h + |hh|;
    var k2 := k1 + 1 + |mm|;
    DigitsThenColon(s, h, hh);
    SpaceRunOf(s, j, w);
    DigitRunOf(s, h, hh);
    DigitRunOf(s, k1 + 1, mm);
    ClockAtEnds(s, j, h, k1, k2, hh, mm);
  }

  /** Digits followed by `:` start with a character that is not a space. */
  lemma DigitsThenColon(s: string, h: nat, hh: string)
    requires AllDigits(hh) && h + |hh| < |s| && s[h..h + |hh|] == hh && s[h + |hh|] == ':'
    ensures !IsSpace(s[h])
  {
    if |hh| > 0 { assert s[h] == hh[0]; }
  }

  /** `\s*(\d*):(\d*)` at `j`, given where the space and digit runs end. */
  lemma ClockAtEnds(s: string, j: nat, h: nat, k1: nat, k2: nat, hh: string, mm: string)
    requires j <= h <= k1 < k2 <= |s| && s[h..k1] == hh && s[k1 + 1..k2] == mm
    requires SpaceRunEnd(s, j) == h && DigitRunEnd(s, h) == k1 && s[k1] == ':'
    requires DigitRunEnd(s, k1 + 1) == k2
    ensures ClockAt(s, j) == Some((hh, mm))
  {
  }

  /** `今天\s*(\d*):(\d*)` at 0, read off the parts the text is made of. */
  lemma TodayAtParts(s: string, w: string, hh: string, mm: string)
    requires AllSpaces(w) && AllDigits(hh) && AllDigits(mm)
    requires 3 + |w| + |hh| + |mm| <= |s|
    requires s[0..2] == TodayMark && s[2..2 + |w|] == w
    requires s[2 + |w|..2 + |w| + |hh|] == hh && s[2 + |w| + |hh|] == ':'
    requires s[3 + |w| + |hh|..3 + |w| + |hh| + |mm|] == mm
    requires 3 + |w| + |hh| + |mm| < |s| ==> !IsDigit(s[3 + |w| + |hh| + |mm|])
    ensures TodayAt(s, 0) == Some((hh, mm))
  {
    assert OccursAt(s, TodayMark, 0);
    ClockAtParts(s, 2, w, hh, mm);
  }

  lemma TodayAtStart(w: string, hh: string, mm: string, rest: string)
    requires AllSpaces(w) && AllDigits(hh) && AllDigits(mm)
    requires rest != "" ==> !IsDigit(rest[0])
    ensures TodayAt(TodayText(w, hh, mm) + rest, 0) == Some((hh, mm))
  {
    var s := TodayText(w, hh, mm) + rest;
    var j := 2 + |w|;
    var k1 := j + |hh|;
    var k2 := k1 + 1 + |mm|;
    assert s == TodayMark + w + hh + ":" + mm + rest;
    assert s[0..2] == TodayMark;
    assert s[2..j] == w;
    assert s[j..k1] == hh;
    assert s[k1] == ':';
    assert s[k1 + 1..k2] == mm;
    assert k2 < |s| ==> s[k2] == rest[0];
    TodayAtParts(s, w, hh, mm);
  }

  /** The "today" branch runs on `今天 w hh:mm rest`, with captures `hh` and `mm`. */
  lemma TodayMatch(w: string, hh: string, mm: string, rest: string, now: DateTime, hourAsMinute: bool)
    requires Valid(now) && AllSpaces(w) && AllDigits(hh) && AllDigits(mm)
    requires rest != "" ==> !IsDigit(rest[0])
    requires !Contains(rest, MinutesAgoMark)
    ensures GetTimeWith(TodayText(w, hh, mm) + rest, now, hourAsMinute)
         == TodayTime(hh, if hourAsMinute then hh else mm, now)
  {
    var s := TodayText(w, hh, mm) + rest;
    TodayTextLacks(w, hh, mm);
    NoMinutesAgo(TodayText(w, hh, mm), rest);
    TodayAtStart(w, hh, mm, rest);
    FirstMatchAtStart(s, TodayAt);
    TakesToday(s, now, hourAsMinute, 0, (hh, mm));
  }

  /** With the corrected branch, "今天 HH:MM" is that time on `now`'s date; ValueError
      when the hour or minute is missing or out of range, except OverflowError when a
      number does not fit a C `int`. */
  lemma TodayStamp(w: string, hh: string, mm: string, rest: string, now: DateTime)
    requires Valid(now) && AllSpaces(w) && AllDigits(hh) && AllDigits(mm)
    requires rest != "" ==> !IsDigit(rest[0])
    requires !Contains(rest, MinutesAgoMark)
    ensures var r := GetTime(TodayText(w, hh, mm) + rest, now);
      var dt := DateTime(now.year, now.month, now.day, DigitsValue(hh), DigitsValue(mm), 0);
      && (r.Ok? <==> hh != "" && mm != "" && Valid(dt))
      && (r.Ok? ==> r.value == Format(dt))
      && (r.Err? ==> r.error == (if hh != "" && mm != "" && (dt.hour > IntMax || dt.minute > IntMax)
                                 then OverflowError else ValueError))
  {
    TodayMatch(w, hh, mm, rest, now, false);
  }

  /** As written, "今天 HH:MM" gives HH:HH on `now`'s date: the minute digits are never
      read, and an hour from 24 to 59 is refused although it would be a valid minute. */
  lemma TodayStampAsWritten(w: string, hh: string, mm: string, rest: string, now: DateTime)
    requires Valid(now) && AllSpaces(w) && AllDigits(hh) && AllDigits(mm)
    requires rest != "" ==> !IsDigit(rest[0])
    requires !Contains(rest, MinutesAgoMark)
    ensures var r := GetTimeAsWritten(TodayText(w, hh, mm) + rest, now);
      var h := DigitsValue(hh);
      && (r.Ok? <==> hh != "" && h < 24)
      && (r.Ok? ==> r.value == Format(DateTime(now.year, now.month, now.day, h, h, 0)))
  {
    TodayMatch(w, hh, mm, rest, now, true);
  }

  lemma TenAndThirty()
    ensures DigitsValue("10") == 10 && DigitsValue("30") == 30
  {
    assert "10"[..1] == "1" && "30"[..1] == "3";
  }

  /** The input that shows the defect: "今天 10:30" comes out as 10:10 as written and as
      10:30 with the corrected branch. */
  lemma TodayMinuteLost(now: DateTime)
    requires Valid(now)
    ensures GetTime("今天 10:30", now) == Ok(Format(DateTime(now.year, now.month, now.day, 10, 30, 0)))
    ensures GetTimeAsWritten("今天 10:30", now) == Ok(Format(DateTime(now.year, now.month, now.day, 10, 10, 0)))
    ensures GetTimeAsWritten("今天 10:30", now) != GetTime("今天 10:30", now)
  {
    assert "今天 10:30" == TodayText(" ", "10", "30") + "";
    TodayTenThirty(now);
    FormatInjective(DateTime(now.year, now.month, now.day, 10, 10, 0), DateTime(now.year, now.month, now.day, 10, 30, 0));
  }

  lemma TodayTenThirty(now: DateTime)
    requires Valid(now)
    ensures GetTime(TodayText(" ", "10", "30") + "", now) == Ok(Format(DateTime(now.year, now.month, now.day, 10, 30, 0)))
    ensures GetTimeAsWritten(TodayText(" ", "10", "30") + "", now) == Ok(Format(DateTime(now.year, now.month, now.day, 10, 10, 0)))
  {
    TenAndThirty();
    TodayStamp(" ", "10", "30", "", now);
    TodayStampAsWritten(" ", "10", "30", "", now);
  }

  function MonthDayText(mo: string, d: string, w: string, hh: string, mm: string): string
  {
    mo + "月" + d + "日" + w + hh + ":" + mm
  }

  lemma MonthDayTextLacks(mo: string, d: string, w: string, hh: string, mm: string)
    requires AllSpaces(w) && AllDigits(mo) && AllDigits(d) && AllDigits(hh) && AllDigits(mm)
    ensures Lacks(MonthDayText(mo, d, w, hh, mm), '分') && Lacks(MonthDayText(mo, d, w, hh, mm), '今')
  {
    var s := MonthDayText(mo, d, w, hh, mm);
    var k1 := |mo|;
    var k2 := k1 + 1 + |d|;
    var j := k2 + 1 + |w|;
    var k3 := j + |hh|;
    forall i | 0 <= i < |s| ensures s[i] != '分' && s[i] != '今' {
      if i < k1 { assert s[i] == mo[i]; }
      else if k1 < i < k2 { assert s[i] == d[i - k1 - 1]; }
      else if k2 < i < j { assert s[i] == w[i - k2 - 1]; }
      else if j <= i < k3 { assert s[i] == hh[i - j]; }
      else if k3 < i { assert s[i] == mm[i - k3 - 1]; }
    }
  }

  /** The pattern at 0, read off the parts the text is made of. */
  lemma MonthDayAtParts(s: string, mo: string, d: string, w: string, hh: string, mm: string)
    requires AllSpaces(w) && AllDigits(mo) && AllDigits(d) && AllDigits(hh) && AllDigits(mm)
    requires |s| == 3 + |mo| + |d| + |w| + |hh| + |mm|
    requires s[..|mo|] == mo && s[|mo|] == '月' && s[|mo| + 1..|mo| + 1 + |d|] == d
    requires s[|mo| + 1 + |d|] == '日'
    requires s[|mo| + 2 + |d|..|mo| + 2 + |d| + |w|] == w
    requires s[|mo| + 2 + |d| + |w|..|mo| + 2 + |d| + |w| + |hh|] == hh
    requires s[|mo| + 2 + |d| + |w| + |hh|] == ':'
    requires s[|mo| + 3 + |d| + |w| + |hh|..] == mm
    ensures MonthDayAt(s, 0) == Some((mo, d, hh, mm))
  {
    var k1 := |mo|;
    var k2 := k1 + 1 + |d|;
    assert s[0..k1] == mo;
    DigitsThenMark(s, 0, mo, '月');
    DigitsThenMark(s, k1 + 1, d, '日');
    var j := k2 + 1;
    var k3 := j + |w| + |hh|;
    assert s[j..j + |w|] == w && s[j + |w|..k3] == hh && s[k3] == ':';
    assert s[k3 + 1..k3 + 1 + |mm|] == mm && k3 + 1 + |mm| == |s|;
    ClockAtParts(s, j, w, hh, mm);
    MonthDayAtEnds(s, k1, k2, mo, d, hh, mm);
  }

  /** The pattern at 0, given where the month and day runs end and what the clock
      tail captures. */
  lemma MonthDayAtEnds(s: string, k1: nat, k2: nat, mo: string, d: string, hh: string, mm: string)
    requires k1 < k2 < |s| && s[0..k1] == mo && s[k1 + 1..k2] == d
    requires DigitRunEnd(s, 0) == k1 && OccursAt(s, "月", k1)
    requires DigitRunEnd(s, k1 + 1) == k2 && OccursAt(s, "日", k2)
    requires ClockAt(s, k2 + 1) == Some((hh, mm))
    ensures MonthDayAt(s, 0) == Some((mo, d, hh, mm))
  {
    assert !(0 > |s|) && !!OccursAt(s, "月", k1) && !!OccursAt(s, "日", k2);
    match ClockAt(s, k2 + 1)
    case Some((h, m)) =>
      assert (h, m) == (hh, mm);
      assert MonthDayAt(s, 0) == Some((s[0..k1], s[k1 + 1..k2], h, m));
  }

  /** A run of digits ended by the non-digit `c`. */
  lemma DigitsThenMark(s: string, i: nat, digits: string, c: char)
    requires AllDigits(digits) && !IsDigit(c) && i + |digits| < |s|
    requires s[i..i + |digits|] == digits && s[i + |digits|] == c
    ensures DigitRunEnd(s, i) == i + |digits| && OccursAt(s, [c], i + |digits|)
  {
    DigitRunOf(s, i, digits);
    assert s[i + |digits|..i + |digits| + 1] == [c];
  }

  lemma MonthDayAtStart(mo: string, d: string, w: string, hh: string, mm: string)
    requires AllSpaces(w) && AllDigits(mo) && AllDigits(d) && AllDigits(hh) && AllDigits(mm)
    ensures MonthDayAt(MonthDayText(mo, d, w, hh, mm), 0) == Some((mo, d, hh, mm))
  {
    var s := MonthDayText(mo, d, w, hh, mm);
    var k1 := |mo|;
    var k2 := k1 + 1 + |d|;
    var j := k2 + 1 + |w|;
    var k3 := j + |hh|;
    assert s[..k1] == mo;
    assert s[k1] == '月';
    assert s[k1 + 1..k2] == d;
    assert s[k2] == '日';
    assert s[k2 + 1..j] == w;
    assert s[j..k3] == hh;
    assert s[k3] == ':';
    assert s[k3 + 1..] == mm;
    MonthDayAtParts(s, mo, d, w, hh, mm);
  }

  /** "M月D日 HH:MM" is that date and time in `now`'s year; ValueError when a number is
      missing or the date does not exist (`datetime` refuses 2月30日), except
      OverflowError when a number does not fit a C `int`. */
  lemma MonthDayStamp(mo: string, d: string, w: string, hh: string, mm: string, now: DateTime)
    requires Valid(now) && AllSpaces(w)
    requires AllDigits(mo) && AllDigits(d) && AllDigits(hh) && AllDigits(mm)
    ensures var r := GetTime(MonthDayText(mo, d, w, hh, mm), now);
      var dt := DateTime(now.year, DigitsValue(mo), DigitsValue(d), DigitsValue(hh), DigitsValue(mm), 0);
      && (r.Ok? <==> mo != "" && d != "" && hh != "" && mm != "" && Valid(dt))
      && (r.Ok? ==> r.value == Format(dt))
      && (r.Err? ==> r.error == (if mo != "" && d != "" && hh != "" && mm != ""
                                    && (dt.month > IntMax || dt.day > IntMax || dt.hour > IntMax || dt.minute > IntMax)
                                 then OverflowError else ValueError))
  {
    var s := MonthDayText(mo, d, w, hh, mm);
    MonthDayTextLacks(mo, d, w, hh, mm);
    NoMinutesAgo(s, "");
    assert s + "" == s;
    NoToday(s);
    MonthDayAtStart(mo, d, w, hh, mm);
    FirstMatchAtStart(s, MonthDayAt);
    TakesMonthDay(s, now, false, 0, (mo, d, hh, mm));
  }
}
