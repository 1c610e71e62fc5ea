/**
 * Process settings: business hours as "HH:MM" text, the appointment constants, the
 * home base and the travel-time cache lifetime. The settings object is built once,
 * its two business-hours fields checked by `validate_time_format`, and never updated.
 */
module Config {

  import opened Wrappers
  import opened Text
  import opened Datetime

  datatype ConfigError =
    | InvalidTimeFormat(text: string)   // validate_time_format's ValueError
    | InvalidInteger(text: string)      // int() on the CACHE_TTL text

  /**
   * `hours, minutes = map(int, v.split(":"))`: the two parsed parts, or None where
   * Python raises (not exactly two parts, or a part that is not an integer).
   */
  function ParseHoursMinutes(v: string): (r: Option<(nat, nat)>)
  {
    var parts := Split(v, ':');
    if |parts| == 2 && IsDigits(parts[0]) && IsDigits(parts[1])
    then Some((DigitsValue(parts[0]), DigitsValue(parts[1])))
    else None
  }

  /** The text in "HH:MM" form that `validate_time_format` accepts. */
  predicate IsTimeText(v: string)
  {
    match ParseHoursMinutes(v)
    case None => false
    case Some((h, m)) => h < 24 && m < 60
  }

  /** The field validator on BUSINESS_HOURS_START and BUSINESS_HOURS_END. */
  function ValidateTimeFormat(v: string): (r: Result<string, ConfigError>)
    ensures r.Ok? <==> IsTimeText(v)
    ensures r.Ok? ==> r.value == v
    ensures r.Err? ==> r.error == InvalidTimeFormat(v)
  {
    if IsTimeText(v) then Ok(v) else Err(InvalidTimeFormat(v))
  }

  /**
   * The accepted strings are exactly "digits:digits" with hours below 24 and
   * minutes below 60. Leading zeros are allowed and the digit strings may be of any length.
   */
  lemma ValidateTimeFormatAccepts(v: string)
    ensures ValidateTimeFormat(v).Ok? <==>
      exists i :: 0 <= i < |v| && TimeTextAt(v, i)
  {
    if ValidateTimeFormat(v).Ok? {
      AcceptedTextHasSeparator(v);
    }
    if exists i :: 0 <= i < |v| && TimeTextAt(v, i) {
      var i :| 0 <= i < |v| && TimeTextAt(v, i);
      TimeTextAtAccepted(v, i);
    }
  }

  /** `v` is digits, a ':' at index `i`, then digits, with hours below 24 and minutes below 60. */
  predicate TimeTextAt(v: string, i: int)
    requires 0 <= i < |v|
  {
    v[i] == ':' && IsDigits(v[..i]) && IsDigits(v[i + 1..])
    && DigitsValue(v[..i]) < 24 && DigitsValue(v[i + 1..]) < 60
  }

  lemma AcceptedTextHasSeparator(v: string)
    requires IsTimeText(v)
    ensures var i := FirstIndex(v, ':'); i < |v| && TimeTextAt(v, i)
  {
    var i := FirstIndex(v, ':');
    assert i < |v|;
    var rest := Split(v[i + 1..], ':');
    assert Split(v, ':') == [v[..i]] + rest;
    assert |rest| == 1;
    assert rest[0] == v[i + 1..];
  }

  lemma TimeTextAtAccepted(v: string, i: int)
    requires 0 <= i < |v| && TimeTextAt(v, i)
    ensures IsTimeText(v)
  {
    NoSeparatorInDigits(v[..i]);
    NoSeparatorInDigits(v[i + 1..]);
    SplitAtOnly(v, i, ':');
  }

  lemma NoSeparatorInDigits(s: string)
    requires IsDigits(s)
    ensures ':' !in s
  {
  }

  /** A time converted from accepted text: `time(hours, minutes)`. */
  function TimeFromText(v: string): (t: TimeOfDay)
    requires IsTimeText(v)
    ensures t.Valid()
    ensures ParseHoursMinutes(v) == Some((t.hour, t.minute))
  {
    var hm := ParseHoursMinutes(v).value;
    TimeOfDay(hm.0, hm.1)
  }

  /** The "HH:MM" text of a wall-clock time, as the default settings spell it. */
  function FormatTime(t: TimeOfDay): (v: string)
    requires t.Valid()
  {
    TwoDigits(t.hour) + ":" + TwoDigits(t.minute)
  }

  /** Formatting is a right inverse of parsing: the text is accepted and reads back as the same time. */
  lemma {:induction false} FormatTimeRoundTrip(t: TimeOfDay)
    requires t.Valid()
    ensures ValidateTimeFormat(FormatTime(t)) == Ok(FormatTime(t))
    ensures TimeFromText(FormatTime(t)) == t
  {
    var v := FormatTime(t);
    var hh, mm := TwoDigits(t.hour), TwoDigits(t.minute);
    assert v[..2] == hh && v[3..] == mm && v[2] == ':';
    NoSeparatorInDigits(hh);
    NoSeparatorInDigits(mm);
    SplitAtOnly(v, 2, ':');
    TwoDigitsValue(t.hour);
    TwoDigitsValue(t.minute);
  }

  datatype Settings = Settings(
    businessHoursStart: string,
    businessHoursEnd: string,
    appointmentBufferMinutes: int,
    defaultAppointmentDuration: int,
    maxDaysAhead: int,
    homeBaseLat: real,
    homeBaseLng: real,
    cacheTtl: int)
  {
    /** What the field validators guarantee of every settings object that exists. */
    predicate Valid()
    {
      IsTimeText(businessHoursStart) && IsTimeText(businessHoursEnd)
    }
  }

  /** `get_business_hours_start_time`. */
  function BusinessHoursStartTime(s: Settings): (t: TimeOfDay)
    requires s.Valid()
    ensures t.Valid()
    ensures ParseHoursMinutes(s.businessHoursStart) == Some((t.hour, t.minute))
  {
    TimeFromText(s.businessHoursStart)
  }

  /** `get_business_hours_end_time`. */
  function BusinessHoursEndTime(s: Settings): (t: TimeOfDay)
    requires s.Valid()
    ensures t.Valid()
    ensures ParseHoursMinutes(s.businessHoursEnd) == Some((t.hour, t.minute))
  {
    TimeFromText(s.businessHoursEnd)
  }

  /** `os.getenv("CACHE_TTL", "3600").split("#")[0].strip()`: the text handed to int(). */
  function CacheTtlText(raw: string): (r: string)
    ensures '#' !in r
    ensures |r| > 0 ==> !IsSpace(r[0]) && !IsSpace(r[|r| - 1])
  {
    var head := Split(raw, '#')[0];
    StripKeepsAbsent(head, '#');
    Strip(head)
  }

  /** The CACHE_TTL value, or the error int() raises on its text. */
  function ParseCacheTtl(raw: string): (r: Result<int, ConfigError>)
    ensures r.Ok? <==> IsDigits(CacheTtlText(raw))
  {
    match ParseInt(CacheTtlText(raw))
    case Some(n) => Ok(n)
    case None => Err(InvalidInteger(CacheTtlText(raw)))
  }

  /**
   * A number written with surrounding blanks and followed by a `#` comment reads as
   * that number: the comment is cut off before the blanks are stripped.
   */
  lemma {:induction false} CacheTtlIgnoresComment(a: string, digits: string, b: string, comment: string)
    requires forall k :: 0 <= k < |a| ==> IsSpace(a[k])
    requires forall k :: 0 <= k < |b| ==> IsSpace(b[k])
    requires IsDigits(digits)
    ensures ParseCacheTtl(a + digits + b + "#" + comment) == Ok(DigitsValue(digits))
  {
    var head := a + digits + b;
    var raw := head + "#" + comment;
    assert '#' !in head by {
      forall k | 0 <= k < |head| ensures head[k] != '#' {
        if k < |a| { assert head[k] == a[k]; }
        else if k < |a| + |digits| { assert head[k] == digits[k - |a|]; assert IsDigit(digits[k - |a|]); }
        else { assert head[k] == b[k - |a| - |digits|]; }
      }
    }
    assert FirstIndex(raw, '#') == |head| by {
      assert forall k :: 0 <= k < |head| ==> raw[k] == head[k];
      assert raw[|head|] == '#';
    }
    assert raw[..|head|] == head;
    assert Split(raw, '#')[0] == head;
    assert IsDigit(digits[0]) && IsDigit(digits[|digits| - 1]);
    StripSurroundedBy(a, digits, b);
  }

  /**
   * The settings object built at start-up: CACHE_TTL is converted first (its int() runs
   * while the arguments are evaluated), then the business-hours validators run.
   */
  function LoadSettings(
    businessHoursStart: string, businessHoursEnd: string,
    bufferMinutes: int, defaultDuration: int, maxDaysAhead: int,
    homeBaseLat: real, homeBaseLng: real, cacheTtlRaw: string): (r: Result<Settings, ConfigError>)
    ensures r.Ok? <==>
      ParseCacheTtl(cacheTtlRaw).Ok? && IsTimeText(businessHoursStart) && IsTimeText(businessHoursEnd)
    ensures r.Ok? ==> (
      && r.value.Valid()
      && r.value.businessHoursStart == businessHoursStart && r.value.businessHoursEnd == businessHoursEnd
      && r.value.appointmentBufferMinutes == bufferMinutes
      && r.value.defaultAppointmentDuration == defaultDuration
      && r.value.maxDaysAhead == maxDaysAhead
      && r.value.homeBaseLat == homeBaseLat && r.value.homeBaseLng == homeBaseLng
      && r.value.cacheTtl == ParseCacheTtl(cacheTtlRaw).value)
  {
    match ParseCacheTtl(cacheTtlRaw)
    case Err(e) => Err(e)
    case Ok(ttl) =>
      match ValidateTimeFormat(businessHoursStart)
      case Err(e) => Err(e)
      case Ok(_) =>
        match ValidateTimeFormat(businessHoursEnd)
        case Err(e) => Err(e)
        case Ok(_) =>
          Ok(Settings(businessHoursStart, businessHoursEnd, bufferMinutes, defaultDuration,
                      maxDaysAhead, homeBaseLat, homeBaseLng, ttl))
  }

  /** The settings when no environment variable overrides a default (the home base defaults to 0, 0). */
  function DefaultSettings(): Result<Settings, ConfigError>
  {
    LoadSettings("09:00", "18:00", 15, 60, 7, 0.0, 0.0, "3600")
  }

  lemma DefaultTimeTexts()
    ensures IsTimeText("09:00") && TimeFromText("09:00") == TimeOfDay(9, 0)
    ensures IsTimeText("18:00") && TimeFromText("18:00") == TimeOfDay(18, 0)
  {
    FormatTimeRoundTrip(TimeOfDay(9, 0));
    FormatTimeRoundTrip(TimeOfDay(18, 0));
    assert FormatTime(TimeOfDay(9, 0)) == "09:00";
    assert FormatTime(TimeOfDay(18, 0)) == "18:00";
  }

  lemma DefaultCacheTtl()
    ensures ParseCacheTtl("3600") == Ok(3600)
  {
    DefaultCacheTtlText();
    DefaultCacheTtlDigits();
  }

  lemma DefaultCacheTtlText()
    ensures CacheTtlText("3600") == "3600"
  {
    assert FirstIndex("3600", '#') == 4;
    assert Split("3600", '#')[0] == "3600";
    assert !IsSpace('3') && !IsSpace('0');
    assert Strip("3600") == "3600";
  }

  lemma DefaultCacheTtlDigits()
    ensures IsDigits("3600") && DigitsValue("3600") == 3600
  {
    assert "3600"[..3] == "360";
    assert "360"[..2] == "36";
    assert "36"[..1] == "3";
    assert "3"[..0] == "";
  }

  /** The defaults load, with business hours 09:00 to 18:00, a 15-minute buffer, 60-minute appointments and a 7-day look-ahead. */
  lemma DefaultSettingsValues()
    ensures DefaultSettings().Ok?
    ensures var s := DefaultSettings().value;
      && BusinessHoursStartTime(s) == TimeOfDay(9, 0)
      && BusinessHoursEndTime(s) == TimeOfDay(18, 0)
      && s.appointmentBufferMinutes == 15
      && s.defaultAppointmentDuration == 60
      && s.maxDaysAhead == 7
      && s.cacheTtl == 3600
  {
    DefaultTimeTexts();
    DefaultCacheTtl();
  }
}
