/**
 * The DateTime tool (`get_date_time` in agent.py). The two clock readings it
 * makes, the local wall-clock time and the UTC time, are parameters, as
 * whole seconds counted from 1970-01-01 00:00:00 on each clock.
 */
module DateTimeTool {
  import opened Wrappers
  import opened Text
  import opened Calendar

  /** The supported timezone codes and their whole-hour offsets from UTC. */
  const Zones: seq<(string, int)> := [
    ("utc", 0), ("gmt", 0),
    ("est", -5), ("edt", -4),
    ("cst", -6), ("cdt", -5),
    ("mst", -7), ("mdt", -6),
    ("pst", -8), ("pdt", -7)
  ]

  /** The offset stored for `code` in `table`, if the code is there (`code in offsets`, then `offsets[code]`). */
  function Find(table: seq<(string, int)>, code: string): (r: Option<int>)
    ensures r.Some? ==> exists i :: 0 <= i < |table| && table[i] == (code, r.value)
    ensures r.None? <==> forall i :: 0 <= i < |table| ==> table[i].0 != code
  {
    if table == [] then None
    else if table[0].0 == code then Some(table[0].1)
    else Find(table[1..], code)
  }

  /** The offset `get_date_time` applies for a lower-cased code: a whole number of hours from -8 to 0. */
  function Offset(code: string): (r: Option<int>)
    ensures r.Some? ==> (code, r.value) in Zones && -8 <= r.value <= 0
  {
    assert forall i :: 0 <= i < |Zones| ==> -8 <= Zones[i].1 <= 0;
    Find(Zones, code)
  }

  /** Exactly the ten listed codes are supported, each with an offset between -8 and 0 hours. */
  lemma SupportedCodes(code: string)
    ensures Offset(code).Some? <==> code in ["utc", "gmt", "est", "edt", "cst", "cdt", "mst", "mdt", "pst", "pdt"]
    ensures Offset(code).Some? ==> -8 <= Offset(code).value <= 0
  {
    var codes := ["utc", "gmt", "est", "edt", "cst", "cdt", "mst", "mdt", "pst", "pdt"];
    assert forall i :: 0 <= i < |Zones| ==> Zones[i].0 == codes[i] && -8 <= Zones[i].1 <= 0;
    if Offset(code).Some? {
      var i :| 0 <= i < |Zones| && Zones[i] == (code, Offset(code).value);
    }
  }

  /** No code is listed twice, so the table holds ten different codes. */
  lemma TenDistinctCodes()
    ensures |Zones| == 10
    ensures forall i, j :: 0 <= i < j < |Zones| ==> Zones[i].0 != Zones[j].0
  {
  }

  /** The two clock readings: the local wall-clock time and the UTC time. */
  datatype Clock = Clock(local: int, utc: int)

  const OutOfRange := "Error processing timezone: date value out of range"

  function Unsupported(code: string): string {
    "Timezone '" + code + "' not supported. Try UTC, GMT, EST, CST, MST, PST, etc."
  }

  /** What `get_date_time` decides to report, before it is written out. */
  datatype Reading =
    | LocalTime(at: int)               // no timezone: the local clock
    | ZoneTime(code: string, at: int)  // a supported code: UTC shifted by its offset
    | ShiftOutOfRange                  // the shift left the range `datetime` can hold
    | NotSupported(code: string)       // a code that is not in the table

  predicate Writable(r: Reading) {
    (r.LocalTime? || r.ZoneTime?) ==> InRange(r.at)
  }

  /**
   * The decision `get_date_time(timezone)` makes. An absent or empty timezone
   * reports the local time; any other is decided by its lower-cased code.
   */
  function Decide(timezone: Option<string>, clock: Clock): (r: Reading)
    requires InRange(clock.local) && InRange(clock.utc)
    ensures Writable(r)
    ensures r.LocalTime? <==> timezone.None? || timezone.value == []
    ensures r.LocalTime? ==> r.at == clock.local
  {
    if timezone.None? || timezone.value == [] then LocalTime(clock.local)
    else ForCode(LowerStr(timezone.value), clock.utc)
  }

  /**
   * A lower-cased code: a supported one reports the UTC time shifted by its
   * offset; a shift past the first second `datetime` can hold is an error;
   * any other code is not supported.
   */
  function ForCode(code: string, utc: int): (r: Reading)
    requires InRange(utc)
    ensures Writable(r) && !r.LocalTime?
    ensures r.NotSupported? <==> Offset(code).None?
    ensures r.NotSupported? ==> r.code == code
    ensures r.ZoneTime? ==> r.code == code && Offset(code).Some? && r.at == utc + Offset(code).value * 3600
    ensures r.ShiftOutOfRange? <==> Offset(code).Some? && utc + Offset(code).value * 3600 < MinSeconds
  {
    match Offset(code)
    case Some(hours) =>
      var shifted := utc + hours * 3600;
      if !InRange(shifted) then
        ShiftStaysBelowMax(code, utc);
        ShiftOutOfRange
      else ZoneTime(code, shifted)
    case None => NotSupported(code)
  }

  /** A zone's report is headed by its code in capitals. */
  function ZoneHeading(code: string): string {
    "Current date and time in " + UpperStr(code) + ": "
  }

  /** The message written for each reading; a zone is labelled by its code in capitals. */
  function Message(r: Reading): (s: string)
    requires Writable(r)
    ensures r.LocalTime? ==> IsPrefix("Current date and time: ", s) && |s| == 23 + 19
    ensures r.ZoneTime? ==> IsPrefix(ZoneHeading(r.code), s) && |s| == |ZoneHeading(r.code)| + 19
  {
    match r
    case LocalTime(at) => "Current date and time: " + Render(FromSeconds(at))
    case ZoneTime(code, at) => ZoneHeading(code) + Render(FromSeconds(at))
    case ShiftOutOfRange => OutOfRange
    case NotSupported(code) => Unsupported(code)
  }

  /** `get_date_time(timezone)`: the message for the decision. */
  function DateTime(timezone: Option<string>, clock: Clock): (s: string)
    requires InRange(clock.local) && InRange(clock.utc)
    ensures timezone.None? || timezone.value == [] ==> IsPrefix("Current date and time: ", s)
    ensures timezone.Some? && timezone.value != [] ==>
      var code := LowerStr(timezone.value);
      match Offset(code)
      case None => s == Unsupported(code)
      case Some(hours) =>
        if clock.utc + hours * 3600 < MinSeconds then s == OutOfRange
        else IsPrefix(ZoneHeading(code), s)
  {
    Message(Decide(timezone, clock))
  }

  /** The instant a report carries after `heading`, read back from its timestamp. */
  function ReportedInstant(report: string, heading: string): Option<int> {
    if |report| == |heading| + 19 && report[..|heading|] == heading then
      match ParseTimestamp(report[|heading|..])
      case Some(t) => if ValidTimestamp(t) then Some(ToSeconds(t)) else None
      case None => None
    else None
  }

  /** The timestamp written after a heading reads back as the instant it was made from. */
  lemma ReadBack(heading: string, s: int)
    requires InRange(s)
    ensures ReportedInstant(heading + Render(FromSeconds(s)), heading) == Some(s)
  {
    var t := FromSeconds(s);
    FromSecondsInverse(s);
    InRangeIffSupportedYear(s);
    RenderRoundTrip(t);
    var r := heading + Render(t);
    assert r[..|heading|] == heading;
    assert r[|heading|..] == Render(t);
  }

  /** Without a timezone the report carries the local time, unshifted. */
  lemma LocalTimeUnshifted(timezone: Option<string>, clock: Clock)
    requires InRange(clock.local) && InRange(clock.utc)
    requires timezone.None? || timezone.value == []
    ensures ReportedInstant(DateTime(timezone, clock), "Current date and time: ") == Some(clock.local)
  {
    ReadBack("Current date and time: ", clock.local);
  }

  /**
   * With a supported code, unless the shift leaves the range, the UTC
   * instant plus the code's offset in hours is reported for the lower-cased code.
   */
  lemma SupportedZoneShifted(zone: string, clock: Clock, hours: int)
    requires InRange(clock.local) && InRange(clock.utc)
    requires zone != [] && Offset(LowerStr(zone)) == Some(hours)
    requires clock.utc + hours * 3600 >= MinSeconds
    ensures Decide(Some(zone), clock) == ZoneTime(LowerStr(zone), clock.utc + hours * 3600)
  {
  }

  /** A zone's report is headed by its code in capitals and carries the instant it was decided on. */
  lemma ZoneReadBack(r: Reading)
    requires r.ZoneTime? && Writable(r)
    ensures ReportedInstant(Message(r), ZoneHeading(r.code)) == Some(r.at)
  {
    ReadBack(ZoneHeading(r.code), r.at);
  }

  /** A supported zone's report reads back as the UTC instant shifted by the zone's offset. */
  lemma ZoneTimeShifted(zone: string, clock: Clock, hours: int)
    requires InRange(clock.local) && InRange(clock.utc)
    requires zone != [] && Offset(LowerStr(zone)) == Some(hours)
    requires clock.utc + hours * 3600 >= MinSeconds
    ensures ReportedInstant(DateTime(Some(zone), clock), ZoneHeading(LowerStr(zone))).Some?
    ensures ReportedInstant(DateTime(Some(zone), clock), ZoneHeading(LowerStr(zone))).value == clock.utc + hours * 3600
  {
    SupportedZoneShifted(zone, clock, hours);
    DecidedZoneReadBack(Some(zone), clock, LowerStr(zone), clock.utc + hours * 3600);
  }

  /** When the decision is a zone reading, the tool's report carries that reading's instant under its heading. */
  lemma DecidedZoneReadBack(timezone: Option<string>, clock: Clock, code: string, at: int)
    requires InRange(clock.local) && InRange(clock.utc)
    requires Decide(timezone, clock) == ZoneTime(code, at)
    ensures ReportedInstant(DateTime(timezone, clock), ZoneHeading(code)) == Some(at)
  {
    ZoneReadBack(Decide(timezone, clock));
  }

  /** The code is matched whatever its case: the report for a code is the report for its capitals. */
  lemma ZoneCaseIgnored(zone: string, clock: Clock)
    requires InRange(clock.local) && InRange(clock.utc)
    ensures DateTime(Some(UpperStr(zone)), clock) == DateTime(Some(zone), clock)
  {
    LowerOfUpper(zone);
    assert |UpperStr(zone)| == |zone|;
  }

  /** "EST", in any case, at a UTC instant reports the instant five hours earlier, labelled EST. */
  lemma EasternStandardTime(zone: string, clock: Clock)
    requires InRange(clock.local) && InRange(clock.utc) && InRange(clock.utc - 5 * 3600)
    requires LowerStr(zone) == "est"
    ensures DateTime(Some(zone), clock) == ZoneHeading("est") + Render(FromSeconds(clock.utc - 18000))
    ensures ZoneHeading("est") == "Current date and time in " + "EST" + ": "
  {
    EasternReading(clock.utc);
    EasternLabel();
  }

  lemma EasternReading(utc: int)
    requires InRange(utc) && InRange(utc - 5 * 3600)
    ensures ForCode("est", utc) == ZoneTime("est", utc - 18000)
  {
    EasternOffset();
  }

  lemma EasternOffset()
    ensures Offset("est") == Some(-5)
  {
  }

  lemma EasternLabel()
    ensures UpperStr("est") == "EST"
  {
  }

  /** "XYZ" is reported as unsupported, in lower case. */
  lemma UnknownZoneNotSupported(clock: Clock)
    requires InRange(clock.local) && InRange(clock.utc)
    ensures DateTime(Some("XYZ"), clock) == Unsupported("xyz")
  {
    UnknownCode();
  }

  lemma UnknownCode()
    ensures LowerStr("XYZ") == "xyz" && Offset("xyz").None?
  {
    assert LowerStr("XYZ") == "xyz";
  }

  /** A padded code is not trimmed, so it is not supported. */
  lemma PaddedZoneNotSupported(clock: Clock)
    requires InRange(clock.local) && InRange(clock.utc)
    ensures DateTime(Some(" est"), clock) == Unsupported(" est")
  {
    PaddedCode();
  }

  lemma PaddedCode()
    ensures LowerStr(" est") == " est" && Offset(" est").None?
  {
    assert LowerStr(" est") == " est";
  }

  /** Only an instant within the first eight hours of year 1 can be shifted out of range; the shift never passes the end. */
  lemma ShiftStaysBelowMax(code: string, utc: int)
    requires InRange(utc) && Offset(code).Some?
    ensures utc + Offset(code).value * 3600 <= MaxSeconds
    ensures utc >= MinSeconds + 8 * 3600 ==> InRange(utc + Offset(code).value * 3600)
  {
    SupportedCodes(code);
  }
}
