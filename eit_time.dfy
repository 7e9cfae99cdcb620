/**
 * The fixed 10-byte EIT block of an event (event_id, start_time and
 * duration of ETSI EN 300 468 section 5.2.4) and the conversions the
 * program applies to it: eit_event_id, eit_event_start, eit_event_duration.
 *
 * eit_event_start evaluates the Modified Julian Date formula of EN 300 468
 * Annex C with float literals and int() truncation.  Here every literal is
 * an exact fraction (15078.2 = 1507820/100, 365.25 = 36525/100,
 * 14956.1 = 149561/10, 30.6001 = 306001/10000) and int() is TruncDiv,
 * truncation toward zero.
 */
module EitTime {
  import opened Base
  import opened Reader
  import opened Bcd

  /** The fields datetime.datetime(year, month, day, hour, minute) receives; seconds are 0. */
  datatype DateTime = DateTime(year: int, month: int, day: int, hour: int, minute: int)

  /** The decoded EIT block of one event: the EIT class of the program. */
  datatype Eit = Eit(id: nat, start: DateTime, duration: nat)

  /** Python's int(a / b) for b > 0: the quotient truncated toward zero. */
  function TruncDiv(a: int, b: int): int
    requires b > 0
  {
    if a >= 0 then a / b else -((-a) / b)
  }

  /** The intermediate values of eit_event_start: year and month counters
      and the day offsets int(year * 365.25) and int(month * 30.6001). */
  datatype MjdParts = MjdParts(y0: int, yearDays: int, m0: int, monthDays: int)

  function Parts(mjd: int): MjdParts
  {
    var y0 := TruncDiv(100 * mjd - 1507820, 36525);
    var yearDays := TruncDiv(36525 * y0, 100);
    var m0 := TruncDiv((10 * mjd - 149561 - 10 * yearDays) * 1000, 306001);
    var monthDays := TruncDiv(m0 * 306001, 10000);
    MjdParts(y0, yearDays, m0, monthDays)
  }

  /** (year, month, day) as eit_event_start computes them, before datetime checks them. */
  function MjdToDate(mjd: int): (int, int, int)
  {
    var p := Parts(mjd);
    var day := mjd - 14956 - p.yearDays - p.monthDays;
    var k := if p.m0 == 14 || p.m0 == 15 then 1 else 0;
    (p.y0 + k + 1900, p.m0 - 1 - k * 12, day)
  }

  /** The reverse formula of EN 300 468 Annex C: calendar date to MJD. */
  function DateToMjd(year: int, month: int, day: int): int
  {
    var l := if month == 1 || month == 2 then 1 else 0;
    14956 + day + TruncDiv(36525 * (year - 1900 - l), 100) + TruncDiv((month + 1 + l * 12) * 306001, 10000)
  }

  predicate IsLeapYear(y: int)
  {
    y % 4 == 0 && (y % 100 != 0 || y % 400 == 0)
  }

  function DaysInMonth(y: int, m: int): int
    requires 1 <= m <= 12
  {
    if m == 2 then (if IsLeapYear(y) then 29 else 28)
    else if m == 4 || m == 6 || m == 9 || m == 11 then 30
    else 31
  }

  /** The range checks of datetime.datetime's constructor (MINYEAR 1, MAXYEAR 9999). */
  predicate ValidDateTime(t: DateTime)
  {
    && 1 <= t.year <= 9999
    && 1 <= t.month <= 12
    && 1 <= t.day <= DaysInMonth(t.year, t.month)
    && 0 <= t.hour <= 23
    && 0 <= t.minute <= 59
  }

  /** eit_event_id: struct '!H' of bytes 0-1. */
  function EventId(eit: seq<byte>): (r: Result<nat>)
    ensures r.Ok? <==> |eit| >= 2
    ensures r.Err? ==> r.error == UnexpectedEof
    ensures r.Ok? ==> r.value == 256 * (eit[0] as int) + eit[1]
  {
    if |eit| >= 2 then
      TwoBytesBigEndian(eit, 0);
      UnsignedAt(eit, 0, 2, true)
    else UnsignedAt(eit, 0, 2, true)
  }

  /** eit_event_start: MJD from bytes 2-3 (always big-endian), BCD hour and
      minute from bytes 4 and 5; datetime refuses an impossible result. */
  function StartTime(eit: seq<byte>): Result<DateTime>
  {
    var mjd :- UnsignedAt(eit, 2, 2, true);
    var date := MjdToDate(mjd);
    var hour :- UnsignedAt(eit, 4, 1, true);
    var minute :- UnsignedAt(eit, 5, 1, true);
    var t := DateTime(date.0, date.1, date.2, BcdValue(hour), BcdValue(minute));
    if ValidDateTime(t) then Ok(t) else Err(InvalidDate)
  }

  /** eit_event_duration: BCD hours, minutes and seconds in bytes 7, 8, 9. */
  function Duration(eit: seq<byte>): Result<nat>
  {
    var h :- UnsignedAt(eit, 7, 1, true);
    var m :- UnsignedAt(eit, 8, 1, true);
    var s :- UnsignedAt(eit, 9, 1, true);
    Ok(BcdValue(h) * 3600 + BcdValue(m) * 60 + BcdValue(s))
  }

  /** The EIT(...) construction of epg_parse_event: id, then start, then duration. */
  function DecodeEit(eit: seq<byte>): Result<Eit>
  {
    var id :- EventId(eit);
    var start :- StartTime(eit);
    var duration :- Duration(eit);
    Ok(Eit(id, start, duration))
  }

  /** The MJD in bytes 2-3 of an EIT block. */
  function MjdOf(eit: seq<byte>): nat
    requires |eit| >= 4
  {
    256 * (eit[2] as int) + eit[3]
  }

  lemma TwoBytesBigEndian(eit: seq<byte>, i: nat)
    requires i + 2 <= |eit|
    ensures UnsignedAt(eit, i, 2, true) == Ok(256 * (eit[i] as int) + eit[i + 1])
  {
    var b := eit[i..i + 2];
    assert b[..1][..0] == [];
    assert BigEndianValue(b[..1]) == eit[i];
    assert BigEndianValue(b) == BigEndianValue(b[..1]) * 256 + eit[i + 1];
  }

  /** With bytes 0-5 present, eit_event_start succeeds exactly when the date
      and time they spell pass datetime's checks; the hour and minute are the
      BCD readings of bytes 4 and 5 and the date is the MJD formula's. */
  lemma StartTimeSpec(eit: seq<byte>)
    requires |eit| >= 6
    ensures var d := MjdToDate(MjdOf(eit));
      var t := DateTime(d.0, d.1, d.2, BcdValue(eit[4]), BcdValue(eit[5]));
      StartTime(eit) == if ValidDateTime(t) then Ok(t) else Err(InvalidDate)
  {
    TwoBytesBigEndian(eit, 2);
    assert UnsignedAt(eit, 2, 2, true) == Ok(MjdOf(eit));
    OneByteIgnoresOrder(eit, 4);
    OneByteIgnoresOrder(eit, 5);
  }

  /** eit_event_duration is 3600, 60 and 1 times the BCD readings of bytes
      7, 8 and 9; byte 6 plays no part. */
  lemma DurationSpec(eit: seq<byte>)
    requires |eit| >= 10
    ensures Duration(eit) == Ok(3600 * BcdValue(eit[7]) + 60 * BcdValue(eit[8]) + BcdValue(eit[9]))
  {
    OneByteIgnoresOrder(eit, 7);
    OneByteIgnoresOrder(eit, 8);
    OneByteIgnoresOrder(eit, 9);
  }

  /** A block cut short fails the way struct.unpack does: event id needs
      bytes 0-1, the start bytes 2-5, the duration bytes 7-9. */
  lemma ShortBlockFails(eit: seq<byte>)
    ensures |eit| < 2 ==> EventId(eit) == Err(UnexpectedEof)
    ensures |eit| < 6 ==> StartTime(eit) == Err(UnexpectedEof)
    ensures |eit| < 10 ==> Duration(eit) == Err(UnexpectedEof)
    ensures |eit| < 10 ==> DecodeEit(eit).Err?
  {
  }

  /** Byte 6 of the block, the seconds of the start time in EN 300 468,
      does not influence the decoded EIT. */
  lemma DecodeEitIgnoresByte6(eit: seq<byte>, b: byte)
    requires |eit| >= 7
    ensures DecodeEit(eit[6 := b]) == DecodeEit(eit)
  {
    var e' := eit[6 := b];
    SameWindow(eit, e', 0, 2);
    assert EventId(e') == EventId(eit);
    StartTimeIgnoresByte6(eit, b);
    DurationIgnoresByte6(eit, b);
  }

  lemma DurationIgnoresByte6(eit: seq<byte>, b: byte)
    requires |eit| >= 7
    ensures Duration(eit[6 := b]) == Duration(eit)
  {
    var e' := eit[6 := b];
    SameWindow(eit, e', 7, 1);
    SameWindow(eit, e', 8, 1);
    SameWindow(eit, e', 9, 1);
  }

  lemma StartTimeIgnoresByte6(eit: seq<byte>, b: byte)
    requires |eit| >= 7
    ensures StartTime(eit[6 := b]) == StartTime(eit)
  {
    var e' := eit[6 := b];
    SameWindow(eit, e', 2, 2);
    SameWindow(eit, e', 4, 1);
    SameWindow(eit, e', 5, 1);
  }

  /** Two blocks of one length that agree on a window read the same there. */
  lemma SameWindow(a: seq<byte>, a': seq<byte>, pos: nat, width: nat)
    requires width > 0 && |a| == |a'|
    requires forall k :: pos <= k < pos + width && k < |a| ==> a[k] == a'[k]
    ensures UnsignedAt(a, pos, width, true) == UnsignedAt(a', pos, width, true)
  {
    if pos + width <= |a| {
      assert a[pos..pos + width] == a'[pos..pos + width];
    }
  }

  /** BCD bytes 0x01 0x30 0x00 give one and a half hours. */
  lemma DurationExample(eit: seq<byte>)
    requires |eit| == 10 && eit[7] == 0x01 && eit[8] == 0x30 && eit[9] == 0x00
    ensures Duration(eit) == Ok(5400)
  {
    DurationSpec(eit);
    BcdDuration(eit[7], eit[8], eit[9]);
  }

  lemma BcdDuration(h: byte, m: byte, s: byte)
    requires h == 0x01 && m == 0x30 && s == 0x00
    ensures 3600 * BcdValue(h) + 60 * BcdValue(m) + BcdValue(s) == 5400
  {
    BcdDigitsByte(0x01);
    BcdDigitsByte(0x30);
  }

  /** For y0 >= 0, int(y0 * 365.25) counts a leap day every fourth year. */
  lemma YearDays(y0: int)
    requires y0 >= 0
    ensures TruncDiv(36525 * y0, 100) == 365 * y0 + y0 / 4
  {
    var q := y0 / 4;
    var r := y0 % 4;
    assert 36525 * y0 == 100 * (365 * y0 + q) + 25 * r;
  }

  /** From MJD 15079 (1900-03-01) on, every quotient is non-negative, the
      month counter runs from 4 (March) to 15 (February of the next year),
      and the day is at least 1 and at most the month's length in the
      calendar the formula implies (a 29th of February only when y0 % 4 == 3). */
  lemma PartsBounds(mjd: int)
    requires mjd >= 15079
    ensures var p := Parts(mjd);
      && p.y0 >= 0
      && p.yearDays == 365 * p.y0 + p.y0 / 4
      && 4 <= p.m0 <= 15
      && 1 <= mjd - 14956 - p.yearDays - p.monthDays
      && mjd - 14956 - p.yearDays - p.monthDays <= MonthLength(p.m0, p.y0)
  {
    var p := Parts(mjd);
    assert p.y0 == (100 * mjd - 1507820) / 36525;
    YearDays(p.y0);
    var x := 10 * mjd - 149561 - 10 * p.yearDays;
    assert 100 * p.yearDays <= 36525 * p.y0 < 100 * p.yearDays + 100;
    assert x >= 0;
    assert p.m0 == (x * 1000) / 306001;
    var day := mjd - 14956 - p.yearDays - p.monthDays;
    MonthBounds(mjd, p.y0, p.yearDays, p.m0, p.monthDays, day);
  }

  /** Days in month counter m0 (4 = March ... 15 = February) of year y0 + 1900. */
  function MonthLength(m0: int, y0: int): int
  {
    if m0 == 15 then (if y0 % 4 == 3 then 29 else 28)
    else if m0 == 5 || m0 == 7 || m0 == 10 || m0 == 12 then 30
    else 31
  }

  lemma MonthBounds(mjd: int, y0: int, yd: int, m0: int, md: int, day: int)
    requires y0 >= 0 && 36525 * y0 <= 100 * mjd - 1507820 < 36525 * y0 + 36525
    requires yd == 365 * y0 + y0 / 4
    requires m0 * 306001 <= (10 * mjd - 149561 - 10 * yd) * 1000 < m0 * 306001 + 306001
    requires m0 >= 0 && md == (m0 * 306001) / 10000
    requires day == mjd - 14956 - yd - md
    ensures 4 <= m0 <= 15
    ensures 1 <= day <= MonthLength(m0, y0)
  {
    var q, r := y0 / 4, y0 % 4;
    assert y0 == 4 * q + r;
    assert 15079 <= mjd - yd <= 15444;
    assert 4 <= m0 <= 15;
    if m0 == 15 {
      assert md == 459;
      if day == 29 {
        assert r == 3;
      }
    }
  }

  /** Annex C round trip: from 1900-03-01 on, the reverse formula recovers
      the MJD that eit_event_start converted. */
  lemma MjdRoundTrip(mjd: int)
    requires mjd >= 15079
    ensures var d := MjdToDate(mjd); DateToMjd(d.0, d.1, d.2) == mjd
  {
    PartsBounds(mjd);
  }

  /** Every 16-bit MJD from 15079 (1900-03-01) to 65535 (2038-04-22) gives a
      date that datetime accepts: the formula never yields a 29th of February
      in a common year or a 31st in a 30-day month within that range. */
  lemma MjdDateValid(mjd: int)
    requires 15079 <= mjd <= 65535
    ensures var d := MjdToDate(mjd);
      && 1900 <= d.0 <= 2038
      && 1 <= d.1 <= 12
      && 1 <= d.2 <= DaysInMonth(d.0, d.1)
  {
    PartsBounds(mjd);
    var p := Parts(mjd);
    assert p.y0 <= 138;
    var d := MjdToDate(mjd);
    if p.m0 == 15 && p.y0 % 4 == 3 {
      assert d.0 == p.y0 + 1901 && d.0 % 4 == 0;
      assert d.0 % 100 != 0 || d.0 == 2000;
      assert IsLeapYear(d.0);
    }
  }

  /** Within the 16-bit MJD range from 1900-03-01 on, eit_event_start fails
      only when the BCD hour exceeds 23 or the BCD minute exceeds 59. */
  lemma StartTimeOkIff(eit: seq<byte>)
    requires |eit| >= 6 && MjdOf(eit) >= 15079
    ensures StartTime(eit).Ok? <==> BcdValue(eit[4]) <= 23 && BcdValue(eit[5]) <= 59
  {
    StartTimeSpec(eit);
    MjdDateValid(MjdOf(eit));
  }

  lemma MjdExamples()
    ensures MjdToDate(58849) == (2020, 1, 1)
    ensures MjdToDate(45218) == (1982, 9, 6)
  {
    assert Parts(58849) == MjdParts(119, 43464, 14, 428);
    assert Parts(45218) == MjdParts(82, 29950, 10, 306);
  }

  /** The first and the last date the formula reaches from MJD 15079 on. */
  lemma MjdRangeEnds()
    ensures MjdToDate(15079) == (1900, 3, 1)
    ensures MjdToDate(65535) == (2038, 4, 22)
  {
    assert Parts(15079) == MjdParts(0, 0, 4, 122);
    assert Parts(65535) == MjdParts(138, 50404, 5, 153);
  }

  /** Below 1900-03-01 the formula leaves its range: MJD 0 yields month -1
      and MJD 15078 yields 31 February 1900, both refused by datetime. */
  lemma EarlyMjdRejected(eit: seq<byte>)
    requires |eit| >= 6 && (MjdOf(eit) == 0 || MjdOf(eit) == 15078)
    ensures StartTime(eit) == Err(InvalidDate)
  {
    StartTimeSpec(eit);
    EarlyDates();
  }

  /** What the formula makes of MJD 0 and MJD 15078. */
  lemma EarlyDates()
    ensures MjdToDate(0) == (1859, -1, 19)
    ensures MjdToDate(15078) == (1900, 2, 31)
  {
    assert Parts(0) == MjdParts(-41, -14975, 0, 0);
    assert Parts(15078) == MjdParts(0, 0, 3, 91);
  }
}
