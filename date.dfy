/**
 * minirisk::Date: an object holding a serial day number that its init
 * methods store only after validation.  The constructors that may throw are
 * static methods returning a Result.
 */
module Dates {
  import opened Wrappers
  import opened Text
  import opened Calendar

  class Date {
    /** m_serial: days since 1-Jan-1900. */
    var serial: nat

    ghost predicate Valid()
      reads this
    {
      serial <= MaxSerial
    }

    /** The default constructor: serial 0, which is 1-Jan-1900. */
    constructor ()
      ensures Valid() && serial == 0
      ensures CivilOf(serial) == Ymd(FirstYear, 1, 1)
    {
      serial := 0;
      CivilOfSerial(FirstYear, 1, 1);
    }

    /** Date(serial): init(serial), throwing when the serial is out of range. */
    static method FromSerial(s: nat) returns (r: Result<Date, DateError>)
      ensures r.Failure? <==> CheckValidSerial(s).Fail?
      ensures r.Failure? ==> r.error == SerialOutOfRange(s)
      ensures r.Success? ==> fresh(r.value) && r.value.Valid() && r.value.serial == s
    {
      var date := new Date();
      var outcome := date.InitSerial(s);
      if outcome.Fail? {
        return Failure(outcome.error);
      }
      return Success(date);
    }

    /** Date(y, m, d): init(y, m, d), throwing on an invalid date. */
    static method FromYmd(y: nat, m: nat, d: nat) returns (r: Result<Date, DateError>)
      ensures r.Failure? <==> !ValidYmd(y, m, d)
      ensures r.Failure? ==> CheckValidYmd(y, m, d) == Fail(r.error)
      ensures r.Success? ==> fresh(r.value) && r.value.Valid() && CivilOf(r.value.serial) == Ymd(y, m, d)
    {
      var date := new Date();
      var outcome := date.InitYmd(y, m, d);
      if outcome.Fail? {
        return Failure(outcome.error);
      }
      return Success(date);
    }

    /** init(serial): check_valid(serial), then store it. */
    method InitSerial(s: nat) returns (outcome: Outcome<DateError>)
      modifies this
      ensures outcome == CheckValidSerial(s)
      ensures outcome.Pass? ==> serial == s && Valid()
      ensures outcome.Fail? ==> serial == old(serial)
    {
      outcome := CheckValidSerial(s);
      if outcome.Pass? {
        EpochEnds();
        serial := s;
      }
    }

    /** init(y, m, d): check_valid(y, m, d), then store serial(y, m, d). */
    method InitYmd(y: nat, m: nat, d: nat) returns (outcome: Outcome<DateError>)
      modifies this
      ensures outcome == CheckValidYmd(y, m, d)
      ensures outcome.Pass? ==> Valid() && serial == Serial(y, m, d) && CivilOf(serial) == Ymd(y, m, d)
      ensures outcome.Fail? ==> serial == old(serial)
    {
      outcome := CheckValidYmd(y, m, d);
      if outcome.Pass? {
        serial := Serial(y, m, d);
        CivilOfSerial(y, m, d);
      }
    }

    /** operator<: the earlier calendar date. */
    predicate Less(other: Date)
      reads this, other
      requires Valid() && other.Valid()
      ensures Less(other) <==> Before(CivilOf(serial), CivilOf(other.serial))
    {
      SerialOrder(CivilOf(serial), CivilOf(other.serial));
      serial < other.serial
    }

    /** operator==: the same calendar date. */
    predicate Equal(other: Date)
      reads this, other
      requires Valid() && other.Valid()
      ensures Equal(other) <==> CivilOf(serial) == CivilOf(other.serial)
    {
      serial == other.serial
    }

    /** operator>: the later calendar date. */
    predicate Greater(other: Date)
      reads this, other
      requires Valid() && other.Valid()
      ensures Greater(other) <==> Before(CivilOf(other.serial), CivilOf(serial))
    {
      SerialOrder(CivilOf(other.serial), CivilOf(serial));
      serial > other.serial
    }

    /** operator-(this, other): the signed number of days from other to this. */
    function Minus(other: Date): (r: int)
      reads this, other
      requires Valid() && other.Valid()
      ensures r < 0 <==> Less(other)
      ensures r == 0 <==> Equal(other)
      ensures CivilOf(serial) == NextDay(CivilOf(other.serial)) ==> r == 1
    {
      NextDayGap(CivilOf(serial), CivilOf(other.serial));
      serial - other.serial
    }

    /** to_string(pretty): d-m-y, or YYYYMMDD (eight digits) when not pretty. */
    method ToString(pretty: bool) returns (s: string)
      requires Valid()
      ensures s == if pretty then Pretty(CivilOf(serial)) else Compact(CivilOf(serial))
      ensures !pretty ==> |s| == 8 && AllDigits(s)
    {
      var dmy := GetDmy(serial);
      CompactLayout(dmy);
      s := if pretty then Pretty(dmy) else Compact(dmy);
    }
  }

  /** A date one calendar day after another is one serial later. */
  lemma NextDayGap(a: Ymd, b: Ymd)
    requires Valid(a) && Valid(b)
    ensures a == NextDay(b) ==> SerialOf(a) == SerialOf(b) + 1
  {
    if a == NextDay(b) {
      NextDaySerial(b);
    }
  }

  /** Date(y, m, d).to_string() gives back the d-m-y text it was built from. */
  lemma PrettyRoundTrip(y: nat, m: nat, d: nat)
    requires ValidYmd(y, m, d)
    ensures Pretty(CivilOf(Serial(y, m, d))) == Decimal(d) + "-" + Decimal(m) + "-" + Decimal(y)
  {
    CivilOfSerial(y, m, d);
  }
}
