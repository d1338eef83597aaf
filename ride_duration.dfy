// backend/utils/rideDuration.js: the placeholder duration estimator and the
// half-open interval overlap test.
module RideDuration {
  import opened Basics
  import opened JsText

  /** Milliseconds in one hour (60 * 60 * 1000). */
  const HourMs: int := 3600000

  /**
   * The instant `hours` whole hours after `t`, both in milliseconds, that is
   * t + hours * HourMs. The body multiplies by the literal so that the
   * product stays linear arithmetic for the verifier: the named constant
   * would make it a product of two unknowns.
   */
  function AddHours(t: int, hours: int): int
  {
    t + hours * 3600000
  }

  const InvalidPincodeMessage: string := "Invalid pincode format"

  /** The estimator's own message prefix around any failure. */
  const DurationErrorPrefix: string := "Error calculating ride duration: "

  /**
   * calculateRideDuration: both pincodes are read with parseInt; if either is
   * NaN the estimator fails, otherwise the estimate in hours is the absolute
   * difference modulo 24, raised to at least 1.
   */
  function CalculateRideDuration(fromPincode: string, toPincode: string): (r: Result<int, string>)
    ensures r.Success? <==> ParseInt(fromPincode).Some? && ParseInt(toPincode).Some?
    ensures r.Success? ==> 1 <= r.value <= 23
    ensures r.Failure? ==> r.error == DurationErrorPrefix + InvalidPincodeMessage
  {
    var fromNum := ParseInt(fromPincode);
    var toNum := ParseInt(toPincode);
    if fromNum.None? || toNum.None? then Failure(DurationErrorPrefix + InvalidPincodeMessage)
    else Success(HoursBetween(fromNum.value, toNum.value))
  }

  /** The estimate between two parsed pincodes: |to - from| mod 24, at least 1. */
  function HoursBetween(fromNum: int, toNum: int): (r: int)
    ensures 1 <= r <= 23
  {
    Max(Abs(toNum - fromNum) % 24, 1)
  }

  /** The estimate does not depend on the direction of travel. */
  lemma DurationSymmetric(a: string, b: string)
    ensures CalculateRideDuration(a, b) == CalculateRideDuration(b, a)
  {
    var x := ParseInt(a);
    var y := ParseInt(b);
    if x.Some? && y.Some? {
      assert Abs(y.value - x.value) == Abs(x.value - y.value);
    }
  }

  /** A trip within one pincode takes the one-hour minimum. */
  lemma DurationSameCode(x: string)
    requires ParseInt(x).Some?
    ensures CalculateRideDuration(x, x) == Success(1)
  {
  }

  /** On two six-digit pincodes the estimator always succeeds, with max(|to - from| mod 24, 1). */
  lemma DurationOfPincodes(fromPincode: string, toPincode: string)
    requires IsSixDigits(fromPincode) && IsSixDigits(toPincode)
    ensures CalculateRideDuration(fromPincode, toPincode)
         == Success(HoursBetween(DigitsValue(fromPincode), DigitsValue(toPincode)))
  {
    SixDigitsParse(fromPincode);
    SixDigitsParse(toPincode);
  }

  /**
   * The estimates the unit tests expect, on the pincodes' decimal values
   * (by DurationOfPincodes these are the estimates of the six-digit strings).
   */
  lemma DurationExamples()
    ensures HoursBetween(110001, 110002) == 1
    ensures HoursBetween(110001, 110010) == 9
    ensures HoursBetween(110001, 110100) == 3
    ensures HoursBetween(110010, 110001) == 9
    ensures HoursBetween(400001, 100001) == 1
    ensures HoursBetween(110001, 110001) == 1
    ensures HoursBetween(100001, 999999) == 22
  {
  }

  /** Inputs without a leading number fail, on either side. */
  lemma DurationRejectsNonNumeric()
    ensures CalculateRideDuration("invalid", "110001") == Failure(DurationErrorPrefix + InvalidPincodeMessage)
    ensures CalculateRideDuration("110001", "invalid") == Failure(DurationErrorPrefix + InvalidPincodeMessage)
    ensures CalculateRideDuration("", "110001") == Failure(DurationErrorPrefix + InvalidPincodeMessage)
    ensures CalculateRideDuration("abc123", "110001") == Failure(DurationErrorPrefix + InvalidPincodeMessage)
  {
    NoLeadingNumber("invalid");
    NoLeadingNumber("abc123");
    NoLeadingNumber("");
  }

  /** A string that starts with neither white space, a sign nor a digit has no number for parseInt. */
  lemma NoLeadingNumber(s: string)
    requires s == [] || (!IsWhitespace(s[0]) && !IsDigit(s[0]) && s[0] != '-' && s[0] != '+')
    ensures ParseInt(s).None?
  {
    ParseIntDefined(s);
  }

  /** Every failure message contains the thrown "Invalid pincode format", which is what the unit tests look for. */
  lemma DurationFailureMentionsPincode(fromPincode: string, toPincode: string)
    requires CalculateRideDuration(fromPincode, toPincode).Failure?
    ensures Includes(CalculateRideDuration(fromPincode, toPincode).error, InvalidPincodeMessage)
  {
    var m := DurationErrorPrefix + InvalidPincodeMessage;
    var k := |DurationErrorPrefix|;
    assert m[k..k + |InvalidPincodeMessage|] == InvalidPincodeMessage;
    assert OccursAt(m, InvalidPincodeMessage, k);
  }

  /** timeRangesOverlap on half-open intervals [start1, end1) and [start2, end2). */
  predicate TimeRangesOverlap(start1: int, end1: int, start2: int, end2: int)
  {
    start1 < end2 && start2 < end1
  }

  predicate InRange(t: int, start: int, end: int)
  {
    start <= t < end
  }

  /** Two non-empty half-open intervals overlap exactly when some instant lies in both. */
  lemma OverlapIffSharedInstant(start1: int, end1: int, start2: int, end2: int)
    requires start1 < end1 && start2 < end2
    ensures TimeRangesOverlap(start1, end1, start2, end2)
        <==> exists t :: InRange(t, start1, end1) && InRange(t, start2, end2)
  {
    if TimeRangesOverlap(start1, end1, start2, end2) {
      var t := Max(start1, start2);
      assert InRange(t, start1, end1) && InRange(t, start2, end2);
    }
  }

  lemma OverlapSymmetric(start1: int, end1: int, start2: int, end2: int)
    ensures TimeRangesOverlap(start1, end1, start2, end2) == TimeRangesOverlap(start2, end2, start1, end1)
  {
  }

  /** Back-to-back intervals, one ending where the other starts, do not overlap. */
  lemma AdjacentDoNotOverlap(start1: int, end1: int, end2: int)
    ensures !TimeRangesOverlap(start1, end1, end1, end2)
    ensures !TimeRangesOverlap(end1, end2, start1, end1)
  {
  }

  /** A non-empty interval overlaps itself. */
  lemma IdenticalOverlap(start: int, end: int)
    requires start < end
    ensures TimeRangesOverlap(start, end, start, end)
  {
  }

  /** The unit tests' cases, with times in milliseconds after 10:00. */
  lemma OverlapExamples()
    ensures TimeRangesOverlap(0, HourMs, 30 * 60000, 90 * 60000)
    ensures !TimeRangesOverlap(0, HourMs, 2 * HourMs, 3 * HourMs)
    ensures !TimeRangesOverlap(0, HourMs, HourMs, 2 * HourMs)
    ensures TimeRangesOverlap(0, HourMs, 0, HourMs)
  {
  }
}
