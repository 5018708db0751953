/** The pricing and loyalty rules of the reservation controller: what a booking
    costs, when 50 loyalty points buy two free hours, and how many points a
    completed booking earns.  Durations are in minutes; the controller's
    "hours" are minutes / 60 computed exactly. */
module Pricing {
  import opened Models

  /** Points a booking must find on the balance, and debits, to get free hours. */
  const FreeHoursCost: int := 50

  /** Two hours: both the minimum duration that may use free hours and the
      free allowance itself. */
  const FreeHoursMinutes: int := 120

  /** Two hours: the booked duration from which completion earns points. */
  const AwardThresholdMinutes: int := 120

  /** Points earned by completing a long enough booking. */
  const CompletionPoints: int := 10

  /** The outcome of pricing one booking. */
  datatype Quote = Quote(
    useFreeHours: bool,
    freeMinutes: int,
    billableMinutes: int,
    totalPrice: Money,
    pointsToDebit: int)

  function Hours(minutes: int): real {
    minutes as real / MinutesPerHour as real
  }

  function Min(a: int, b: int): int {
    if a <= b then a else b
  }

  /** Prices a booking of `minutes` at `rate` per hour for a user holding
      `points`.  Free hours apply exactly when the balance covers their cost
      and the booking lasts two hours or more; they then waive exactly two
      hours and cost exactly 50 points. */
  function PriceQuote(minutes: int, rate: Money, points: int): (q: Quote)
    ensures q.useFreeHours <==> points >= FreeHoursCost && minutes >= FreeHoursMinutes
    ensures q.useFreeHours ==> q.freeMinutes == FreeHoursMinutes && q.pointsToDebit == FreeHoursCost
    ensures !q.useFreeHours ==> q.freeMinutes == 0 && q.pointsToDebit == 0
    ensures q.billableMinutes == minutes - q.freeMinutes
    ensures points >= 0 ==> points - q.pointsToDebit >= 0
  {
    var useFreeHours := points >= FreeHoursCost && minutes >= FreeHoursMinutes;
    var freeMinutes := if useFreeHours then Min(FreeHoursMinutes, minutes) else 0;
    var billable := minutes - freeMinutes;
    Quote(useFreeHours, freeMinutes, billable, Hours(billable) * rate,
          if useFreeHours then FreeHoursCost else 0)
  }

  /** With a non-negative rate, a booking never costs less than nothing nor
      more than its full duration at the hourly rate. */
  lemma PriceWithinBounds(minutes: int, rate: Money, points: int)
    requires minutes >= 0 && rate >= 0.0
    ensures 0.0 <= PriceQuote(minutes, rate, points).totalPrice <= Hours(minutes) * rate
  {
    var q := PriceQuote(minutes, rate, points);
    var b := q.billableMinutes;
    assert 0 <= b <= minutes;
    assert 0.0 <= Hours(b) <= Hours(minutes);
    MulMonotone(Hours(b), Hours(minutes), rate);
  }

  lemma MulMonotone(a: real, b: real, c: real)
    requires 0.0 <= a <= b && c >= 0.0
    ensures 0.0 <= a * c <= b * c
  {
    assert b * c - a * c == (b - a) * c;
  }

  /** Redeeming points takes exactly two hours' worth off the full price;
      otherwise the full duration is charged. */
  lemma FreeHoursDiscount(minutes: int, rate: Money, points: int)
    ensures var q := PriceQuote(minutes, rate, points);
      q.totalPrice == if q.useFreeHours then Hours(minutes) * rate - 2.0 * rate
                      else Hours(minutes) * rate
  {
    var q := PriceQuote(minutes, rate, points);
    if q.useFreeHours {
      assert Hours(q.billableMinutes) == Hours(minutes) - 2.0;
      assert (Hours(minutes) - 2.0) * rate == Hours(minutes) * rate - 2.0 * rate;
    }
  }

  /** Points earned when a booking of `minutes` is completed: ten for two
      hours or more, none below. */
  function CompletionAward(minutes: int): (p: int)
    ensures p == CompletionPoints || p == 0
    ensures p > 0 <==> minutes >= AwardThresholdMinutes
  {
    if minutes >= AwardThresholdMinutes then CompletionPoints else 0
  }
}
