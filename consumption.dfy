/** printPowerConsumption.py: the signed battery power and the hours until full or empty, from the
    adapter's `online` text and the battery's current, voltage, charge and full charge. */
module Consumption {

  /** The sysfs readings the script takes: the adapter text, micro-amperes, micro-volts and the
      two charges in micro-ampere-hours. */
  datatype Reading = Reading(ac: string, current: real, voltage: real, charge: real, capacity: real)

  /** A time remaining: a number of hours, or Python's `float("inf")`. */
  datatype Hours = Infinite | Finite(h: real)

  /** Watts, negated when the adapter reads "0"; "1" and any other text keep the sign. The power
      is zero exactly when the current or the voltage is, whatever the adapter says. */
  function Power(r: Reading): (w: real)
    ensures w == 0.0 <==> r.current == 0.0 || r.voltage == 0.0
  {
    assert r.current != 0.0 && r.voltage != 0.0 ==> r.current * r.voltage != 0.0;
    var p := r.current * r.voltage / 1000000000000.0;
    if r.ac == "0" then -p else p
  }

  /** With a current and a voltage above zero, the power is negative exactly when the adapter
      reads "0": any other text, unknown ones included, counts as charging. */
  lemma PowerFollowsAdapter(r: Reading)
    requires r.current > 0.0 && r.voltage > 0.0
    ensures Power(r) < 0.0 <==> r.ac == "0"
    ensures Power(r) > 0.0 <==> r.ac != "0"
  {
    assert r.current * r.voltage > 0.0;
  }

  /** The hours before rounding: to the full charge while the power counts as positive, to empty
      while it counts as negative, infinite at zero power. */
  function TimeRemaining(r: Reading): (t: Hours)
    ensures Power(r) == 0.0 <==> t.Infinite?
  {
    var p := Power(r);
    if p != 0.0 then
      if p > 0.0 then Finite((r.capacity - r.charge) / r.current)
      else Finite(r.charge / r.current)
    else Infinite
  }

  /** A finite time is the one at which the current fills the gap to the full charge (positive
      power) or drains the charge (negative power). */
  lemma TimeRemainingMeaning(r: Reading)
    requires Power(r) != 0.0
    ensures TimeRemaining(r).Finite?
    ensures Power(r) > 0.0 ==> TimeRemaining(r).h * r.current == r.capacity - r.charge
    ensures Power(r) < 0.0 ==> TimeRemaining(r).h * r.current == r.charge
  {
  }

  /** `round(x, 1)` on reals: to the nearest tenth, a tie going to the even tenth. */
  function RoundTenths(x: real): (y: real)
    ensures -0.05 <= y - x <= 0.05
  {
    var scaled := x * 10.0;
    var whole := scaled.Floor;
    var frac := scaled - whole as real;
    var n := if frac > 0.5 then whole + 1
             else if frac < 0.5 then whole
             else if whole % 2 == 0 then whole else whole + 1;
    assert -0.5 <= n as real - scaled <= 0.5;
    n as real / 10.0
  }

  /** What the script prints: the rounded power and the rounded hours, with any rounded time
      over 20 shown as infinite. The power shown is within 0.05 W of the computed one, and a
      finite time shown is at most 20 hours. */
  function Report(r: Reading): (out: (real, Hours))
    ensures -0.05 <= out.0 - Power(r) <= 0.05
    ensures out.1.Finite? ==> out.1.h <= 20.0
  {
    var shown :=
      match TimeRemaining(r)
      case Infinite => Infinite
      case Finite(t) => if RoundTenths(t) > 20.0 then Infinite else Finite(RoundTenths(t));
    (RoundTenths(Power(r)), shown)
  }

  /** A finite time on the report is within 0.05 of the computed time;
      times a little under 20 are shown, times a little over are not. */
  lemma ReportedTimeBounds(r: Reading)
    ensures Report(r).1.Finite? ==> TimeRemaining(r).Finite? && -0.05 <= Report(r).1.h - TimeRemaining(r).h <= 0.05
    ensures TimeRemaining(r).Finite? && TimeRemaining(r).h <= 19.95 ==> Report(r).1.Finite?
    ensures TimeRemaining(r).Finite? && TimeRemaining(r).h > 20.05 ==> Report(r).1.Infinite?
    ensures Report(r).1.Infinite? <==> Power(r) == 0.0 || RoundTenths(TimeRemaining(r).h) > 20.0
  {
  }

  /** Charging toward a full charge not yet reached, or draining a charged battery, with a positive
      current, gives a time that is not negative. */
  lemma TimeNotNegative(r: Reading)
    requires r.current > 0.0 && 0.0 <= r.charge <= r.capacity
    ensures TimeRemaining(r).Finite? ==> TimeRemaining(r).h >= 0.0
  {
  }
}
