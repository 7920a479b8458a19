/**
  What a lease costs: started units of a fixed length, or calendar months.  Times
  are microseconds; prices and amounts are in the smallest unit of the currency.
 */
module Billing {
  import HttpDate

  type Time = int

  datatype Option<T> = None | Some(value: T)

  datatype Unit = Minute | Hour | Day | Week | Month

  datatype Result = Result(units: int, amount: int)

  /**
    A calendar in some time zone: the month of a time, counted on without a gap from
    year to year, and the first moment of a month.
   */
  datatype Calendar = Calendar(month: Time -> int, start: int -> Time)

  ghost predicate Regular(c: Calendar) {
    && (forall t :: c.start(c.month(t)) <= t < c.start(c.month(t) + 1))
    && (forall k, m :: k < m ==> c.start(k) < c.start(m))
  }

  // ----- the Gregorian calendar at a fixed offset from UTC is regular

  const DAY: int := 86400 * 1_000_000

  /** Months are numbered year * 12 + month, with January 1. */
  function FirstDay(k: int): int {
    HttpDate.Days(HttpDate.Date((k - 1) / 12, (k - 1) % 12, 1))
  }

  /** The first moment of a month. */
  function MonthStart(k: int, offset: int): Time {
    FirstDay(k) * DAY - offset
  }

  lemma MonthLength(k: int, offset: int)
    ensures MonthStart(k, offset) + 28 * DAY <= MonthStart(k + 1, offset)
  {
    HttpDate.NextMonth((k - 1) / 12, (k - 1) % 12, HttpDate.Date(k / 12, k % 12, 1));
  }

  lemma {:induction false} StartsApart(k: int, m: int, offset: int)
    requires k <= m
    ensures MonthStart(k, offset) + (m - k) <= MonthStart(m, offset)
    decreases m - k
  {
    if k < m {
      StartsApart(k, m - 1, offset);
      MonthLength(m - 1, offset);
    }
  }

  ghost predicate InMonth(t: Time, k: int, offset: int) {
    MonthStart(k, offset) <= t < MonthStart(k + 1, offset)
  }

  /** Some month from k on holds the time. */
  lemma {:induction false} MonthFrom(t: Time, k: int, offset: int) returns (m: int)
    requires MonthStart(k, offset) <= t
    ensures InMonth(t, m, offset)
    decreases t - MonthStart(k, offset)
  {
    if InMonth(t, k, offset) {
      m := k;
    } else {
      MonthLength(k, offset);
      m := MonthFrom(t, k + 1, offset);
    }
  }

  lemma MonthExists(t: Time, offset: int)
    ensures exists k :: InMonth(t, k, offset)
  {
    var s := MonthStart(0, offset);
    var k := if s <= t then 0 else t - s;
    StartsApart(k, 0, offset);
    var m := MonthFrom(t, k, offset);
  }

  ghost function MonthOf(t: Time, offset: int): (k: int)
    ensures InMonth(t, k, offset)
  {
    MonthExists(t, offset);
    var k :| InMonth(t, k, offset);
    k
  }

  ghost function Gregorian(offset: int): Calendar {
    Calendar(t => MonthOf(t, offset), k => MonthStart(k, offset))
  }

  lemma GregorianRegular(offset: int)
    ensures Regular(Gregorian(offset))
  {
    forall k, m | k < m ensures MonthStart(k, offset) < MonthStart(m, offset) {
      StartsApart(k, m, offset);
    }
  }

  /** The month of a time is the one of its local date. */
  lemma MonthOfDate(d: HttpDate.Date, n: int, within: int, offset: int)
    requires HttpDate.Gregorian(d) && n == HttpDate.Days(d) && 0 <= within < DAY
    ensures Gregorian(offset).month(n * DAY + within - offset) == d.year * 12 + d.month + 1
  {
    var k := d.year * 12 + d.month + 1;
    DayInMonth(d, k);
    DayWithin(n, within, offset, k);
    GregorianRegular(offset);
    MonthUnique(Gregorian(offset), n * DAY + within - offset, k);
  }

  lemma MonthParts(y: int, m: int, k: int)
    requires 0 <= m < 12 && k == y * 12 + m + 1
    ensures (k - 1) / 12 == y && (k - 1) % 12 == m
    ensures k / 12 == (if m < 11 then y else y + 1) && k % 12 == if m < 11 then m + 1 else 0
  {
  }

  lemma DayInMonth(d: HttpDate.Date, k: int)
    requires HttpDate.Gregorian(d) && k == d.year * 12 + d.month + 1
    ensures FirstDay(k) <= HttpDate.Days(d) < FirstDay(k + 1)
  {
    MonthParts(d.year, d.month, k);
    var e := HttpDate.Date(k / 12, k % 12, 1);
    HttpDate.InMonth(d);
    HttpDate.NextMonth(d.year, d.month, e);
    assert FirstDay(k) == HttpDate.Days(HttpDate.Date(d.year, d.month, 1)) && FirstDay(k + 1) == HttpDate.Days(e);
  }

  lemma DayWithin(n: int, within: int, offset: int, k: int)
    requires FirstDay(k) <= n < FirstDay(k + 1) && 0 <= within < DAY
    ensures InMonth(n * DAY + within - offset, k, offset)
  {
  }

  lemma MonthUnique(c: Calendar, t: Time, k: int)
    requires Regular(c) && c.start(k) <= t < c.start(k + 1)
    ensures c.month(t) == k
  {
    var m := c.month(t);
    assert c.start(m) <= t < c.start(m + 1);
  }

  function UnitSeconds(u: Unit): int
    requires !u.Month?
  {
    match u
    case Minute => 60
    case Hour => 3600
    case Day => 86400
    case Week => 604800
  }

  function CeilDiv(n: int, d: int): int
    requires d > 0
  {
    (n + d - 1) / d
  }

  function Max(a: int, b: int): int {
    if a >= b then a else b
  }

  /** compute_billing */
  function Compute(c: Calendar, started: Option<Time>, ended: Option<Time>, unit: Unit, price: int): Result {
    if started.None? || ended.None? || ended.value < started.value then
      Result(0, 0)
    else if !unit.Month? then
      var seconds := (ended.value - started.value) / 1_000_000;
      var units := Max(1, CeilDiv(Max(seconds, 0), UnitSeconds(unit)));
      Result(units, price * units)
    else
      var units := Max(1, c.month(ended.value - 1) - c.month(started.value) + 1);
      Result(units, price * units)
  }

  /** The whole seconds elapsed. */
  function Elapsed(s: Time, e: Time): int {
    (e - s) / 1_000_000
  }

  function Units(c: Calendar, s: Time, e: Time, unit: Unit): int {
    Compute(c, Some(s), Some(e), unit, 0).units
  }

  /** The price is charged for every unit. */
  lemma AmountIsUnits(c: Calendar, s: Time, e: Time, unit: Unit, price: int)
    ensures Compute(c, Some(s), Some(e), unit, price) == Result(Units(c, s, e, unit), price * Units(c, s, e, unit))
  {
  }

  // ----- units of a fixed length

  /** The units charged are the least number, and at least one, that covers the whole seconds elapsed. */
  lemma FixedIsLeast(c: Calendar, s: Time, e: Time, unit: Unit)
    requires s <= e && !unit.Month?
    ensures var k := Units(c, s, e, unit);
      && k >= 1 && Elapsed(s, e) <= k * UnitSeconds(unit)
      && forall j :: 1 <= j && Elapsed(s, e) <= j * UnitSeconds(unit) ==> k <= j
  {
    var n, d := Elapsed(s, e), UnitSeconds(unit);
    var q := CeilDiv(n, d);
    Ceiling(n, d);
    var k := Units(c, s, e, unit);
    assert k == Max(1, q);
    forall j | 1 <= j && n <= j * d ensures k <= j {
      assert j <= q - 1 ==> j * d <= (q - 1) * d;
    }
    assert k * d >= q * d;
  }

  lemma Ceiling(n: int, d: int)
    requires 0 <= n && 0 < d
    ensures var q := CeilDiv(n, d); (q - 1) * d < n <= q * d && q >= 0
  {
    var q := CeilDiv(n, d);
    var r := (n + d - 1) % d;
    assert n + d - 1 == q * d + r;
  }

  /** A longer lease does not cost less. */
  lemma FixedMonotone(c: Calendar, s: Time, e: Time, e': Time, unit: Unit)
    requires s <= e <= e' && !unit.Month?
    ensures Units(c, s, e, unit) <= Units(c, s, e', unit)
  {
    FixedIsLeast(c, s, e, unit);
    FixedIsLeast(c, s, e', unit);
  }

  // ----- calendar months

  /** Some moment of the half-open interval lies in the month. */
  ghost predicate Meets(c: Calendar, k: int, s: Time, e: Time) {
    exists t :: s <= t < e && c.month(t) == k
  }

  lemma MonthMonotone(c: Calendar, s: Time, t: Time)
    requires Regular(c) && s <= t
    ensures c.month(s) <= c.month(t)
  {
    var m, n := c.month(s), c.month(t);
    assert c.start(m) <= s && t < c.start(n + 1);
  }

  lemma MonthOfStart(c: Calendar, k: int)
    requires Regular(c)
    ensures c.month(c.start(k)) == k && c.month(c.start(k) - 1) == k - 1
  {
    var t := c.start(k);
    var m, p := c.month(t), c.month(t - 1);
    assert c.start(m) <= t < c.start(m + 1);
    assert c.start(p) <= t - 1 < c.start(p + 1);
  }

  /** A month that starts within the interval. */
  lemma StartsWithin(c: Calendar, s: Time, e: Time, k: int)
    requires Regular(c) && s < e && c.month(s) < k <= c.month(e - 1)
    ensures s <= c.start(k) < e && c.month(c.start(k)) == k
  {
    MonthOfStart(c, k);
    var m, n := c.month(s), c.month(e - 1);
    assert s < c.start(m + 1) && c.start(n) <= e - 1;
  }

  /** A month is charged exactly when it meets the interval. */
  lemma MonthsMet(c: Calendar, s: Time, e: Time, k: int)
    requires Regular(c) && s < e
    ensures Meets(c, k, s, e) <==> c.month(s) <= k <= c.month(e - 1)
  {
    if c.month(s) < k <= c.month(e - 1) {
      StartsWithin(c, s, e, k);
    }
    if Meets(c, k, s, e) {
      var t :| s <= t < e && c.month(t) == k;
      MonthMonotone(c, s, t);
      MonthMonotone(c, t, e - 1);
    }
  }

  /** The months from a to b. */
  ghost function MonthRange(a: int, b: int): set<int>
    decreases b - a + 1
  {
    if a > b then {} else MonthRange(a, b - 1) + {b}
  }

  lemma {:induction false} RangeSize(a: int, b: int)
    ensures forall k :: k in MonthRange(a, b) <==> a <= k <= b
    ensures a <= b + 1 ==> |MonthRange(a, b)| == b - a + 1
    decreases b - a + 1
  {
    if a <= b {
      RangeSize(a, b - 1);
    }
  }

  /** The months charged are the months that meet the interval. */
  lemma MonthsCounted(c: Calendar, s: Time, e: Time) returns (months: set<int>)
    requires Regular(c) && s < e
    ensures forall k :: k in months <==> Meets(c, k, s, e)
    ensures Units(c, s, e, Month) == |months|
  {
    months := MonthRange(c.month(s), c.month(e - 1));
    RangeSize(c.month(s), c.month(e - 1));
    MonthMonotone(c, s, e - 1);
    forall k ensures k in months <==> Meets(c, k, s, e) {
      MonthsMet(c, s, e, k);
    }
  }

  lemma MonthUnits(c: Calendar, s: Time, e: Time)
    requires Regular(c) && s < e
    ensures Units(c, s, e, Month) == c.month(e - 1) - c.month(s) + 1
  {
    MonthMonotone(c, s, e - 1);
  }

  lemma Boundary(c: Calendar, t: Time)
    requires Regular(c)
    ensures c.month(t) - c.month(t - 1) == if t == c.start(c.month(t)) then 1 else 0
  {
    var k := c.month(t);
    MonthOfStart(c, k);
    if t != c.start(k) {
      assert c.start(k) <= t - 1;
      MonthMonotone(c, c.start(k), t - 1);
      MonthMonotone(c, t - 1, t);
    }
  }

  /** Splitting a lease at a month boundary costs nothing; splitting it elsewhere costs one month. */
  lemma MonthsSplit(c: Calendar, s: Time, t: Time, e: Time)
    requires Regular(c) && s < t < e
    ensures Units(c, s, t, Month) + Units(c, t, e, Month)
         == Units(c, s, e, Month) + if t == c.start(c.month(t)) then 0 else 1
  {
    MonthUnits(c, s, t);
    MonthUnits(c, t, e);
    MonthUnits(c, s, e);
    Boundary(c, t);
  }

  lemma MonthsMonotone(c: Calendar, s: Time, e: Time, e': Time)
    requires Regular(c) && s <= e <= e'
    ensures Units(c, s, e, Month) <= Units(c, s, e', Month)
  {
    MonthMonotone(c, e - 1, e' - 1);
  }

  lemma TimesPrice(price: nat, k: int, k': int)
    requires k <= k'
    ensures price * k <= price * k'
  {
  }

  /** Whatever the unit, a lease that ends later does not cost less. */
  lemma CostMonotone(c: Calendar, s: Time, e: Time, e': Time, unit: Unit, price: nat)
    requires Regular(c) && s <= e <= e'
    ensures Compute(c, Some(s), Some(e), unit, price).amount <= Compute(c, Some(s), Some(e'), unit, price).amount
  {
    var k, k' := Units(c, s, e, unit), Units(c, s, e', unit);
    if unit.Month? {
      MonthsMonotone(c, s, e, e');
    } else {
      FixedMonotone(c, s, e, e', unit);
    }
    TimesPrice(price, k, k');
    AmountIsUnits(c, s, e, unit, price);
    AmountIsUnits(c, s, e', unit, price);
  }

  /** The units charged of so many seconds each: enough for the seconds elapsed, and one unit at least, but not more. */
  ghost predicate Charged(units: int, seconds: int, each: int) {
    units >= 1 && seconds <= units * each && (units > 1 ==> (units - 1) * each < seconds)
  }

  /** The units in numbers. */
  lemma ChargedInSeconds(c: Calendar, s: Time, e: Time, price: int)
    requires s <= e
    ensures var n := (e - s) / 1_000_000;
      && Charged(Compute(c, Some(s), Some(e), Minute, price).units, n, 60)
      && Charged(Compute(c, Some(s), Some(e), Hour, price).units, n, 3600)
      && Charged(Compute(c, Some(s), Some(e), Day, price).units, n, 86400)
      && Charged(Compute(c, Some(s), Some(e), Week, price).units, n, 604800)
  {
    ChargedFor(c, s, e, Minute, price);
    ChargedFor(c, s, e, Hour, price);
    ChargedFor(c, s, e, Day, price);
    ChargedFor(c, s, e, Week, price);
  }

  lemma ChargedFor(c: Calendar, s: Time, e: Time, unit: Unit, price: int)
    requires s <= e && !unit.Month?
    ensures Charged(Compute(c, Some(s), Some(e), unit, price).units, (e - s) / 1_000_000, UnitSeconds(unit))
  {
    Ceiling(Elapsed(s, e), UnitSeconds(unit));
  }

  /** Nothing is charged without both times, or for an end before the start; else the amount is price times units. */
  lemma NothingCharged(c: Calendar, started: Option<Time>, ended: Option<Time>, unit: Unit, price: int)
    ensures var r := Compute(c, started, ended, unit, price);
      && r.amount == price * r.units
      && (r.units == 0 <==> started.None? || ended.None? || ended.value < started.value)
  {
  }
}
