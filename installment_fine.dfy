/**
 * The per-item late fine of the installment fine job
 * (app/Console/Commands/Cron/CalculateInstallmentFine.php).
 *
 * Amounts of money are integer cents (the item's decimal columns hold two
 * places). A plan's daily fine rate is a percentage held as a fixed-point
 * decimal with its own scale. Times are integer seconds.
 */
module InstallmentFine {
  import opened Options
  import opened Decimal

  const SecondsPerDay: nat := 86400

  /** Lifecycle state of an installment plan; only `Repaying` plans accrue fines. */
  datatype PlanStatus = Pending | Repaying | Finished

  /** A percentage with `scale` decimal places: the rate is units / 10^scale percent. */
  datatype Rate = Rate(units: int, scale: nat)

  /** An installment plan, as far as the job reads it. */
  datatype Plan = Plan(status: PlanStatus, fineRate: Rate)

  /** One scheduled payment of a plan: a row of the installment items table. */
  datatype Item = Item(
    id: int,
    installmentId: int,
    dueDate: int,
    base: int,
    fee: int,
    paidAt: Option<int>,
    fine: int)

  /**
   * The selection of the job: the owning plan exists and is repaying, the due
   * date is not after `now`, and the item is unpaid.
   */
  predicate Overdue(item: Item, plans: map<int, Plan>, now: int): (b: bool)
    ensures b ==> item.installmentId in plans && now - item.dueDate >= 0
  {
    && item.installmentId in plans
    && plans[item.installmentId].status == Repaying
    && item.dueDate <= now
    && item.paidAt.None?
  }

  /** Whole days between two instants, in either order (an absolute difference). */
  function DiffInDays(now: int, date: int): (days: nat)
    ensures days * SecondsPerDay <= Abs(now - date) < (days + 1) * SecondsPerDay
  {
    var q := Abs(now - date) / SecondsPerDay;
    assert q * SecondsPerDay + Abs(now - date) % SecondsPerDay == Abs(now - date);
    q
  }

  /** Principal plus fee: the amount the fine is computed from and capped at. */
  function Total(item: Item): int
  {
    item.base + item.fee
  }

  /** The divisor that turns total * days * rate units into cents: 100 (percent) * 10^scale. */
  function RateDivisor(rate: Rate): (d: nat)
    ensures d >= 100
  {
    100 * Pow10(rate.scale)
  }

  /**
   * The unclamped fine in cents: total * days * rate / 100, kept to two places
   * and rounded away from zero.
   */
  function RawFine(total: int, days: nat, rate: Rate): (r: int)
    ensures total >= 0 && rate.units >= 0 ==> r >= 0
    ensures total <= 0 && rate.units >= 0 ==> r <= 0
  {
    MulSigns(total, days, rate.units);
    DivUp(total * days * rate.units, RateDivisor(rate))
  }

  /** The cap: a raw fine strictly above the total is replaced by the total. */
  function ClampFine(raw: int, total: int): (c: int)
    ensures c <= total
    ensures c == Min(raw, total)
  {
    if raw > total then total else raw
  }

  /** The fine the job writes for an item of a plan with the given rate. */
  function ItemFine(item: Item, rate: Rate, now: int): (r: int)
    ensures r <= Total(item)
  {
    ClampFine(RawFine(Total(item), DiffInDays(now, item.dueDate), rate), Total(item))
  }

  /** The sign of a product of an amount, a day count and a rate. */
  lemma MulSigns(total: int, days: nat, units: int)
    ensures total >= 0 && units >= 0 ==> total * days * units >= 0
    ensures total <= 0 && units >= 0 ==> total * days * units <= 0
  {
    if units >= 0 {
      MulNonNegative(days, units);
      if total >= 0 {
        MulNonNegative(total, days * units);
      } else {
        MulNonNegative(-total, days * units);
      }
      assert total * days * units == total * (days * units);
    }
  }

  /**
   * The raw fine is the exact fine rounded up to a whole cent: for
   * non-negative amounts it is at least the exact value and less than one
   * cent above it (exact value = total * days * units / divisor cents).
   */
  lemma RawFineBounds(total: int, days: nat, rate: Rate)
    requires total >= 0 && rate.units >= 0
    ensures var exact := total * days * rate.units;
      var raw := RawFine(total, days, rate);
      raw >= 0 && exact <= raw * RateDivisor(rate) < exact + RateDivisor(rate)
  {
    MulNonNegative(total, days);
    MulNonNegative(total * days, rate.units);
  }

  /** Rounding is away from zero: a negative exact fine rounds toward minus infinity. */
  lemma RawFineAwayFromZero(total: int, days: nat, rate: Rate)
    ensures RawFine(-total, days, rate) == -RawFine(total, days, rate)
  {
    NegateProduct(total, days, rate.units);
    DivUpOdd(total * days * rate.units, RateDivisor(rate));
  }

  lemma NegateProduct(a: int, b: int, c: int)
    ensures -a * b * c == -(a * b * c)
  {
    assert (-a) * b == -(a * b);
    assert (-(a * b)) * c == -(a * b * c);
  }

  /** When the rate divides evenly nothing is rounded. */
  lemma RawFineExact(total: int, days: nat, rate: Rate, k: int)
    requires total * days * rate.units == k * RateDivisor(rate)
    ensures RawFine(total, days, rate) == k
  {
    DivUpExact(k, RateDivisor(rate));
  }

  /**
   * The written fine never exceeds principal plus fee; it is the total exactly
   * when the raw fine is strictly greater, and the raw fine otherwise.
   */
  lemma FineCapped(item: Item, rate: Rate, now: int)
    ensures var raw := RawFine(Total(item), DiffInDays(now, item.dueDate), rate);
      && ItemFine(item, rate, now) <= Total(item)
      && ItemFine(item, rate, now) == Min(raw, Total(item))
      && (raw > Total(item) ==> ItemFine(item, rate, now) == Total(item))
      && (raw <= Total(item) ==> ItemFine(item, rate, now) == raw)
  {
  }

  /** No overdue days or a zero rate give no fine (for a non-negative total). */
  lemma FineZero(item: Item, rate: Rate, now: int)
    requires DiffInDays(now, item.dueDate) == 0 || rate.units == 0
    ensures ItemFine(item, rate, now) == Min(0, Total(item))
    ensures Total(item) >= 0 ==> ItemFine(item, rate, now) == 0
  {
    var days := DiffInDays(now, item.dueDate);
    assert Total(item) * days * rate.units == 0 * RateDivisor(rate);
    RawFineExact(Total(item), days, rate, 0);
  }

  /** For non-negative amounts and rate the fine lies between zero and the total. */
  lemma FineWithinTotal(item: Item, rate: Rate, now: int)
    requires Total(item) >= 0 && rate.units >= 0
    ensures 0 <= ItemFine(item, rate, now) <= Total(item)
  {
    RawFineBounds(Total(item), DiffInDays(now, item.dueDate), rate);
  }

  /** A fine never shrinks as more days pass (non-negative amounts and rate). */
  lemma FineMonotoneInDays(total: int, days1: nat, days2: nat, rate: Rate)
    requires total >= 0 && rate.units >= 0 && days1 <= days2
    ensures ClampFine(RawFine(total, days1, rate), total) <= ClampFine(RawFine(total, days2, rate), total)
  {
    MulMonotone(days1, days2, total);
    assert total * days1 <= total * days2;
    MulMonotone(total * days1, total * days2, rate.units);
    DivUpMonotone(total * days1 * rate.units, total * days2 * rate.units, RateDivisor(rate));
  }

  /** The overdue day count of a selected item is the elapsed time since the due date, in whole days. */
  lemma OverdueDays(item: Item, plans: map<int, Plan>, now: int)
    requires Overdue(item, plans, now)
    ensures DiffInDays(now, item.dueDate) == (now - item.dueDate) / SecondsPerDay
  {
    var days := DiffInDays(now, item.dueDate);
    var q, r := (now - item.dueDate) / SecondsPerDay, (now - item.dueDate) % SecondsPerDay;
    assert q * SecondsPerDay + r == now - item.dueDate;
    MulLessCancel(days, q + 1, SecondsPerDay);
    MulLessCancel(q, days + 1, SecondsPerDay);
  }

  /** 100.00 + 5.00 over 3 days at 1%: 3.15, below the cap. */
  lemma ExampleNoClamp()
    ensures ClampFine(RawFine(10000 + 500, 3, Rate(1, 0)), 10500) == 315
  {
    RawFineExact(10500, 3, Rate(1, 0), 315);
  }

  /** 10.00 over 1000 days at 50%: 5000.00 raw, capped at 10.00. */
  lemma ExampleClamp()
    ensures ClampFine(RawFine(1000, 1000, Rate(50, 0)), 1000) == 1000
  {
    RawFineExact(1000, 1000, Rate(50, 0), 500000);
  }

  /** A raw fine of exactly 2.001 is rounded up to 2.01, not down to 2.00. */
  lemma ExampleRoundUp()
    ensures RawFine(2001, 1, Rate(10, 0)) == 201
  {
  }
}
