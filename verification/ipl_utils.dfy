/**
 * Monthly fee ("IPL") period reconciliation: which months since registration are
 * unpaid, which of them a payment covers, and what the outstanding months cost.
 * The clock is a parameter: `now` is the date the caller reads.
 */
module IplUtils {
  import opened Seqs
  import opened Text
  import opened Periods
  import opened Arith
  import opened Wrappers

  /** The allocation loop's safety cap: at most 120 months (ten years) are visited. */
  const AllocationCap: nat := 120

  /** A valid month whose rendering is not among the paid period strings. */
  predicate Unpaid(p: Period, paid: seq<string>) {
    p.Valid() && Format(p) !in paid
  }

  /** Strictly increasing in calendar order (hence free of duplicates). */
  predicate Ascending(ps: seq<Period>) {
    forall i, j :: 0 <= i < j < |ps| ==> Index(ps[i]) < Index(ps[j])
  }

  /** The `n` months the walks visit from `p` on: `p`, then a step at a time. */
  function Months(p: Period, n: nat): (ms: seq<Period>)
    requires p.Valid()
    ensures |ms| == n
    decreases n, p  // naming `p` keeps the verifier from unrolling windows of literal length
  {
    if n == 0 then [] else [p] + Months(Next(p), n - 1)
  }

  /** The month `n` steps after `p`. */
  function Advance(p: Period, n: nat): (r: Period)
    requires p.Valid()
    ensures r.Valid()
    ensures Index(p) + n <= Index(r)
    decreases n, p
  {
    if n == 0 then p else Advance(Next(p), n - 1)
  }

  /** From year 100 on every step moves one calendar month, so `n` steps move `n` months. */
  lemma {:induction false} AdvancePlain(p: Period, n: nat)
    requires p.Valid() && p.year >= 100
    ensures Index(Advance(p, n)) == Index(p) + n && Advance(p, n).year >= 100
    decreases n
  {
    if n > 0 {
      AdvancePlain(Next(p), n - 1);
    }
  }

  /** The 1900-year jump happens at most once: `n` steps never move further than `n` months and 1900 years. */
  lemma {:induction false} AdvanceAtMostOneJump(p: Period, n: nat)
    requires p.Valid()
    ensures Index(Advance(p, n)) <= Index(p) + n + 12 * 1900
    decreases n
  {
    if n > 0 {
      if p.year < 0 {
        AdvanceAtMostOneJump(Next(p), n - 1);
      } else {
        AdvancePlain(Next(p), n - 1);
      }
    }
  }

  /** The 120 months visited from a month of the years 1 to 9989 all have four-digit years. */
  lemma WindowEndsInFourDigitYears(p: Period)
    requires p.Valid()
    ensures 1 <= p.year <= 9989 ==> Index(Advance(p, AllocationCap - 1)) < 12 * 10000
  {
    AdvanceAtMostOneJump(p, AllocationCap - 1);
    if p.year >= 100 {
      AdvancePlain(p, AllocationCap - 1);
    }
  }

  /** The `i`-th month of a window is the month `i` steps after its start. */
  lemma {:induction false} MonthsAt(p: Period, n: nat, i: nat)
    requires p.Valid() && i < n
    ensures Months(p, n)[i] == Advance(p, i)
    decreases i
  {
    if i > 0 {
      MonthsAt(Next(p), n - 1, i - 1);
    }
  }

  /** Reference definition: the unpaid months among `ms`, in their order. */
  function UnpaidAmong(ms: seq<Period>, paid: seq<string>): seq<Period> {
    Filter(ms, (q: Period) => Unpaid(q, paid))
  }

  /** How many months the walk visits from `first` while not past `last`. */
  function Span(first: Period, last: Period): nat
    requires first.Valid()
    decreases Index(last) - Index(first)
  {
    if Index(first) <= Index(last) then 1 + Span(Next(first), last) else 0
  }

  /**
   * The loop of `calculateUnpaidPeriods`: from `iter` while `iter <= current`,
   * keep each month whose rendering is not paid, then step to the next month.
   */
  function UnpaidWalk(iter: Period, current: Period, paid: seq<string>): (r: seq<Period>)
    requires iter.Valid()
    ensures forall i :: 0 <= i < |r| ==> Unpaid(r[i], paid)
    ensures forall i :: 0 <= i < |r| ==> Index(iter) <= Index(r[i]) <= Index(current)
    ensures Ascending(r)
    decreases Index(current) - Index(iter)
  {
    if Index(iter) <= Index(current) then
      (if Format(iter) in paid then [] else [iter]) + UnpaidWalk(Next(iter), current, paid)
    else
      []
  }

  /**
   * The loop of `getNextPeriodsToPay`: while a whole fee remains and fewer than
   * `AllocationCap` months were visited, take each unpaid month and charge one fee.
   */
  function AllocateWalk(iter: Period, remaining: int, monthly: int, counter: nat, paid: seq<string>): seq<Period>
    requires iter.Valid() && monthly > 0 && counter <= AllocationCap
    decreases AllocationCap - counter
  {
    if remaining >= monthly && counter < AllocationCap then
      if Format(iter) in paid then
        AllocateWalk(Next(iter), remaining, monthly, counter + 1, paid)
      else
        [iter] + AllocateWalk(Next(iter), remaining - monthly, monthly, counter + 1, paid)
    else
      []
  }

  /** `calculateUnpaidPeriods(createdAt, paidPeriods)` with the clock read as `now`, as periods. */
  function UnpaidPeriods(createdAt: Date, now: Date, paid: seq<string>): (r: seq<Period>)
    requires createdAt.Valid()
    ensures Index(StartOfMonth(createdAt)) > Index(StartOfMonth(now)) ==> r == []
  {
    UnpaidWalk(StartOfMonth(createdAt), StartOfMonth(now), paid)
  }

  /** `getNextPeriodsToPay(amount, monthlyAmount, createdAt, paidPeriods)`, as periods. */
  function PeriodsToPay(amount: int, monthly: int, createdAt: Date, paid: seq<string>): (r: seq<Period>)
    requires createdAt.Valid()
    ensures monthly <= 0 || amount < monthly ==> r == []
  {
    if monthly <= 0 || amount < monthly then []
    else AllocateWalk(StartOfMonth(createdAt), amount, monthly, 0, paid)
  }

  /** `calculateTotalIplDue(monthlyAmount, unpaidCount)`. */
  function TotalIplDue(monthly: int, unpaidCount: int): (r: int)
    ensures monthly >= 0 && unpaidCount >= 0 ==> r >= 0
    ensures r == 0 <==> monthly == 0 || unpaidCount == 0
  {
    monthly * unpaidCount
  }

  /** One monthly fee charged for each listed month, added up month by month. */
  function FeesOwed<T>(months: seq<T>, monthly: int): int {
    if months == [] then 0 else monthly + FeesOwed(months[1..], monthly)
  }

  /** The total due is the fee charged once for every unpaid month. */
  lemma {:induction false} TotalIsFeePerMonth<T>(months: seq<T>, monthly: int)
    ensures TotalIplDue(monthly, |months|) == FeesOwed(months, monthly)
  {
    if months != [] {
      TotalIsFeePerMonth(months[1..], monthly);
      assert monthly * |months| == monthly + monthly * (|months| - 1);
    }
  }

  /** The rendering of each period, in order. */
  function FormatAll(ps: seq<Period>): (r: seq<string>)
    requires forall i :: 0 <= i < |ps| ==> ps[i].Valid()
    ensures |r| == |ps|
    ensures forall i :: 0 <= i < |r| ==> r[i] == Format(ps[i])
  {
    seq(|ps|, i requires 0 <= i < |ps| => Format(ps[i]))
  }

  /** The error `format` throws for an Invalid Date. */
  const InvalidTimeValue: string := "RangeError: Invalid time value"

  /**
   * `calculateUnpaidPeriods` as period strings. `None` stands for a `createdAt`
   * that is missing or unparsable, i.e. an Invalid Date: the loop's first
   * comparison with it is false, so nothing is reported.
   */
  function CalculateUnpaidPeriods(createdAt: Option<Date>, now: Date, paid: seq<string>): (r: seq<string>)
    requires now.Valid() && (createdAt.Some? ==> createdAt.value.Valid())
    ensures createdAt.None? ==> r == []
    ensures forall i :: 0 <= i < |r| ==> r[i] !in paid
    ensures createdAt.Some? && Index(StartOfMonth(createdAt.value)) > Index(StartOfMonth(now)) ==> r == []
    ensures createdAt.Some? && createdAt.value.year >= 1 ==> forall i, j :: 0 <= i < j < |r| ==> r[i] != r[j]
    ensures createdAt.Some? && createdAt.value.year >= 1 && now.year <= 9999 ==>
              forall i, j :: 0 <= i < j < |r| ==> LexLess(r[i], r[j])
  {
    match createdAt
    case None => []
    case Some(d) =>
      var ps := UnpaidPeriods(d, now, paid);
      FormattedPeriods(ps, paid, StartOfMonth(d), Index(StartOfMonth(now)) + 1);
      FormatAll(ps)
  }

  /**
   * `getNextPeriodsToPay` as period strings, or the error it throws. With an
   * Invalid Date (`None`) the guard still decides: when it returns early the
   * result is empty, otherwise the loop's first `format` throws.
   */
  function GetNextPeriodsToPay(amount: int, monthly: int, createdAt: Option<Date>, paid: seq<string>): (r: Result<seq<string>>)
    requires createdAt.Some? ==> createdAt.value.Valid()
    ensures r.Failure? <==> createdAt.None? && monthly > 0 && amount >= monthly
    ensures r.Failure? ==> r.error == InvalidTimeValue
    ensures r.Success? ==> forall i :: 0 <= i < |r.value| ==> r.value[i] !in paid
    ensures monthly <= 0 || amount < monthly ==> r == Success([])
    ensures r.Success? && createdAt.Some? && createdAt.value.year >= 1 ==>
              forall i, j :: 0 <= i < j < |r.value| ==> r.value[i] != r.value[j]
    ensures r.Success? && createdAt.Some? && 1 <= createdAt.value.year <= 9989 ==>
              forall i, j :: 0 <= i < j < |r.value| ==> LexLess(r.value[i], r.value[j])
  {
    if monthly <= 0 || amount < monthly then Success([])
    else
      match createdAt
      case None => Failure(InvalidTimeValue)
      case Some(d) =>
        var s := StartOfMonth(d);
        var ps := PeriodsToPay(amount, monthly, d, paid);
        AllocationShape(amount, monthly, d, paid);
        WindowEndsInFourDigitYears(s);
        FormattedPeriods(ps, paid, s, Index(Advance(s, AllocationCap - 1)) + 1);
        Success(FormatAll(ps))
  }

  /**
   * Renderings of ascending unpaid periods from `first` on: none is paid, they are
   * distinct in the common era, and they ascend as strings while years have four digits.
   */
  lemma FormattedPeriods(ps: seq<Period>, paid: seq<string>, first: Period, bound: int)
    requires first.Valid()
    requires forall i :: 0 <= i < |ps| ==> ps[i].Valid()
    requires forall i :: 0 <= i < |ps| ==> Unpaid(ps[i], paid)
    requires forall i :: 0 <= i < |ps| ==> Index(first) <= Index(ps[i]) < bound
    requires Ascending(ps)
    ensures forall i :: 0 <= i < |ps| ==> FormatAll(ps)[i] !in paid
    ensures first.year >= 1 ==> forall i, j :: 0 <= i < j < |ps| ==> FormatAll(ps)[i] != FormatAll(ps)[j]
    ensures first.year >= 1 && bound <= 12 * 10000 ==>
              forall i, j :: 0 <= i < j < |ps| ==> LexLess(FormatAll(ps)[i], FormatAll(ps)[j])
  {
    var r := FormatAll(ps);
    forall i, j | 0 <= i < j < |ps| && first.year >= 1
      ensures r[i] != r[j]
    {
      if r[i] == r[j] {
        assert ps[i].year >= first.year && ps[j].year >= first.year;
        FormatInjective(ps[i], ps[j]);
      }
    }
    if first.year >= 1 && bound <= 12 * 10000 {
      forall i, j | 0 <= i < j < |ps|
        ensures LexLess(r[i], r[j])
      {
        assert first.year <= ps[i].year < 10000 && first.year <= ps[j].year < 10000;
        FormatOrder(ps[i], ps[j]);
      }
    }
  }

  /** A window of `m` months is its first `n` months followed by the `m - n` after them. */
  lemma {:induction false} MonthsSplit(p: Period, n: nat, m: nat)
    requires p.Valid() && n <= m
    ensures Months(p, m) == Months(p, n) + Months(Advance(p, n), m - n)
    decreases n
  {
    if n == 0 {
      assert Months(p, 0) == [];
    } else {
      MonthsSplit(Next(p), n - 1, m - 1);
    }
  }

  /** Selecting unpaid months distributes over concatenation. */
  lemma UnpaidAmongAppend(a: seq<Period>, b: seq<Period>, paid: seq<string>)
    ensures UnpaidAmong(a + b, paid) == UnpaidAmong(a, paid) + UnpaidAmong(b, paid)
  {
    FilterAppend(a, b, (q: Period) => Unpaid(q, paid));
  }

  /** The unpaid months of a window are a prefix of those of any longer window with the same start. */
  lemma UnpaidWindowGrows(p: Period, n: nat, m: nat, paid: seq<string>)
    requires p.Valid() && n <= m
    ensures IsPrefix(UnpaidAmong(Months(p, n), paid), UnpaidAmong(Months(p, m), paid))
  {
    MonthsSplit(p, n, m);
    UnpaidPrefixOfLonger(Months(p, n), Months(Advance(p, n), m - n), Months(p, m), paid);
  }

  /** The unpaid months of a list are a prefix of those of the list extended at its end. */
  lemma UnpaidPrefixOfLonger(a: seq<Period>, b: seq<Period>, c: seq<Period>, paid: seq<string>)
    requires c == a + b
    ensures IsPrefix(UnpaidAmong(a, paid), UnpaidAmong(c, paid))
  {
    UnpaidAmongAppend(a, b, paid);
    PrefixOfAppend(UnpaidAmong(a, paid), UnpaidAmong(b, paid));
  }

  /** The unpaid-period walk computes the reference definition over the months it visits. */
  lemma {:induction false} UnpaidWalkIsWindow(iter: Period, current: Period, paid: seq<string>)
    requires iter.Valid()
    ensures UnpaidWalk(iter, current, paid) == UnpaidAmong(Months(iter, Span(iter, current)), paid)
    decreases Index(current) - Index(iter)
  {
    if Index(iter) <= Index(current) {
      var n := Span(Next(iter), current);
      assert Span(iter, current) == n + 1;
      UnpaidWalkIsWindow(Next(iter), current, paid);
      var ms := Months(iter, n + 1);
      assert ms[0] == iter && ms[1..] == Months(Next(iter), n);
    }
  }

  /**
   * Only unpaid months from registration through the current month are reported,
   * and for a registration from year 100 on every such month is.
   */
  lemma UnpaidMembership(createdAt: Date, now: Date, paid: seq<string>, q: Period)
    requires createdAt.Valid()
    ensures q in UnpaidPeriods(createdAt, now, paid) ==>
              Unpaid(q, paid) && Index(StartOfMonth(createdAt)) <= Index(q) <= Index(StartOfMonth(now))
    ensures createdAt.year >= 100 ==>
              (q in UnpaidPeriods(createdAt, now, paid) <==>
                 Unpaid(q, paid) && Index(StartOfMonth(createdAt)) <= Index(q) <= Index(StartOfMonth(now)))
  {
    var s, e := StartOfMonth(createdAt), StartOfMonth(now);
    if createdAt.year >= 100 && Unpaid(q, paid) && Index(s) <= Index(q) <= Index(e) {
      WalkVisitsEveryMonth(s, e, paid, q);
    }
  }

  /** Once the walk runs in years of three or more digits, it reports every unpaid month up to `current`. */
  lemma {:induction false} WalkVisitsEveryMonth(iter: Period, current: Period, paid: seq<string>, q: Period)
    requires iter.Valid() && iter.year >= 100
    requires Unpaid(q, paid) && Index(iter) <= Index(q) <= Index(current)
    ensures q in UnpaidWalk(iter, current, paid)
    decreases Index(current) - Index(iter)
  {
    if Index(q) == Index(iter) {
      IndexInjective(q, iter);
    } else {
      WalkVisitsEveryMonth(Next(iter), current, paid, q);
    }
  }

  /**
   * Registered in a year 0 to 99: the walk steps from the registration month
   * straight into year 1900 + that year, so no month from year 100 up to then
   * is ever reported, unpaid or not.
   */
  lemma TwoDigitYearGap(createdAt: Date, now: Date, paid: seq<string>, q: Period)
    requires createdAt.Valid() && 0 <= createdAt.year <= 99
    requires q.Valid() && 100 <= q.year < 1900 + createdAt.year
    ensures q !in UnpaidPeriods(createdAt, now, paid)
  {
    var s, e := StartOfMonth(createdAt), StartOfMonth(now);
    if Index(s) <= Index(e) {
      assert UnpaidWalk(s, e, paid)
             == (if Format(s) in paid then [] else [s]) + UnpaidWalk(Next(s), e, paid);
    }
  }

  /** The unpaid months of a window: its first month if unpaid, then those of the rest. */
  lemma UnpaidAmongCons(p: Period, n: nat, paid: seq<string>)
    requires p.Valid()
    ensures UnpaidAmong(Months(p, n + 1), paid)
            == (if Format(p) in paid then [] else [p]) + UnpaidAmong(Months(Next(p), n), paid)
  {
    var ms := Months(p, n + 1);
    assert ms[0] == p && ms[1..] == Months(Next(p), n);
  }

  /** The allocation walk takes the first `WholeFees(remaining, monthly)` unpaid months of what is left of its window. */
  lemma {:induction false} AllocateWalkIsWindow(iter: Period, remaining: int, monthly: int, counter: nat, paid: seq<string>)
    requires iter.Valid() && monthly > 0 && counter <= AllocationCap
    ensures AllocateWalk(iter, remaining, monthly, counter, paid)
            == Take(UnpaidAmong(Months(iter, AllocationCap - counter), paid), WholeFees(remaining, monthly))
    decreases AllocationCap - counter
  {
    if remaining < monthly {
    } else if counter == AllocationCap {
      assert Months(iter, 0) == [];
    } else if Format(iter) in paid {
      AllocateWalkIsWindow(Next(iter), remaining, monthly, counter + 1, paid);
      AllocateStepPaid(iter, remaining, monthly, counter, paid);
    } else {
      AllocateWalkIsWindow(Next(iter), remaining - monthly, monthly, counter + 1, paid);
      AllocateStepUnpaid(iter, remaining, monthly, counter, paid);
    }
  }

  /** Induction step of `AllocateWalkIsWindow` at a paid month: the month is skipped, nothing is charged. */
  lemma AllocateStepPaid(iter: Period, remaining: int, monthly: int, counter: nat, paid: seq<string>)
    requires iter.Valid() && monthly > 0 && counter < AllocationCap
    requires remaining >= monthly && Format(iter) in paid
    requires AllocateWalk(Next(iter), remaining, monthly, counter + 1, paid)
             == Take(UnpaidAmong(Months(Next(iter), AllocationCap - counter - 1), paid), WholeFees(remaining, monthly))
    ensures AllocateWalk(iter, remaining, monthly, counter, paid)
            == Take(UnpaidAmong(Months(iter, AllocationCap - counter), paid), WholeFees(remaining, monthly))
  {
    var rest := UnpaidAmong(Months(Next(iter), AllocationCap - counter - 1), paid);
    UnpaidAmongCons(iter, AllocationCap - counter - 1, paid);
    assert [] + rest == rest;
  }

  /** Induction step of `AllocateWalkIsWindow` at an unpaid month: the month is taken and one fee charged. */
  lemma AllocateStepUnpaid(iter: Period, remaining: int, monthly: int, counter: nat, paid: seq<string>)
    requires iter.Valid() && monthly > 0 && counter < AllocationCap
    requires remaining >= monthly && Format(iter) !in paid
    requires AllocateWalk(Next(iter), remaining - monthly, monthly, counter + 1, paid)
             == Take(UnpaidAmong(Months(Next(iter), AllocationCap - counter - 1), paid), WholeFees(remaining - monthly, monthly))
    ensures AllocateWalk(iter, remaining, monthly, counter, paid)
            == Take(UnpaidAmong(Months(iter, AllocationCap - counter), paid), WholeFees(remaining, monthly))
  {
    var rest := UnpaidAmong(Months(Next(iter), AllocationCap - counter - 1), paid);
    UnpaidAmongCons(iter, AllocationCap - counter - 1, paid);
    TakeCons(iter, rest, WholeFees(remaining, monthly));
  }

  lemma TakeCons<T>(x: T, rest: seq<T>, k: int)
    requires k >= 1
    ensures Take([x] + rest, k) == [x] + Take(rest, k - 1)
  {
    if k - 1 < |rest| {
      assert ([x] + rest)[..k] == [x] + rest[..k - 1];
    }
  }

  /** For a positive fee, the allocation is the first `amount / monthly` unpaid months of the 120-month window. */
  lemma AllocationIsWindowPrefix(amount: int, monthly: int, createdAt: Date, paid: seq<string>)
    requires createdAt.Valid() && monthly > 0
    ensures PeriodsToPay(amount, monthly, createdAt, paid)
            == Take(UnpaidAmong(Months(StartOfMonth(createdAt), AllocationCap), paid), amount / monthly)
  {
    if amount < monthly {
      DivBelowOne(amount, monthly);
    } else {
      AllocateWalkIsWindow(StartOfMonth(createdAt), amount, monthly, 0, paid);
      WholeFeesIsQuotient(amount, monthly);
    }
  }

  /** The walk from `p` to the month `n` steps later visits `n + 1` months. */
  lemma {:induction false} SpanToAdvance(p: Period, n: nat)
    requires p.Valid()
    ensures Span(p, Advance(p, n)) == n + 1
    decreases n
  {
    if n > 0 {
      SpanToAdvance(Next(p), n - 1);
    }
  }

  /** A leading part of the unpaid walk keeps the walk's shape. */
  lemma WalkPrefixShape(iter: Period, current: Period, paid: seq<string>, k: nat)
    requires iter.Valid() && k <= |UnpaidWalk(iter, current, paid)|
    ensures var r := UnpaidWalk(iter, current, paid)[..k];
            && (forall i :: 0 <= i < |r| ==> r[i].Valid() && Unpaid(r[i], paid))
            && (forall i :: 0 <= i < |r| ==> Index(iter) <= Index(r[i]) <= Index(current))
            && Ascending(r)
  {
  }

  /**
   * The allocation lists unpaid months of the 120 visited from registration, oldest
   * first; from year 100 on these are the 120 calendar months from registration.
   */
  lemma AllocationShape(amount: int, monthly: int, createdAt: Date, paid: seq<string>)
    requires createdAt.Valid()
    ensures var r := PeriodsToPay(amount, monthly, createdAt, paid);
            var s := StartOfMonth(createdAt);
            && (forall i :: 0 <= i < |r| ==> r[i].Valid() && Unpaid(r[i], paid))
            && (forall i :: 0 <= i < |r| ==> Index(s) <= Index(r[i]) <= Index(Advance(s, AllocationCap - 1)))
            && (createdAt.year >= 100 ==> forall i :: 0 <= i < |r| ==> Index(r[i]) < Index(s) + AllocationCap)
            && Ascending(r)
  {
    if monthly > 0 {
      var s := StartOfMonth(createdAt);
      var last := Advance(s, AllocationCap - 1);
      AllocationIsWindowPrefix(amount, monthly, createdAt, paid);
      SpanToAdvance(s, AllocationCap - 1);
      UnpaidWalkIsWindow(s, last, paid);
      var r := PeriodsToPay(amount, monthly, createdAt, paid);
      WalkPrefixShape(s, last, paid, |r|);
      if createdAt.year >= 100 {
        AdvancePlain(s, AllocationCap - 1);
      }
    }
  }

  /** How many months a payment covers: never more whole fees than it holds, exactly that many when the window allows. */
  lemma AllocationCount(amount: int, monthly: int, createdAt: Date, paid: seq<string>)
    requires createdAt.Valid() && monthly > 0 && amount >= 0
    ensures |PeriodsToPay(amount, monthly, createdAt, paid)| <= amount / monthly
    ensures |PeriodsToPay(amount, monthly, createdAt, paid)| <= AllocationCap
    ensures amount / monthly <= |UnpaidAmong(Months(StartOfMonth(createdAt), AllocationCap), paid)|
            ==> |PeriodsToPay(amount, monthly, createdAt, paid)| == amount / monthly
  {
    AllocationIsWindowPrefix(amount, monthly, createdAt, paid);
    DivNonneg(amount, monthly);
  }

  /** The whole months covered never cost more than the amount entered. */
  lemma AllocationAffordable(amount: int, monthly: int, createdAt: Date, paid: seq<string>)
    requires createdAt.Valid() && monthly > 0
    ensures |PeriodsToPay(amount, monthly, createdAt, paid)| * monthly <= if amount < 0 then 0 else amount
  {
    var k := |PeriodsToPay(amount, monthly, createdAt, paid)|;
    if amount >= 0 {
      AllocationCount(amount, monthly, createdAt, paid);
      WholeFeesFit(amount, monthly, k);
    }
  }

  /** From year 100 on, every unpaid month inside a window is among the window's unpaid months. */
  lemma WindowMember(p: Period, n: nat, paid: seq<string>, q: Period)
    requires p.Valid() && p.year >= 100 && Unpaid(q, paid) && Index(p) <= Index(q) < Index(p) + n
    ensures q in UnpaidAmong(Months(p, n), paid)
  {
    var ms := Months(p, n);
    var j := Index(q) - Index(p);
    MonthsAt(p, n, j);
    AdvancePlain(p, j);
    IndexInjective(ms[j], q);
    assert Unpaid(ms[j], paid);
  }

  /** In an ascending list, whatever is no later than the last element of a prefix lies in that prefix. */
  lemma AscendingPrefixMember(r: seq<Period>, w: seq<Period>, q: Period)
    requires Ascending(w) && IsPrefix(r, w) && r != [] && q in w && Index(q) <= Index(r[|r| - 1])
    ensures q in r
  {
    var k :| 0 <= k < |w| && w[k] == q;
    assert w[|r| - 1] == r[|r| - 1];
    assert k <= |r| - 1;
    assert r[k] == q;
  }

  /**
   * What the allocated months cost in whole fees: at most the amount, at least
   * one fee when anything is allocated, and the amount less its remainder
   * modulo the fee when the window holds enough unpaid months.
   */
  lemma AllocationCharge(amount: int, monthly: int, createdAt: Date, paid: seq<string>)
    requires createdAt.Valid() && monthly > 0 && amount >= 0
    ensures var k := |PeriodsToPay(amount, monthly, createdAt, paid)|;
            && monthly * k <= amount
            && (k > 0 ==> monthly <= monthly * k)
            && (amount / monthly <= |UnpaidAmong(Months(StartOfMonth(createdAt), AllocationCap), paid)|
                ==> monthly * k == amount - amount % monthly)
  {
    var k := |PeriodsToPay(amount, monthly, createdAt, paid)|;
    AllocationCount(amount, monthly, createdAt, paid);
    AllocationAffordable(amount, monthly, createdAt, paid);
    assert k * monthly == monthly * k;
    if k > 0 {
      AtLeastOneFee(monthly, k);
    }
    QuotientTimesFee(amount, monthly);
  }

  /** For a registration from year 100 on, no unpaid month between it and the last allocated month is skipped. */
  lemma AllocationNoSkip(amount: int, monthly: int, createdAt: Date, paid: seq<string>, q: Period)
    requires createdAt.Valid() && createdAt.year >= 100
    requires var r := PeriodsToPay(amount, monthly, createdAt, paid);
             r != [] && Unpaid(q, paid) && Index(StartOfMonth(createdAt)) <= Index(q) <= Index(r[|r| - 1])
    ensures q in PeriodsToPay(amount, monthly, createdAt, paid)
  {
    var r := PeriodsToPay(amount, monthly, createdAt, paid);
    var s := StartOfMonth(createdAt);
    AllocationShape(amount, monthly, createdAt, paid);
    AllocationIsWindowPrefix(amount, monthly, createdAt, paid);
    var w := UnpaidAmong(Months(s, AllocationCap), paid);
    assert IsPrefix(r, w);
    var last := Advance(s, AllocationCap - 1);
    SpanToAdvance(s, AllocationCap - 1);
    UnpaidWalkIsWindow(s, last, paid);
    WindowMember(s, AllocationCap, paid, q);
    AscendingPrefixMember(r, w, q);
  }

  /** Whenever the allocation is no longer than the unpaid list for the same inputs, it is a prefix of it. */
  lemma AllocationPrefixOfUnpaid(amount: int, monthly: int, createdAt: Date, now: Date, paid: seq<string>)
    requires createdAt.Valid()
    requires |PeriodsToPay(amount, monthly, createdAt, paid)| <= |UnpaidPeriods(createdAt, now, paid)|
    ensures IsPrefix(PeriodsToPay(amount, monthly, createdAt, paid), UnpaidPeriods(createdAt, now, paid))
  {
    var s, e := StartOfMonth(createdAt), StartOfMonth(now);
    var a, u := PeriodsToPay(amount, monthly, createdAt, paid), UnpaidPeriods(createdAt, now, paid);
    var n := Span(s, e);
    var m := if n < AllocationCap then AllocationCap else n;
    var big := UnpaidAmong(Months(s, m), paid);
    UnpaidWalkIsWindow(s, e, paid);
    UnpaidWindowGrows(s, n, m, paid);
    if monthly > 0 {
      AllocationIsWindowPrefix(amount, monthly, createdAt, paid);
      UnpaidWindowGrows(s, AllocationCap, m, paid);
      var w := UnpaidAmong(Months(s, AllocationCap), paid);
      assert IsPrefix(a, w);
      assert a == big[..|a|];
      PrefixesAreComparable(a, u, big);
    }
  }

  /** Registration after the current month: nothing is unpaid, yet a payment is still allocated, starting at the registration month. */
  lemma FutureRegistrationStillAllocates(amount: int, monthly: int, createdAt: Date, now: Date)
    requires createdAt.Valid()
    requires Index(StartOfMonth(createdAt)) > Index(StartOfMonth(now))
    requires monthly > 0 && amount >= monthly
    ensures UnpaidPeriods(createdAt, now, []) == []
    ensures var r := PeriodsToPay(amount, monthly, createdAt, []);
            r != [] && r[0] == StartOfMonth(createdAt) && Index(r[0]) > Index(StartOfMonth(now))
  {
  }
}
