/**
 * The fee administration page: the monthly fee in force, each resident row's
 * debt, badge, action button and pay validation, the request a payment sends,
 * and the page's resident search.
 */
module AdminIpl {
  import opened Wrappers
  import opened Seqs
  import opened Text
  import opened Periods
  import opened IplUtils
  import opened Residents

  /**
   * `parseInt(iplSettings?.value || "0")`: no setting, or an empty one, is a fee of 0.
   * A setting that is not a decimal integer is also taken as 0.
   */
  function MonthlyAmount(setting: Option<string>): (monthly: int)
    ensures setting.None? || setting == Some("") ==> monthly == 0
    ensures setting.Some? && ParseDecimal(setting.value).Some? ==> monthly == ParseDecimal(setting.value).value
  {
    match setting
    case None => 0
    case Some(v) => if v == "" then 0 else ParseDecimal(v).GetOr(0)
  }

  /** The row's `totalDebt`: the fee times the number of unpaid months. */
  function TotalDebt(setting: Option<string>, unpaid: seq<string>): (debt: int)
    ensures debt == 0 <==> MonthlyAmount(setting) == 0 || unpaid == []
    ensures MonthlyAmount(setting) >= 0 ==> debt >= 0
  {
    TotalIplDue(MonthlyAmount(setting), |unpaid|)
  }

  /**
   * With the unpaid list computed by `calculateUnpaidPeriods` from a registration
   * date, the debt shown is one fee for each month from registration through now
   * that is not paid.
   */
  lemma DebtChargesEachUnpaidMonth(setting: Option<string>, createdAt: Date, now: Date, paid: seq<string>)
    requires createdAt.Valid() && now.Valid()
    ensures TotalDebt(setting, CalculateUnpaidPeriods(Some(createdAt), now, paid))
            == FeesOwed(UnpaidPeriods(createdAt, now, paid), MonthlyAmount(setting))
  {
    TotalIsFeePerMonth(UnpaidPeriods(createdAt, now, paid), MonthlyAmount(setting));
  }

  datatype Badge = Lunas | BelumLunas

  /** The status badge of a row. */
  function StatusBadge(statusIpl: string, unpaidCount: int): (b: Badge)
    ensures b == Lunas <==> statusIpl == "Lunas" && unpaidCount == 0
  {
    if statusIpl == "Lunas" && unpaidCount == 0 then Lunas else BelumLunas
  }

  /**
   * With the unpaid list computed by `calculateUnpaidPeriods` from a registration
   * date: a row whose stored status is "Lunas" and whose every month from the
   * registration month through the current month is paid shows "Lunas"; for a
   * registration from year 100 on, it shows "Lunas" only then.
   */
  lemma BadgeMeansSettled(statusIpl: string, createdAt: Date, now: Date, paid: seq<string>)
    requires createdAt.Valid() && now.Valid()
    ensures statusIpl == "Lunas"
            && (forall q: Period :: q.Valid() && Index(StartOfMonth(createdAt)) <= Index(q) <= Index(StartOfMonth(now))
                                    ==> Format(q) in paid)
            ==> StatusBadge(statusIpl, |CalculateUnpaidPeriods(Some(createdAt), now, paid)|) == Lunas
    ensures createdAt.year >= 100 ==>
              (StatusBadge(statusIpl, |CalculateUnpaidPeriods(Some(createdAt), now, paid)|) == Lunas
               <==> statusIpl == "Lunas"
                    && forall q: Period :: q.Valid() && Index(StartOfMonth(createdAt)) <= Index(q) <= Index(StartOfMonth(now))
                                           ==> Format(q) in paid)
  {
    var s, e := StartOfMonth(createdAt), StartOfMonth(now);
    var u := UnpaidPeriods(createdAt, now, paid);
    assert |CalculateUnpaidPeriods(Some(createdAt), now, paid)| == |u|;
    if u != [] {
      assert Unpaid(u[0], paid) && Index(s) <= Index(u[0]) <= Index(e);
    } else if createdAt.year >= 100 {
      forall q: Period | q.Valid() && Index(s) <= Index(q) <= Index(e)
        ensures Format(q) in paid
      {
        UnpaidMembership(createdAt, now, paid, q);
      }
    }
  }

  datatype RowAction = Batal | Bayar

  /** The button of a row: reset ("Batal") for a settled row with an empty amount field, otherwise pay. */
  function ActionFor(statusIpl: string, unpaidCount: int, payAmount: string): (a: RowAction)
    ensures a == Batal <==> StatusBadge(statusIpl, unpaidCount) == Lunas && payAmount == ""
  {
    if statusIpl == "Lunas" && unpaidCount == 0 && payAmount == "" then Batal else Bayar
  }

  /** What `handlePay` passes to the pay mutation. */
  datatype PayRequest = PayRequest(residentId: string, amount: int, periods: seq<string>)

  /** `handlePay(resident, periods)`: the amount recorded is whole fees for the listed months. */
  function HandlePay(residentId: string, setting: Option<string>, periods: seq<string>): (req: PayRequest)
    ensures req.residentId == residentId && req.periods == periods
    ensures req.amount == MonthlyAmount(setting) * |periods|
  {
    PayRequest(residentId, TotalIplDue(MonthlyAmount(setting), |periods|), periods)
  }

  /** `parseInt(payAmount || "0")`; `None` is NaN. */
  function EnteredAmount(payAmount: string): Option<int> {
    ParseDecimal(if payAmount == "" then "0" else payAmount)
  }

  /**
   * The row's `periodsToCover`, or the error computing it throws. NaN allocates
   * nothing, since every comparison with it is false; an Invalid Date throws as
   * soon as a whole fee is entered.
   */
  function PeriodsToCover(payAmount: string, monthly: int, createdAt: Option<Date>, paid: seq<string>): (ps: Result<seq<string>>)
    requires createdAt.Some? ==> createdAt.value.Valid()
    ensures ps.Failure? <==> createdAt.None? && monthly > 0
                             && EnteredAmount(payAmount).Some? && EnteredAmount(payAmount).value >= monthly
    ensures ps.Success? ==> forall i :: 0 <= i < |ps.value| ==> ps.value[i] !in paid
    ensures EnteredAmount(payAmount).None? ==> ps == Success([])
  {
    match EnteredAmount(payAmount)
    case None => Success([])
    case Some(a) => GetNextPeriodsToPay(a, monthly, createdAt, paid)
  }

  /**
   * Whether a row renders: every render formats `createdAt` for the "Mendaftar"
   * caption and computes `periodsToCover`, and either throws for an Invalid Date.
   */
  predicate RowRenders(payAmount: string, monthly: int, createdAt: Option<Date>, paid: seq<string>)
    requires createdAt.Some? ==> createdAt.value.Valid()
  {
    createdAt.Some? && PeriodsToCover(payAmount, monthly, createdAt, paid).Success?
  }

  /** A row renders exactly when its resident has a registration date; the caption alone decides. */
  lemma RowNeedsRegistrationDate(payAmount: string, monthly: int, createdAt: Option<Date>, paid: seq<string>)
    requires createdAt.Some? ==> createdAt.value.Valid()
    ensures RowRenders(payAmount, monthly, createdAt, paid) <==> createdAt.Some?
  {
  }

  /**
   * Without a registration date (the Invalid Date every row is handed) nothing is
   * unpaid: the debt shown is 0 and the badge follows the stored status alone,
   * while the row itself cannot render.
   */
  lemma MissingRegistrationDate(setting: Option<string>, statusIpl: string, now: Date, paid: seq<string>, payAmount: string)
    requires now.Valid()
    ensures CalculateUnpaidPeriods(None, now, paid) == []
    ensures TotalDebt(setting, CalculateUnpaidPeriods(None, now, paid)) == 0
    ensures StatusBadge(statusIpl, |CalculateUnpaidPeriods(None, now, paid)|) == Lunas <==> statusIpl == "Lunas"
    ensures !RowRenders(payAmount, MonthlyAmount(setting), None, paid)
  {
  }

  datatype Rejection = AmountRequired | BelowMinimum(monthly: int)

  datatype PayOutcome =
    | NoRow  // the row's render threw, so there is no button to press
    | Rejected(reason: Rejection)
    | Cancelled
    | Paid(request: PayRequest)

  /** The outcome of pressing "Bayar", and the amount field afterwards. */
  datatype PayStep = PayStep(outcome: PayOutcome, payAmountAfter: string)

  /** `!payAmount || parseInt(payAmount) <= 0` (NaN is not `<= 0`). */
  predicate AmountMissing(payAmount: string) {
    payAmount == "" || (ParseDecimal(payAmount).Some? && ParseDecimal(payAmount).value <= 0)
  }

  /** `localHandlePay`, with the answer to the confirmation dialog as `confirmed`. */
  function LocalHandlePay(resident: Resident, setting: Option<string>, payAmount: string,
                          createdAt: Option<Date>, paid: seq<string>, confirmed: bool): (step: PayStep)
    requires createdAt.Some? ==> createdAt.value.Valid()
    ensures step.outcome == NoRow <==> !RowRenders(payAmount, MonthlyAmount(setting), createdAt, paid)
    ensures createdAt.Some? && AmountMissing(payAmount) ==> step == PayStep(Rejected(AmountRequired), payAmount)
    ensures step.outcome == Rejected(BelowMinimum(MonthlyAmount(setting)))
            <==> createdAt.Some? && !AmountMissing(payAmount)
                 && PeriodsToCover(payAmount, MonthlyAmount(setting), createdAt, paid) == Success([])
    ensures step.outcome.Paid?
            <==> createdAt.Some? && !AmountMissing(payAmount)
                 && PeriodsToCover(payAmount, MonthlyAmount(setting), createdAt, paid).Success?
                 && PeriodsToCover(payAmount, MonthlyAmount(setting), createdAt, paid).value != [] && confirmed
    ensures step.outcome.Paid? ==>
              && step.outcome.request
                 == HandlePay(resident.id, setting, PeriodsToCover(payAmount, MonthlyAmount(setting), createdAt, paid).value)
              && step.payAmountAfter == ""
    ensures !step.outcome.Paid? ==> step.payAmountAfter == payAmount
  {
    var monthly := MonthlyAmount(setting);
    if !RowRenders(payAmount, monthly, createdAt, paid) then PayStep(NoRow, payAmount)
    else
      var periods := PeriodsToCover(payAmount, monthly, createdAt, paid).value;
      if AmountMissing(payAmount) then PayStep(Rejected(AmountRequired), payAmount)
      else if periods == [] then PayStep(Rejected(BelowMinimum(monthly)), payAmount)
      else if !confirmed then PayStep(Cancelled, payAmount)
      else PayStep(Paid(HandlePay(resident.id, setting, periods)), "")
  }

  /**
   * A payment that goes through names only unpaid months, distinct ones, and
   * records whole fees: never more than was entered, at least one fee, and
   * when the window holds enough unpaid months, exactly the entered amount
   * less its remainder modulo the fee.
   */
  lemma PaymentIsWholeFees(resident: Resident, setting: Option<string>, payAmount: string,
                           createdAt: Option<Date>, paid: seq<string>, confirmed: bool)
    requires createdAt.Some? ==> createdAt.value.Valid()
    ensures var step := LocalHandlePay(resident, setting, payAmount, createdAt, paid, confirmed);
            step.outcome.Paid? ==>
            var req := step.outcome.request;
            var monthly := MonthlyAmount(setting);
            && createdAt.Some?
            && ParseDecimal(payAmount).Some?
            && monthly > 0
            && monthly <= req.amount <= ParseDecimal(payAmount).value
            && (forall i :: 0 <= i < |req.periods| ==> req.periods[i] !in paid)
            && (createdAt.value.year >= 1 ==> forall i, j :: 0 <= i < j < |req.periods| ==> req.periods[i] != req.periods[j])
            && (ParseDecimal(payAmount).value / monthly
                  <= |UnpaidAmong(Months(StartOfMonth(createdAt.value), AllocationCap), paid)|
                ==> req.amount == ParseDecimal(payAmount).value - ParseDecimal(payAmount).value % monthly)
  {
    if !LocalHandlePay(resident, setting, payAmount, createdAt, paid, confirmed).outcome.Paid? {
      return;
    }
    var d := createdAt.value;
    var monthly := MonthlyAmount(setting);
    var entered := ParseDecimal(payAmount).value;
    assert EnteredAmount(payAmount) == Some(entered);
    var ps := PeriodsToPay(entered, monthly, d, paid);
    var periods := PeriodsToCover(payAmount, monthly, createdAt, paid).value;
    assert periods == GetNextPeriodsToPay(entered, monthly, createdAt, paid).value;
    assert |periods| == |ps|;
    assert monthly > 0 && entered > 0;
    AllocationCharge(entered, monthly, d, paid);
  }

  /** The page search: lower-cased name, block or house number containing the lower-cased term. */
  predicate IplMatches(r: Resident, term: string) {
    || Includes(ToLower(r.nama), ToLower(term))
    || Includes(ToLower(r.blokRumah), ToLower(term))
    || Includes(ToLower(r.nomorRumah), ToLower(term))
  }

  function IplSearch(term: string): Resident -> bool {
    (r: Resident) => IplMatches(r, term)
  }

  /** `filteredResidents` of the page: the matching residents, in their original order. */
  function SearchResidents(residents: seq<Resident>, term: string): (shown: seq<Resident>)
    ensures Subsequence(shown, residents)
    ensures forall i :: 0 <= i < |shown| ==> shown[i] in residents && IplMatches(shown[i], term)
    ensures forall i :: 0 <= i < |residents| && IplMatches(residents[i], term) ==> residents[i] in shown
    ensures term == "" ==> shown == residents
  {
    EmptyIplSearchShowsAll(residents, term);
    FilterIsSubsequence(residents, IplSearch(term));
    Filter(residents, IplSearch(term))
  }

  /** With an empty search box every resident is listed. */
  lemma EmptyIplSearchShowsAll(residents: seq<Resident>, term: string)
    ensures term == "" ==> Filter(residents, IplSearch(term)) == residents
  {
    if term == "" {
      forall i | 0 <= i < |residents|
        ensures IplSearch(term)(residents[i])
      {
        IncludesEmpty(ToLower(residents[i].nama));
      }
      FilterKeepAll(residents, IplSearch(term));
    }
  }
}
