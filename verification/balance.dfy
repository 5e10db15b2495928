/**
 A recurring financial item (`Balance` in structs/balance.py): its three
 enumerations, the normalisation of an absent expiry / start month done at
 construction, the per-cycle rate `balance_ratio`, the signed contribution
 `balance_value`, and the record written by `to_csv`.
 */
module Balances {
  import opened Wrappers

  /** The kind of an item; the string values are "credit", "pay", "investment", "expense". */
  datatype BalanceType = Credit | Payment | Investment | Expense {

    predicate IsInvestment() {
      this == Investment
    }

    predicate IsPayment() {
      this == Payment
    }

    /** Expense and payment items are debits: their contribution is negated. */
    predicate IsDebit() {
      this == Expense || this == Payment
    }
  }

  /** The cycle whose clock drives an item's activation: "monthly" or "yearly". */
  datatype SpreadType = Monthly | Yearly

  /** The unit of an item's frequency: "/month" or "/year". */
  datatype FrequencyType = PerMonth | PerYear

  /** An absolute cycle index, or `Never`, which stands for the float +infinity. */
  datatype Expiry = Never | At(cycle: int)

  /** One record as the item store holds it (the dictionary `to_csv` returns and
      `Balance(**row)` consumes); `None` is an empty cell. */
  datatype Record = Record(
    id: string,
    name: string,
    value: real,
    frequency: real,
    frequencyUnit: FrequencyType,
    spreadType: SpreadType,
    expiry: Option<Expiry>,
    startMonth: Option<int>,
    kind: BalanceType)

  /** A constructed item: expiry and start month are always present. */
  datatype Balance = Balance(
    id: string,
    name: string,
    value: real,
    frequency: real,
    frequencyUnit: FrequencyType,
    spreadType: SpreadType,
    expiry: Expiry,
    startMonth: int,
    kind: BalanceType)

  /** An absent expiry means the item never expires. */
  function NormaliseExpiry(expiry: Option<Expiry>): (e: Expiry)
    ensures expiry.None? ==> e == Never
    ensures expiry.Some? ==> e == expiry.value
  {
    if expiry.Some? then expiry.value else Never
  }

  /** An absent start month means the item is active from cycle 0. */
  function NormaliseStart(startMonth: Option<int>): (s: int)
    ensures startMonth.None? ==> s == 0
    ensures startMonth.Some? ==> s == startMonth.value
  {
    if startMonth.Some? then startMonth.value else 0
  }

  /** The constructor `Balance(**row)` followed by `__post_init__`. */
  function FromRecord(r: Record): (b: Balance)
    ensures b.id == r.id && b.kind == r.kind
    ensures b.expiry == NormaliseExpiry(r.expiry) && b.startMonth == NormaliseStart(r.startMonth)
  {
    Balance(r.id, r.name, r.value, r.frequency, r.frequencyUnit, r.spreadType,
            NormaliseExpiry(r.expiry), NormaliseStart(r.startMonth), r.kind)
  }

  /** `to_csv`: every field written out, expiry and start month always present. */
  function ToCsv(b: Balance): (r: Record)
    ensures r.expiry.Some? && r.startMonth.Some?
    ensures r.id == b.id
  {
    Record(b.id, b.name, b.value, b.frequency, b.frequencyUnit, b.spreadType,
           Some(b.expiry), Some(b.startMonth), b.kind)
  }

  /** Rebuilding an item from its `to_csv` record gives the same item back. */
  lemma CsvRoundTrip(b: Balance)
    ensures FromRecord(ToCsv(b)) == b
  {
  }

  /** Writing a record back out only fills in the normalised expiry and start. */
  lemma RecordRoundTrip(r: Record)
    ensures ToCsv(FromRecord(r)) == r.(expiry := Some(NormaliseExpiry(r.expiry)),
                                      startMonth := Some(NormaliseStart(r.startMonth)))
  {
  }

  /** An absent expiry and an explicit infinite one, or an absent start and an
      explicit start 0, construct the same item. */
  lemma AbsentEqualsExtreme(r: Record)
    ensures FromRecord(r.(expiry := None)) == FromRecord(r.(expiry := Some(Never)))
    ensures FromRecord(r.(startMonth := None)) == FromRecord(r.(startMonth := Some(0)))
  {
  }

  /** Each of `is_investment` and `is_payment` holds for exactly one kind. */
  lemma KindPredicatesSingleOut(t: BalanceType)
    ensures t.IsInvestment() <==> t == Investment
    ensures t.IsPayment() <==> t == Payment
    ensures !(t.IsInvestment() && t.IsPayment())
  {
  }

  /** The rate expressed per month, whatever the unit. */
  function MonthlyRate(b: Balance): real {
    match b.frequencyUnit
    case PerMonth => b.frequency
    case PerYear => b.frequency / 12.0
  }

  /** `balance_ratio`: the frequency converted to the item's own cycle. */
  function BalanceRatio(b: Balance): (r: real)
    ensures b.frequency > 0.0 ==> r > 0.0
    ensures b.spreadType == Monthly ==> r == MonthlyRate(b)
    ensures b.spreadType == Yearly ==> r == 12.0 * MonthlyRate(b)
  {
    if (b.spreadType == Monthly && b.frequencyUnit == PerMonth)
       || (b.spreadType == Yearly && b.frequencyUnit == PerYear)
    then b.frequency
    else if b.frequencyUnit == PerYear then b.frequency / 12.0
    else b.frequency * 12.0
  }

  /** When spread and unit agree the ratio is the frequency; otherwise it is
      scaled by twelve in the direction of the spread. */
  lemma RatioCases(b: Balance)
    ensures b.spreadType == Monthly && b.frequencyUnit == PerMonth ==> BalanceRatio(b) == b.frequency
    ensures b.spreadType == Yearly && b.frequencyUnit == PerYear ==> BalanceRatio(b) == b.frequency
    ensures b.spreadType == Monthly && b.frequencyUnit == PerYear ==> BalanceRatio(b) == b.frequency / 12.0
    ensures b.spreadType == Yearly && b.frequencyUnit == PerMonth ==> BalanceRatio(b) == b.frequency * 12.0
  {
  }

  /** `balance_value`: the magnitude times the ratio, negated for debits. */
  function BalanceValue(b: Balance): real {
    b.value * BalanceRatio(b) * (if b.kind.IsDebit() then -1.0 else 1.0)
  }

  /** The contribution has the magnitude `value * balance_ratio`; with a positive
      magnitude and frequency it is negative exactly for expense and payment
      items and positive exactly for credit and investment items. */
  lemma BalanceValueSign(b: Balance)
    ensures BalanceValue(b) == b.value * BalanceRatio(b) || BalanceValue(b) == -(b.value * BalanceRatio(b))
    ensures b.value > 0.0 && b.frequency > 0.0 ==> (BalanceValue(b) < 0.0 <==> b.kind.IsDebit())
    ensures b.value > 0.0 && b.frequency > 0.0 ==> (BalanceValue(b) > 0.0 <==> !b.kind.IsDebit())
  {
  }

  /** Defect at structs/balance.py:43: the start month is read from the class
      default of the init-only field, which is None, instead of the argument.
      Returns the stored start month, `None` standing for Python's None. */
  function StartMonthAsWritten(startMonth: Option<int>): (s: Option<int>)
    ensures startMonth.Some? ==> s.None?
    ensures startMonth.None? ==> s == Some(0)
  {
    var classDefault: Option<int> := None;
    if startMonth.Some? then classDefault else Some(0)
  }

  /** As written, a given start month is lost, where the intended
      normalisation keeps it. */
  lemma StartMonthIsLost(r: Record)
    requires r.startMonth.Some?
    ensures StartMonthAsWritten(r.startMonth) != Some(FromRecord(r).startMonth)
    ensures FromRecord(r).startMonth == r.startMonth.value
  {
  }
}
