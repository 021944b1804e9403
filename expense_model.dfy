/** The expense document: its schema constraints and the `calculatedShares`
    virtual (backend/models/Expense.js). */
module ExpenseModel {
  import opened Wrappers
  import opened Money
  import opened Text

  const ShareTypes: seq<string> := ["equal", "percentage", "exact"]
  const Categories: seq<string> := ["Food", "Travel", "Utilities", "Entertainment", "Shopping", "Other"]
  const RecurringFrequencies: seq<string> := ["weekly", "monthly", "yearly"]
  const MaxDescription: nat := 200
  const MinAmount: real := 0.01

  /** A participant of a stored expense. The share type is the string the
      document holds; the engine compares it with `===`. */
  datatype Participant = Participant(name: string, share: real, shareType: string)

  /** A stored expense document, after the schema applied its defaults and
      trimmed `description` and `paid_by`. */
  datatype Expense = Expense(
    amount: real,
    description: string,
    paidBy: string,
    participants: seq<Participant>,
    category: string,
    isRecurring: bool,
    recurringFrequency: Option<string>,
    isSettlement: bool)

  /** A participant as handed to the schema; `shareType` may be left out. */
  datatype ParticipantInput = ParticipantInput(name: string, share: real, shareType: Option<string>)

  /** An expense as handed to the schema, before defaults and trimming. */
  datatype ExpenseInput = ExpenseInput(
    amount: real,
    description: string,
    paidBy: string,
    participants: seq<ParticipantInput>,
    category: Option<string>,
    isRecurring: Option<bool>,
    recurringFrequency: Option<string>,
    isSettlement: Option<bool>)

  function CastParticipant(p: ParticipantInput): Participant {
    Participant(p.name, p.share, p.shareType.GetOr("equal"))
  }

  /** What the schema stores for an input: `trim: true` on description and
      paid_by (not on participant names), and the declared defaults. */
  function Cast(d: ExpenseInput): Expense {
    Expense(
      d.amount,
      Trim(d.description),
      Trim(d.paidBy),
      seq(|d.participants|, k requires 0 <= k < |d.participants| => CastParticipant(d.participants[k])),
      d.category.GetOr("Other"),
      d.isRecurring.GetOr(false),
      d.recurringFrequency,
      d.isSettlement.GetOr(false))
  }

  /** The schema's validators on a stored document: `min` on amount and
      share, `required` (a required string must be non-empty), `maxlength`
      on the trimmed description, the three `enum`s, and recurringFrequency
      required while isRecurring holds. */
  predicate Valid(e: Expense) {
    && e.amount >= MinAmount
    && e.description != [] && |e.description| <= MaxDescription
    && e.paidBy != []
    && (forall p :: p in e.participants ==>
          p.name != [] && p.share >= 0.0 && p.shareType in ShareTypes)
    && e.category in Categories
    && (e.recurringFrequency.Some? ==> e.recurringFrequency.value in RecurringFrequencies)
    && (e.isRecurring ==> e.recurringFrequency.Some?)
  }

  /** What an input must satisfy to be stored: the validators read through
      the defaults. A missing shareType or category is accepted because its
      default is in the enum, and a blank description or payer is refused
      because trimming leaves it empty. */
  lemma CastValidIff(d: ExpenseInput)
    ensures Valid(Cast(d)) <==>
      && d.amount >= MinAmount
      && !AllWhitespace(d.description) && |Trim(d.description)| <= MaxDescription
      && !AllWhitespace(d.paidBy)
      && (forall k :: 0 <= k < |d.participants| ==>
            d.participants[k].name != [] && d.participants[k].share >= 0.0
            && (d.participants[k].shareType.None? || d.participants[k].shareType.value in ShareTypes))
      && (d.category.None? || d.category.value in Categories)
      && (d.recurringFrequency.Some? ==> d.recurringFrequency.value in RecurringFrequencies)
      && (d.isRecurring == Some(true) ==> d.recurringFrequency.Some?)
  {
    var e := Cast(d);
    TrimEmptyIff(d.description);
    TrimEmptyIff(d.paidBy);
    assert forall k :: 0 <= k < |d.participants| ==> e.participants[k] == CastParticipant(d.participants[k]);
    assert "equal" in ShareTypes && "Other" in Categories;
    if (forall k :: 0 <= k < |d.participants| ==>
          d.participants[k].name != [] && d.participants[k].share >= 0.0
          && (d.participants[k].shareType.None? || d.participants[k].shareType.value in ShareTypes)) {
      forall p | p in e.participants ensures p.name != [] && p.share >= 0.0 && p.shareType in ShareTypes {
        var k :| 0 <= k < |e.participants| && e.participants[k] == p;
      }
    }
    if Valid(e) {
      forall k | 0 <= k < |d.participants|
        ensures d.participants[k].name != [] && d.participants[k].share >= 0.0
            && (d.participants[k].shareType.None? || d.participants[k].shareType.value in ShareTypes)
      {
        assert e.participants[k] in e.participants;
      }
    }
  }

  /** One entry of `calculatedShares`. */
  datatype ShareLine = ShareLine(name: string, amount: real)

  /** The share the virtual gives a participant before rounding: the switch
      on shareType has no default branch, so an unrecognised type gives 0. */
  function VirtualShare(total: real, p: Participant, count: nat): real {
    if p.shareType == "equal" then (if count == 0 then 0.0 else total / count as real)
    else if p.shareType == "percentage" then total * p.share / 100.0
    else if p.shareType == "exact" then p.share
    else 0.0
  }

  /** The `calculatedShares` virtual: one line per participant, same names,
      same order, each the participant's share by type rounded to cents; no
      participants give no lines. */
  method CalculatedShares(e: Expense) returns (shares: seq<ShareLine>)
    ensures |shares| == |e.participants|
    ensures forall k :: 0 <= k < |shares| ==>
      shares[k].name == e.participants[k].name
      && shares[k].amount == Round2(VirtualShare(e.amount, e.participants[k], |e.participants|))
  {
    if |e.participants| == 0 {
      return [];
    }
    var totalAmount := e.amount;
    var n := |e.participants|;
    shares := [];
    for k := 0 to n
      invariant |shares| == k
      invariant forall m :: 0 <= m < k ==>
        shares[m].name == e.participants[m].name
        && shares[m].amount == Round2(VirtualShare(totalAmount, e.participants[m], n))
    {
      var participant := e.participants[k];
      var shareAmount := 0.0;
      if participant.shareType == "equal" {
        shareAmount := totalAmount / n as real;
      } else if participant.shareType == "percentage" {
        shareAmount := (totalAmount * participant.share) / 100.0;
      } else if participant.shareType == "exact" {
        shareAmount := participant.share;
      }
      assert shareAmount == VirtualShare(totalAmount, participant, n);
      shares := shares + [ShareLine(participant.name, Round2(shareAmount))];
    }
  }

  /** Sum of the unrounded shares of the first k participants. */
  function SumVirtual(total: real, ps: seq<Participant>, k: nat): real
    requires k <= |ps|
  {
    if k == 0 then 0.0 else SumVirtual(total, ps, k - 1) + VirtualShare(total, ps[k - 1], |ps|)
  }

  lemma {:induction false} SumEqualPrefix(total: real, ps: seq<Participant>, k: nat)
    requires 0 < |ps| && k <= |ps|
    requires forall p :: p in ps ==> p.shareType == "equal"
    ensures SumVirtual(total, ps, k) == k as real * (total / |ps| as real)
  {
    if k > 0 {
      SumEqualPrefix(total, ps, k - 1);
      assert ps[k - 1] in ps;
    }
  }

  /** When every participant splits equally, the unrounded shares add up to
      the amount. */
  lemma EqualSharesSumToAmount(total: real, ps: seq<Participant>)
    requires 0 < |ps|
    requires forall p :: p in ps ==> p.shareType == "equal"
    ensures SumVirtual(total, ps, |ps|) == total
  {
    SumEqualPrefix(total, ps, |ps|);
  }
}
