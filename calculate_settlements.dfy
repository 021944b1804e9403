/** `calculateSettlements` end to end: the balances of the expense list,
    then the greedy matching, and what the suggested payments mean in terms
    of each person's net balance. */
module Settlements {
  import opened Money
  import opened Roster
  import opened ExpenseModel
  import opened Balances
  import opened SettlementPlan

  /** Payment s is the one the loop pushed on turn k. */
  predicate Emits(steps: seq<Step>, ds: seq<PersonBalance>, cs: seq<PersonBalance>, k: nat, s: Settlement)
    requires InRange(steps, |ds|, |cs|) && k < |steps|
  {
    && steps[k].amount > 0.01
    && s == Settlement(ds[steps[k].debtor].name, cs[steps[k].creditor].name, Round2(steps[k].amount))
  }

  /** Payment s is the one the loop pushed on some turn. */
  ghost predicate FromSomeTurn(steps: seq<Step>, ds: seq<PersonBalance>, cs: seq<PersonBalance>, s: Settlement)
    requires InRange(steps, |ds|, |cs|)
  {
    exists k: nat :: k < |steps| && Emits(steps, ds, cs, k, s)
  }

  /** Every payment comes from one turn above the threshold, and there are
      no more payments than turns. */
  lemma {:induction false} EmittedShape(steps: seq<Step>, ds: seq<PersonBalance>, cs: seq<PersonBalance>)
    requires InRange(steps, |ds|, |cs|)
    ensures |Emitted(steps, ds, cs)| <= |steps|
    ensures forall i :: 0 <= i < |Emitted(steps, ds, cs)| ==> FromSomeTurn(steps, ds, cs, Emitted(steps, ds, cs)[i])
    decreases |steps|
  {
    if steps != [] {
      var n := |steps| - 1;
      var init := steps[..n];
      assert InRange(init, |ds|, |cs|);
      EmittedShape(init, ds, cs);
      var e, e0 := Emitted(steps, ds, cs), Emitted(init, ds, cs);
      var last := steps[n];
      assert e == e0 + (if last.amount > 0.01 then [Settlement(ds[last.debtor].name, cs[last.creditor].name, Round2(last.amount))] else []);
      forall i | 0 <= i < |e| ensures FromSomeTurn(steps, ds, cs, e[i]) {
        if i < |e0| {
          assert e[i] == e0[i];
          assert FromSomeTurn(init, ds, cs, e0[i]);
          var k: nat :| k < |init| && Emits(init, ds, cs, k, e0[i]);
          assert init[k] == steps[k];
          assert Emits(steps, ds, cs, k, e[i]);
        } else {
          assert Emits(steps, ds, cs, n, e[i]);
        }
      }
    }
  }

  /** Positive moves add up to something non-negative. */
  lemma {:induction false} PaidNonNegative(steps: seq<Step>, p: nat)
    requires forall k :: 0 <= k < |steps| ==> steps[k].amount > 0.0
    ensures 0.0 <= PaidBy(steps, p) && 0.0 <= ReceivedBy(steps, p)
    decreases |steps|
  {
    if steps != [] {
      var init := steps[..|steps| - 1];
      assert forall k :: 0 <= k < |init| ==> init[k] == steps[k];
      PaidNonNegative(init, p);
    }
  }

  /** Moves on whole cents add up to whole cents. */
  lemma {:induction false} PaidOnCents(steps: seq<Step>, p: nat)
    requires forall k :: 0 <= k < |steps| ==> OnCents(steps[k].amount)
    ensures OnCents(PaidBy(steps, p)) && OnCents(ReceivedBy(steps, p))
    decreases |steps|
  {
    if steps == [] {
      assert (0.0 * 100.0).Floor == 0;
    } else {
      var init, last := steps[..|steps| - 1], steps[|steps| - 1];
      assert forall k :: 0 <= k < |init| ==> init[k] == steps[k];
      PaidOnCents(init, p);
      CentsArithmetic(PaidBy(init, p), last.amount);
      CentsArithmetic(ReceivedBy(init, p), last.amount);
    }
  }

  /** When every balance is on cents, so is every amount the greedy
      schedule moves: each is the minimum of two differences of cents. */
  lemma StepsOnCents(steps: seq<Step>, ds: seq<PersonBalance>, cs: seq<PersonBalance>)
    requires Greedy(steps, ds, cs)
    requires forall p :: 0 <= p < |ds| ==> OnCents(ds[p].balance)
    requires forall q :: 0 <= q < |cs| ==> OnCents(cs[q].balance)
    ensures forall k :: 0 <= k < |steps| ==> OnCents(steps[k].amount)
  {
    var n := 0;
    while n < |steps|
      invariant n <= |steps|
      invariant forall m :: 0 <= m < n ==> OnCents(steps[m].amount)
    {
      var pre := steps[..n];
      var d, c := steps[n].debtor, steps[n].creditor;
      assert forall m :: 0 <= m < |pre| ==> pre[m] == steps[m];
      PaidOnCents(pre, d);
      PaidOnCents(pre, c);
      CentsArithmetic(ds[d].balance, PaidBy(pre, d));
      CentsArithmetic(-ds[d].balance, PaidBy(pre, d));
      CentsArithmetic(cs[c].balance, ReceivedBy(pre, c));
      CentsArithmetic(StillOwes(ds, pre, d), StillOwed(cs, pre, c));
      assert MovesMin(steps, ds, cs, n);
      n := n + 1;
    }
  }

  /** There are no more debtors and creditors together than balances. */
  lemma {:induction false} FilterCount(bs: seq<PersonBalance>)
    ensures |Debtors(bs)| + |Creditors(bs)| <= |bs|
    decreases |bs|
  {
    if bs != [] {
      FilterCount(bs[..|bs| - 1]);
    }
  }

  /** The list `calculateBalances` returns for the expenses. */
  ghost predicate Reports(balances: seq<PersonBalance>, es: seq<Expense>) {
    && |balances| == |People(es)|
    && forall k :: 0 <= k < |balances| ==>
         balances[k].name == People(es)[k] && balances[k].balance == Round2(Net(balances[k].name, es))
  }

  /** What one suggested payment means: it goes from a person whose rounded
      balance is negative to a different person whose rounded balance is
      positive, it is a whole number of cents of at least two cents, and it
      exceeds neither what the payer owes nor what the payee is owed. */
  ghost predicate Sound(s: Settlement, es: seq<Expense>) {
    && s.from in People(es) && s.to in People(es) && s.from != s.to
    && Round2(Net(s.from, es)) < 0.0 && Round2(Net(s.to, es)) > 0.0
    && OnCents(s.amount) && 0.02 <= s.amount
    && s.amount <= -Round2(Net(s.from, es)) && s.amount <= Round2(Net(s.to, es))
  }

  /** Every reported balance is on cents, so every debtor's and creditor's is. */
  lemma ReportedOnCents(balances: seq<PersonBalance>, es: seq<Expense>)
    requires Reports(balances, es)
    ensures forall p :: 0 <= p < |Debtors(balances)| ==> OnCents(Debtors(balances)[p].balance)
    ensures forall q :: 0 <= q < |Creditors(balances)| ==> OnCents(Creditors(balances)[q].balance)
  {
    forall b | b in balances ensures OnCents(b.balance) {
      var m :| 0 <= m < |balances| && balances[m] == b;
      Round2Bounds(Net(balances[m].name, es));
    }
    var ds, cs := Debtors(balances), Creditors(balances);
    forall p | 0 <= p < |ds| ensures OnCents(ds[p].balance) {
      assert ds[p] in balances;
    }
    forall q | 0 <= q < |cs| ensures OnCents(cs[q].balance) {
      assert cs[q] in balances;
    }
  }

  /** A debtor and a creditor are two different people, each with the
      rounded net balance the list reports for them. */
  lemma Parties(balances: seq<PersonBalance>, es: seq<Expense>, debtor: PersonBalance, creditor: PersonBalance)
    requires Reports(balances, es)
    requires debtor in Debtors(balances) && creditor in Creditors(balances)
    ensures debtor.name in People(es) && creditor.name in People(es) && debtor.name != creditor.name
    ensures debtor.balance == Round2(Net(debtor.name, es)) < 0.0
    ensures creditor.balance == Round2(Net(creditor.name, es)) > 0.0
  {
    var kd :| 0 <= kd < |balances| && balances[kd] == debtor;
    var kc :| 0 <= kc < |balances| && balances[kc] == creditor;
    DedupFirstSeen(AllNames(es));
    if kd != kc {
      assert People(es)[kd] != People(es)[kc] by {
        assert NoDuplicates(People(es));
        if kd > kc {
          assert People(es)[kc] != People(es)[kd];
        }
      }
    }
  }

  /** Under the greedy schedule no turn moves more than its debtor's or its
      creditor's whole balance. */
  lemma StepWithinBalances(steps: seq<Step>, ds: seq<PersonBalance>, cs: seq<PersonBalance>, k: nat)
    requires Greedy(steps, ds, cs) && k < |steps|
    requires forall m :: 0 <= m < |steps| ==> steps[m].amount > 0.0
    ensures steps[k].amount <= -ds[steps[k].debtor].balance
    ensures steps[k].amount <= cs[steps[k].creditor].balance
  {
    var d, c := steps[k].debtor, steps[k].creditor;
    assert MovesMin(steps, ds, cs, k);
    var pre := steps[..k];
    assert forall m :: 0 <= m < |pre| ==> pre[m] == steps[m];
    PaidNonNegative(pre, d);
    PaidNonNegative(pre, c);
  }

  /** Payment i of the plan is Sound. */
  lemma EmittedSound(es: seq<Expense>, balances: seq<PersonBalance>, steps: seq<Step>, i: nat)
    requires Reports(balances, es)
    requires Greedy(steps, Debtors(balances), Creditors(balances))
    requires forall k :: 0 <= k < |steps| ==> steps[k].amount > 0.0
    requires i < |Emitted(steps, Debtors(balances), Creditors(balances))|
    ensures Sound(Emitted(steps, Debtors(balances), Creditors(balances))[i], es)
  {
    var ds, cs := Debtors(balances), Creditors(balances);
    var s := Emitted(steps, ds, cs)[i];
    EmittedShape(steps, ds, cs);
    assert FromSomeTurn(steps, ds, cs, s);
    var k: nat :| k < |steps| && Emits(steps, ds, cs, k, s);
    var d, c, amount := steps[k].debtor, steps[k].creditor, steps[k].amount;
    assert s == Settlement(ds[d].name, cs[c].name, Round2(amount)) && amount > 0.01;
    assert ds[d] in ds && cs[c] in cs;
    Parties(balances, es, ds[d], cs[c]);
    ReportedOnCents(balances, es);
    StepsOnCents(steps, ds, cs);
    assert OnCents(amount);
    Round2OnCents(amount);
    CentsAboveOneCent(amount);
    StepWithinBalances(steps, ds, cs, k);
  }

  /** `calculateSettlements`: the payments that settle the balances of the
      expenses. They are the greedy schedule's turns above 0.01 over the
      balances `calculateBalances` reports (a schedule that is unique, by
      `GreedyUnique`), each moving the smaller of what is left on either
      side, with the cursors moving forward. Each payment is Sound, and
      there are fewer payments than people. */
  method CalculateSettlements(expenses: seq<Expense>)
    returns (settlements: seq<Settlement>, ghost balances: seq<PersonBalance>, ghost steps: seq<Step>)
    ensures Reports(balances, expenses)
    ensures Greedy(steps, Debtors(balances), Creditors(balances))
    ensures settlements == Emitted(steps, Debtors(balances), Creditors(balances))
    ensures forall k :: 0 <= k < |steps| - 1 ==>
      steps[k].debtor <= steps[k + 1].debtor && steps[k].creditor <= steps[k + 1].creditor
      && (steps[k].debtor < steps[k + 1].debtor || steps[k].creditor < steps[k + 1].creditor)
    ensures forall i :: 0 <= i < |settlements| ==> Sound(settlements[i], expenses)
    ensures settlements == [] || |settlements| < |People(expenses)|
  {
    var reported := CalculateBalances(expenses);
    balances := reported;
    settlements, steps := PlanSettlements(reported);
    EmittedShape(steps, Debtors(balances), Creditors(balances));
    FilterCount(balances);
    forall i | 0 <= i < |settlements| ensures Sound(settlements[i], expenses) {
      EmittedSound(expenses, balances, steps, i);
    }
  }
}
