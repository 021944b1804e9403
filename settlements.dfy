/** `calculateSettlements` of backend/routes/settlements.js: split the
    rounded balances into debtors and creditors (input order, no sorting)
    and match them greedily with two cursors. */
module SettlementPlan {
  import opened Money
  import opened Roster
  import opened ExpenseModel
  import opened Balances

  /** A suggested payment. */
  datatype Settlement = Settlement(from: string, to: string, amount: real)

  /** The working copies of the balances the loop updates in place. */
  method WorkingCopies(debtors: seq<PersonBalance>, creditors: seq<PersonBalance>) returns (debt: array<real>, credit: array<real>)
    requires forall b :: b in debtors ==> b.balance < 0.0
    requires forall b :: b in creditors ==> b.balance > 0.0
    ensures fresh(debt) && fresh(credit) && debt != credit
    ensures LoopInv(debtors, creditors, debt[..], credit[..], [], 0, 0)
    ensures Emitted([], debtors, creditors) == []
  {
    debt := new real[|debtors|](k requires 0 <= k < |debtors| => debtors[k].balance);
    credit := new real[|creditors|](k requires 0 <= k < |creditors| => creditors[k].balance);
    InitialState(debtors, creditors, debt[..], credit[..]);
  }

  /** One turn of the matching loop, emitted or not: the two cursor
      positions and the amount moved between them. */
  datatype Step = Step(debtor: nat, creditor: nat, amount: real)

  /** `balances.filter(b => b.balance < 0)` */
  function Debtors(bs: seq<PersonBalance>): (r: seq<PersonBalance>)
    ensures forall b :: b in r <==> b in bs && b.balance < 0.0
    decreases |bs|
  {
    if bs == [] then []
    else Debtors(bs[..|bs| - 1]) + (if bs[|bs| - 1].balance < 0.0 then [bs[|bs| - 1]] else [])
  }

  /** `balances.filter(b => b.balance > 0)` */
  function Creditors(bs: seq<PersonBalance>): (r: seq<PersonBalance>)
    ensures forall b :: b in r <==> b in bs && b.balance > 0.0
    decreases |bs|
  {
    if bs == [] then []
    else Creditors(bs[..|bs| - 1]) + (if bs[|bs| - 1].balance > 0.0 then [bs[|bs| - 1]] else [])
  }

  predicate InRange(steps: seq<Step>, nd: nat, nc: nat) {
    forall k :: 0 <= k < |steps| ==> steps[k].debtor < nd && steps[k].creditor < nc
  }

  /** Everything debtor p has paid over the steps. */
  function PaidBy(steps: seq<Step>, p: nat): real
    decreases |steps|
  {
    if steps == [] then 0.0
    else PaidBy(steps[..|steps| - 1], p) + (if steps[|steps| - 1].debtor == p then steps[|steps| - 1].amount else 0.0)
  }

  /** Everything creditor q has received over the steps. */
  function ReceivedBy(steps: seq<Step>, q: nat): real
    decreases |steps|
  {
    if steps == [] then 0.0
    else ReceivedBy(steps[..|steps| - 1], q) + (if steps[|steps| - 1].creditor == q then steps[|steps| - 1].amount else 0.0)
  }

  /** What debtor p still owes after the steps. */
  function StillOwes(ds: seq<PersonBalance>, steps: seq<Step>, p: nat): real
    requires p < |ds|
  {
    -ds[p].balance - PaidBy(steps, p)
  }

  /** What creditor q is still owed after the steps. */
  function StillOwed(cs: seq<PersonBalance>, steps: seq<Step>, q: nat): real
    requires q < |cs|
  {
    cs[q].balance - ReceivedBy(steps, q)
  }

  /** The payments the loop pushes: one per step above the 0.01 threshold,
      its amount rounded to cents. */
  function Emitted(steps: seq<Step>, ds: seq<PersonBalance>, cs: seq<PersonBalance>): seq<Settlement>
    requires InRange(steps, |ds|, |cs|)
    decreases |steps|
  {
    if steps == [] then []
    else
      var s := steps[|steps| - 1];
      Emitted(steps[..|steps| - 1], ds, cs)
      + (if s.amount > 0.01 then [Settlement(ds[s.debtor].name, cs[s.creditor].name, Round2(s.amount))] else [])
  }

  /** Step k moves the smaller of what its debtor still owes and what its
      creditor is still owed. */
  ghost predicate MovesMin(steps: seq<Step>, ds: seq<PersonBalance>, cs: seq<PersonBalance>, k: nat)
    requires InRange(steps, |ds|, |cs|) && k < |steps|
  {
    steps[k].amount == Min(StillOwes(ds, steps[..k], steps[k].debtor), StillOwed(cs, steps[..k], steps[k].creditor))
  }

  /** The cursor positions after step k: each advances once what is left
      on its side is below 0.01. */
  function NextDebtor(steps: seq<Step>, ds: seq<PersonBalance>, k: nat): nat
    requires k < |steps| && steps[k].debtor < |ds|
  {
    steps[k].debtor + (if StillOwes(ds, steps[..k + 1], steps[k].debtor) < 0.01 then 1 else 0)
  }

  function NextCreditor(steps: seq<Step>, cs: seq<PersonBalance>, k: nat): nat
    requires k < |steps| && steps[k].creditor < |cs|
  {
    steps[k].creditor + (if StillOwed(cs, steps[..k + 1], steps[k].creditor) < 0.01 then 1 else 0)
  }

  /** The whole greedy schedule: start at (0, 0), every step moves the
      minimum, the next step sits at the advanced cursors, and the loop
      stops as soon as one cursor has run off its list. */
  ghost predicate Greedy(steps: seq<Step>, ds: seq<PersonBalance>, cs: seq<PersonBalance>)
  {
    && InRange(steps, |ds|, |cs|)
    && (steps == [] ==> |ds| == 0 || |cs| == 0)
    && (steps != [] ==> steps[0].debtor == 0 && steps[0].creditor == 0)
    && (forall k :: 0 <= k < |steps| ==> MovesMin(steps, ds, cs, k))
    && (forall k :: 0 <= k < |steps| - 1 ==>
          steps[k + 1].debtor == NextDebtor(steps, ds, k) && steps[k + 1].creditor == NextCreditor(steps, cs, k))
    && (steps != [] ==>
          NextDebtor(steps, ds, |steps| - 1) == |ds| || NextCreditor(steps, cs, |steps| - 1) == |cs|)
  }

  lemma PrefixOfSnoc(steps: seq<Step>, s: Step, k: nat)
    requires k <= |steps|
    ensures (steps + [s])[..k] == steps[..k]
  {
  }

  lemma PaidSnoc(steps: seq<Step>, s: Step, p: nat)
    ensures PaidBy(steps + [s], p) == PaidBy(steps, p) + (if s.debtor == p then s.amount else 0.0)
    ensures ReceivedBy(steps + [s], p) == ReceivedBy(steps, p) + (if s.creditor == p then s.amount else 0.0)
  {
    assert (steps + [s])[..|steps|] == steps;
  }

  lemma EmittedSnoc(steps: seq<Step>, s: Step, ds: seq<PersonBalance>, cs: seq<PersonBalance>)
    requires InRange(steps, |ds|, |cs|) && s.debtor < |ds| && s.creditor < |cs|
    ensures InRange(steps + [s], |ds|, |cs|)
    ensures Emitted(steps + [s], ds, cs) == Emitted(steps, ds, cs)
      + (if s.amount > 0.01 then [Settlement(ds[s.debtor].name, cs[s.creditor].name, Round2(s.amount))] else [])
  {
    assert (steps + [s])[..|steps|] == steps;
  }

  // ---------------------------------------------------------------------
  // The loop invariant, in three parts, on the arrays' contents.
  // ---------------------------------------------------------------------

  /** The working arrays hold the original balances minus what has moved. */
  ghost predicate Books(ds: seq<PersonBalance>, cs: seq<PersonBalance>, debt: seq<real>, credit: seq<real>, steps: seq<Step>) {
    && |debt| == |ds| && |credit| == |cs| && InRange(steps, |ds|, |cs|)
    && (forall p :: 0 <= p < |ds| ==> debt[p] == -StillOwes(ds, steps, p) && debt[p] <= 0.0)
    && (forall q :: 0 <= q < |cs| ==> credit[q] == StillOwed(cs, steps, q) && credit[q] >= 0.0)
  }

  /** Entries behind a cursor are below a cent; entries at or after it are
      still open. */
  ghost predicate Cursors(debt: seq<real>, credit: seq<real>, i: nat, j: nat) {
    && i <= |debt| && j <= |credit|
    && (forall p :: 0 <= p < i ==> -debt[p] < 0.01)
    && (forall q :: 0 <= q < j ==> credit[q] < 0.01)
    && (forall p :: i <= p < |debt| ==> debt[p] < 0.0)
    && (forall q :: j <= q < |credit| ==> credit[q] > 0.0)
  }

  /** The steps so far follow the greedy schedule and lead to (i, j). */
  ghost predicate Schedule(ds: seq<PersonBalance>, cs: seq<PersonBalance>, steps: seq<Step>, i: nat, j: nat) {
    && InRange(steps, |ds|, |cs|)
    && (forall k :: 0 <= k < |steps| ==> steps[k].amount > 0.0 && MovesMin(steps, ds, cs, k))
    && (forall k :: 0 <= k < |steps| - 1 ==>
          steps[k + 1].debtor == NextDebtor(steps, ds, k) && steps[k + 1].creditor == NextCreditor(steps, cs, k))
    && (steps == [] ==> i == 0 && j == 0)
    && (steps != [] ==> steps[0].debtor == 0 && steps[0].creditor == 0)
    && (steps != [] ==> i == NextDebtor(steps, ds, |steps| - 1) && j == NextCreditor(steps, cs, |steps| - 1))
    && |steps| <= i + j
    && (i == |ds| && j == |cs| && steps != [] ==> |steps| < i + j)
  }

  lemma BooksStep(ds: seq<PersonBalance>, cs: seq<PersonBalance>, debt: seq<real>, credit: seq<real>,
                  steps: seq<Step>, i: nat, j: nat, amount: real)
    requires Books(ds, cs, debt, credit, steps) && i < |ds| && j < |cs|
    requires amount == Min(-debt[i], credit[j])
    ensures Books(ds, cs, debt[i := debt[i] + amount], credit[j := credit[j] - amount], steps + [Step(i, j, amount)])
  {
    var s := Step(i, j, amount);
    var steps', debt', credit' := steps + [s], debt[i := debt[i] + amount], credit[j := credit[j] - amount];
    assert InRange(steps', |ds|, |cs|) by {
      assert forall k :: 0 <= k < |steps| ==> steps'[k] == steps[k];
    }
    forall p | 0 <= p < |ds| ensures debt'[p] == -StillOwes(ds, steps', p) && debt'[p] <= 0.0 {
      PaidSnoc(steps, s, p);
    }
    forall q | 0 <= q < |cs| ensures credit'[q] == StillOwed(cs, steps', q) && credit'[q] >= 0.0 {
      PaidSnoc(steps, s, q);
    }
  }

  lemma CursorsStep(debt: seq<real>, credit: seq<real>, i: nat, j: nat, amount: real, i': nat, j': nat)
    requires Cursors(debt, credit, i, j) && i < |debt| && j < |credit|
    requires forall p :: 0 <= p < |debt| ==> debt[p] <= 0.0
    requires amount == Min(-debt[i], credit[j])
    requires i' == if Abs(debt[i] + amount) < 0.01 then i + 1 else i
    requires j' == if Abs(credit[j] - amount) < 0.01 then j + 1 else j
    ensures Cursors(debt[i := debt[i] + amount], credit[j := credit[j] - amount], i', j')
    ensures i' + j' > i + j
  {
  }

  /** Appending a step leaves the earlier prefixes alone. */
  lemma PrefixesOfSnoc(steps: seq<Step>, s: Step)
    ensures forall k :: 0 <= k <= |steps| ==> (steps + [s])[..k] == steps[..k]
    ensures (steps + [s])[..|steps| + 1] == steps + [s]
  {
    forall k | 0 <= k <= |steps| ensures (steps + [s])[..k] == steps[..k] {
      PrefixOfSnoc(steps, s, k);
    }
  }

  /** The new step moves the minimum, and the earlier ones still do. */
  lemma MovesMinStep(ds: seq<PersonBalance>, cs: seq<PersonBalance>, debt: seq<real>, credit: seq<real>,
                     steps: seq<Step>, i: nat, j: nat, amount: real)
    requires Books(ds, cs, debt, credit, steps) && i < |ds| && j < |cs|
    requires forall k :: 0 <= k < |steps| ==> steps[k].amount > 0.0 && MovesMin(steps, ds, cs, k)
    requires debt[i] < 0.0 && credit[j] > 0.0
    requires amount == Min(-debt[i], credit[j])
    ensures InRange(steps + [Step(i, j, amount)], |ds|, |cs|)
    ensures forall k :: 0 <= k < |steps| + 1 ==>
      (steps + [Step(i, j, amount)])[k].amount > 0.0 && MovesMin(steps + [Step(i, j, amount)], ds, cs, k)
  {
    var steps' := steps + [Step(i, j, amount)];
    var n := |steps|;
    PrefixesOfSnoc(steps, Step(i, j, amount));
    assert steps'[..n] == steps;
    assert MovesMin(steps', ds, cs, n);
    forall k | 0 <= k < n ensures MovesMin(steps', ds, cs, k) {
      assert MovesMin(steps, ds, cs, k);
      assert steps'[k] == steps[k];
    }
  }

  /** Appending a step leaves the Next cursors of the earlier steps alone. */
  lemma NextUnchanged(ds: seq<PersonBalance>, cs: seq<PersonBalance>, steps: seq<Step>, s: Step, k: nat)
    requires k < |steps| && steps[k].debtor < |ds| && steps[k].creditor < |cs|
    ensures NextDebtor(steps + [s], ds, k) == NextDebtor(steps, ds, k)
    ensures NextCreditor(steps + [s], cs, k) == NextCreditor(steps, cs, k)
  {
    PrefixOfSnoc(steps, s, k + 1);
    assert (steps + [s])[k] == steps[k];
  }

  /** The cursors after the new step are its Next cursors, and the earlier
      steps' Next cursors are unchanged. */
  lemma NextStep(ds: seq<PersonBalance>, cs: seq<PersonBalance>, debt: seq<real>, credit: seq<real>,
                 steps: seq<Step>, i: nat, j: nat, amount: real, i': nat, j': nat)
    requires Books(ds, cs, debt, credit, steps) && i < |ds| && j < |cs|
    requires forall k :: 0 <= k < |steps| - 1 ==>
      steps[k + 1].debtor == NextDebtor(steps, ds, k) && steps[k + 1].creditor == NextCreditor(steps, cs, k)
    requires steps != [] ==> i == NextDebtor(steps, ds, |steps| - 1) && j == NextCreditor(steps, cs, |steps| - 1)
    requires debt[i] + amount <= 0.0 && credit[j] - amount >= 0.0
    requires i' == if Abs(debt[i] + amount) < 0.01 then i + 1 else i
    requires j' == if Abs(credit[j] - amount) < 0.01 then j + 1 else j
    ensures InRange(steps + [Step(i, j, amount)], |ds|, |cs|)
    ensures forall k :: 0 <= k < |steps| ==>
      (steps + [Step(i, j, amount)])[k + 1].debtor == NextDebtor(steps + [Step(i, j, amount)], ds, k)
      && (steps + [Step(i, j, amount)])[k + 1].creditor == NextCreditor(steps + [Step(i, j, amount)], cs, k)
    ensures NextDebtor(steps + [Step(i, j, amount)], ds, |steps|) == i'
    ensures NextCreditor(steps + [Step(i, j, amount)], cs, |steps|) == j'
  {
    var s := Step(i, j, amount);
    var steps' := steps + [s];
    var n := |steps|;
    assert steps'[..n + 1] == steps';
    assert forall k :: 0 <= k < n ==> steps'[k] == steps[k];
    PaidSnoc(steps, s, i);
    PaidSnoc(steps, s, j);
    assert StillOwes(ds, steps'[..n + 1], i) == -(debt[i] + amount);
    assert StillOwed(cs, steps'[..n + 1], j) == credit[j] - amount;
    forall k | 0 <= k < n
      ensures steps'[k + 1].debtor == NextDebtor(steps', ds, k) && steps'[k + 1].creditor == NextCreditor(steps', cs, k)
    {
      NextUnchanged(ds, cs, steps, s, k);
      if k < n - 1 {
        assert steps'[k + 1] == steps[k + 1];
      }
    }
  }

  lemma ScheduleStep(ds: seq<PersonBalance>, cs: seq<PersonBalance>, debt: seq<real>, credit: seq<real>,
                     steps: seq<Step>, i: nat, j: nat, amount: real, i': nat, j': nat)
    requires Books(ds, cs, debt, credit, steps) && Cursors(debt, credit, i, j)
    requires Schedule(ds, cs, steps, i, j) && i < |ds| && j < |cs|
    requires amount == Min(-debt[i], credit[j])
    requires i' == if Abs(debt[i] + amount) < 0.01 then i + 1 else i
    requires j' == if Abs(credit[j] - amount) < 0.01 then j + 1 else j
    ensures Schedule(ds, cs, steps + [Step(i, j, amount)], i', j')
  {
    MovesMinStep(ds, cs, debt, credit, steps, i, j, amount);
    NextStep(ds, cs, debt, credit, steps, i, j, amount, i', j');
    var steps' := steps + [Step(i, j, amount)];
    assert forall k :: 0 <= k < |steps'| - 1 ==>
      steps'[k + 1].debtor == NextDebtor(steps', ds, k) && steps'[k + 1].creditor == NextCreditor(steps', cs, k);
    assert i' + j' > i + j;
  }

  /** Under the greedy schedule the cursors move forward, at least one of
      them on every step. */
  lemma GreedyAdvances(steps: seq<Step>, ds: seq<PersonBalance>, cs: seq<PersonBalance>, k: nat)
    requires Greedy(steps, ds, cs) && k < |steps| - 1
    ensures steps[k].debtor <= steps[k + 1].debtor && steps[k].creditor <= steps[k + 1].creditor
    ensures steps[k].debtor < steps[k + 1].debtor || steps[k].creditor < steps[k + 1].creditor
  {
    var d, c := steps[k].debtor, steps[k].creditor;
    assert MovesMin(steps, ds, cs, k);
    assert steps[..k + 1] == steps[..k] + [steps[k]];
    PaidSnoc(steps[..k], steps[k], d);
    PaidSnoc(steps[..k], steps[k], c);
    assert StillOwes(ds, steps[..k + 1], d) == StillOwes(ds, steps[..k], d) - steps[k].amount;
    assert StillOwed(cs, steps[..k + 1], c) == StillOwed(cs, steps[..k], c) - steps[k].amount;
    assert steps[k + 1].debtor == NextDebtor(steps, ds, k) && steps[k + 1].creditor == NextCreditor(steps, cs, k);
  }

  /** Two greedy schedules over the same debtors and creditors agree on
      every turn they both have: each turn is fixed by the turns before it. */
  lemma {:induction false} GreedyPrefixes(s1: seq<Step>, s2: seq<Step>, ds: seq<PersonBalance>, cs: seq<PersonBalance>, n: nat)
    requires Greedy(s1, ds, cs) && Greedy(s2, ds, cs) && n <= |s1| && n <= |s2|
    ensures s1[..n] == s2[..n]
  {
    if n > 0 {
      var m := n - 1;
      GreedyPrefixes(s1, s2, ds, cs, m);
      if m > 0 {
        assert s1[m - 1] == s1[..m][m - 1] == s2[..m][m - 1] == s2[m - 1];
        assert s1[..m - 1 + 1] == s2[..m - 1 + 1];
        assert s1[m].debtor == NextDebtor(s1, ds, m - 1) == NextDebtor(s2, ds, m - 1) == s2[m].debtor;
        assert s1[m].creditor == NextCreditor(s1, cs, m - 1) == NextCreditor(s2, cs, m - 1) == s2[m].creditor;
      }
      assert MovesMin(s1, ds, cs, m) && MovesMin(s2, ds, cs, m);
      assert s1[m] == s2[m];
      assert s1[..n] == s1[..m] + [s1[m]];
      assert s2[..n] == s2[..m] + [s2[m]];
    }
  }

  /** Under the greedy schedule the loop does not stop early: a schedule
      with a turn needs a debtor and a creditor, and every turn but the last
      leaves both cursors on their lists. */
  lemma GreedyContinues(s: seq<Step>, ds: seq<PersonBalance>, cs: seq<PersonBalance>)
    requires Greedy(s, ds, cs)
    ensures s != [] ==> 0 < |ds| && 0 < |cs|
    ensures forall k :: 0 <= k < |s| - 1 ==> NextDebtor(s, ds, k) < |ds| && NextCreditor(s, cs, k) < |cs|
  {
    forall k | 0 <= k < |s| - 1 ensures NextDebtor(s, ds, k) < |ds| && NextCreditor(s, cs, k) < |cs| {
      assert s[k + 1].debtor < |ds| && s[k + 1].creditor < |cs|;
    }
  }

  /** A shorter greedy schedule is never a proper prefix of a longer one:
      the last turn of a schedule runs one cursor off its list. */
  lemma GreedyNotShorter(s1: seq<Step>, s2: seq<Step>, ds: seq<PersonBalance>, cs: seq<PersonBalance>)
    requires Greedy(s1, ds, cs) && Greedy(s2, ds, cs) && |s1| <= |s2|
    ensures s1 == s2
  {
    var n := |s1|;
    GreedyPrefixes(s1, s2, ds, cs, n);
    GreedyContinues(s2, ds, cs);
    if n > 0 {
      assert s2[..n - 1 + 1] == s1[..n - 1 + 1] && s2[n - 1] == s1[n - 1];
      assert NextDebtor(s2, ds, n - 1) == NextDebtor(s1, ds, n - 1);
      assert NextCreditor(s2, cs, n - 1) == NextCreditor(s1, cs, n - 1);
    }
    assert s1 == s2[..n];
  }

  /** There is only one greedy schedule for a list of debtors and creditors,
      so the loop's payments are fixed by its input. */
  lemma GreedyUnique(s1: seq<Step>, s2: seq<Step>, ds: seq<PersonBalance>, cs: seq<PersonBalance>)
    requires Greedy(s1, ds, cs) && Greedy(s2, ds, cs)
    ensures s1 == s2
  {
    if |s1| <= |s2| {
      GreedyNotShorter(s1, s2, ds, cs);
    } else {
      GreedyNotShorter(s2, s1, ds, cs);
    }
  }

  /** Before the first turn: the arrays are the balances and nothing moved. */
  lemma InitialState(ds: seq<PersonBalance>, cs: seq<PersonBalance>, debt: seq<real>, credit: seq<real>)
    requires forall b :: b in ds ==> b.balance < 0.0
    requires forall b :: b in cs ==> b.balance > 0.0
    requires |debt| == |ds| && (forall p :: 0 <= p < |ds| ==> debt[p] == ds[p].balance)
    requires |credit| == |cs| && (forall q :: 0 <= q < |cs| ==> credit[q] == cs[q].balance)
    ensures LoopInv(ds, cs, debt, credit, [], 0, 0)
    ensures Emitted([], ds, cs) == []
  {
    forall p | 0 <= p < |ds| ensures debt[p] < 0.0 {
      assert ds[p] in ds;
    }
    forall q | 0 <= q < |cs| ensures credit[q] > 0.0 {
      assert cs[q] in cs;
    }
  }

  /** When the loop stops, the invariant gives the whole contract. */
  lemma FinalState(ds: seq<PersonBalance>, cs: seq<PersonBalance>, debt: seq<real>, credit: seq<real>,
                   steps: seq<Step>, i: nat, j: nat)
    requires LoopInv(ds, cs, debt, credit, steps, i, j)
    requires i == |ds| || j == |cs|
    ensures Greedy(steps, ds, cs)
    ensures forall k :: 0 <= k < |steps| ==> steps[k].amount > 0.0
    ensures forall k :: 0 <= k < |steps| - 1 ==>
      steps[k].debtor <= steps[k + 1].debtor && steps[k].creditor <= steps[k + 1].creditor
      && (steps[k].debtor < steps[k + 1].debtor || steps[k].creditor < steps[k + 1].creditor)
    ensures steps == [] || |steps| < |ds| + |cs|
    ensures forall p :: 0 <= p < |ds| ==> 0.0 <= StillOwes(ds, steps, p)
    ensures forall q :: 0 <= q < |cs| ==> 0.0 <= StillOwed(cs, steps, q)
    ensures (forall p :: 0 <= p < |ds| ==> StillOwes(ds, steps, p) < 0.01)
         || (forall q :: 0 <= q < |cs| ==> StillOwed(cs, steps, q) < 0.01)
  {
    if steps != [] {
      var n := |steps| - 1;
      assert steps[n].debtor < |ds| && steps[n].creditor < |cs|;
      assert i <= |ds| && j <= |cs|;
      if i == |ds| && j == |cs| {
      } else if i == |ds| {
        assert j < |cs|;
      } else {
        assert i < |ds|;
      }
    }
    forall k | 0 <= k < |steps| ensures MovesMin(steps, ds, cs, k) {
    }
    forall k | 0 <= k < |steps| - 1
      ensures steps[k].debtor <= steps[k + 1].debtor && steps[k].creditor <= steps[k + 1].creditor
      ensures steps[k].debtor < steps[k + 1].debtor || steps[k].creditor < steps[k + 1].creditor
    {
      GreedyAdvances(steps, ds, cs, k);
    }
  }

  /** The loop invariant of `calculateSettlements`. */
  ghost predicate LoopInv(ds: seq<PersonBalance>, cs: seq<PersonBalance>, debt: seq<real>, credit: seq<real>,
                          steps: seq<Step>, i: nat, j: nat)
  {
    Books(ds, cs, debt, credit, steps) && Cursors(debt, credit, i, j) && Schedule(ds, cs, steps, i, j)
  }

  /** One turn of the loop keeps the invariant, extends the payments by the
      step when it is above the threshold, and advances a cursor. `debt'`
      and `credit'` are the arrays after the transfer and `i'` and `j'` the
      cursors after the two checks. */
  lemma LoopStep(ds: seq<PersonBalance>, cs: seq<PersonBalance>, debt: seq<real>, credit: seq<real>,
                 steps: seq<Step>, i: nat, j: nat, amount: real,
                 debt': seq<real>, credit': seq<real>, i': nat, j': nat)
    requires LoopInv(ds, cs, debt, credit, steps, i, j) && i < |ds| && j < |cs|
    requires amount == Min(Abs(debt[i]), credit[j])
    requires debt' == debt[i := debt[i] + amount] && credit' == credit[j := credit[j] - amount]
    requires i' == if Abs(debt'[i]) < 0.01 then i + 1 else i
    requires j' == if Abs(credit'[j]) < 0.01 then j + 1 else j
    ensures LoopInv(ds, cs, debt', credit', steps + [Step(i, j, amount)], i', j')
    ensures InRange(steps + [Step(i, j, amount)], |ds|, |cs|)
    ensures Emitted(steps + [Step(i, j, amount)], ds, cs) == Emitted(steps, ds, cs)
      + (if amount > 0.01 then [Settlement(ds[i].name, cs[j].name, Round2(amount))] else [])
    ensures i' + j' > i + j
  {
    assert amount == Min(-debt[i], credit[j]);
    BooksStep(ds, cs, debt, credit, steps, i, j, amount);
    CursorsStep(debt, credit, i, j, amount, i', j');
    ScheduleStep(ds, cs, debt, credit, steps, i, j, amount, i', j');
    EmittedSnoc(steps, Step(i, j, amount), ds, cs);
  }

  /** `debtors[i].balance += amount; creditors[j].balance -= amount;` */
  method Transfer(debt: array<real>, credit: array<real>, i: nat, j: nat, amount: real)
    requires debt != credit && i < debt.Length && j < credit.Length
    modifies debt, credit
    ensures debt[..] == old(debt[..])[i := old(debt[i]) + amount]
    ensures credit[..] == old(credit[..])[j := old(credit[j]) - amount]
  {
    debt[i] := debt[i] + amount;
    credit[j] := credit[j] - amount;
  }

  /** One turn of the matching loop: move the smaller of the two open
      amounts between the debtor at `i` and the creditor at `j`, push a
      payment when it is above 0.01, and advance each cursor whose entry
      has dropped below 0.01. */
  method Turn(debtors: seq<PersonBalance>, creditors: seq<PersonBalance>, debt: array<real>, credit: array<real>,
              i: nat, j: nat, settlements: seq<Settlement>, ghost steps: seq<Step>)
    returns (i': nat, j': nat, settlements': seq<Settlement>, ghost steps': seq<Step>)
    requires debt != credit && i < |debtors| && j < |creditors|
    requires LoopInv(debtors, creditors, debt[..], credit[..], steps, i, j)
    requires settlements == Emitted(steps, debtors, creditors)
    modifies debt, credit
    ensures LoopInv(debtors, creditors, debt[..], credit[..], steps', i', j')
    ensures settlements' == Emitted(steps', debtors, creditors)
    ensures steps' == steps + [Step(i, j, Min(Abs(old(debt[i])), old(credit[j])))]
    ensures debt[..] == old(debt[..])[i := old(debt[i]) + steps'[|steps|].amount]
    ensures credit[..] == old(credit[..])[j := old(credit[j]) - steps'[|steps|].amount]
    ensures i' == if Abs(debt[i]) < 0.01 then i + 1 else i
    ensures j' == if Abs(credit[j]) < 0.01 then j + 1 else j
    ensures i' + j' > i + j
  {
    var debtAmount := Abs(debt[i]);
    var creditAmount := credit[j];
    var amount := Min(debtAmount, creditAmount);

    settlements' := settlements;
    if amount > 0.01 {
      settlements' := settlements + [Settlement(debtors[i].name, creditors[j].name, Round2(amount))];
    }

    ghost var dv, cv := debt[..], credit[..];
    Transfer(debt, credit, i, j, amount);
    i', j' := i, j;
    if Abs(debt[i]) < 0.01 {
      i' := i + 1;
    }
    if Abs(credit[j]) < 0.01 {
      j' := j + 1;
    }
    LoopStep(debtors, creditors, dv, cv, steps, i, j, amount, debt[..], credit[..], i', j');
    steps' := steps + [Step(i, j, amount)];
  }

  /** The matching loop of `calculateSettlements` on the debtors and the
      creditors. The ghost `steps` records every turn of the loop; the
      payments are the turns above the threshold. Besides the greedy
      schedule itself: no debtor pays more than it owes and no creditor
      receives more than it is owed, the cursors only move forward with at
      least one advancing per turn (so at most |debtors| + |creditors| - 1
      turns), and when the loop stops one whole side is settled to within a
      cent. */
  method MatchGreedily(debtors: seq<PersonBalance>, creditors: seq<PersonBalance>)
    returns (settlements: seq<Settlement>, ghost steps: seq<Step>)
    requires forall b :: b in debtors ==> b.balance < 0.0
    requires forall b :: b in creditors ==> b.balance > 0.0
    ensures Greedy(steps, debtors, creditors)
    ensures settlements == Emitted(steps, debtors, creditors)
    ensures forall k :: 0 <= k < |steps| ==> steps[k].amount > 0.0
    ensures forall k :: 0 <= k < |steps| - 1 ==>
      steps[k].debtor <= steps[k + 1].debtor && steps[k].creditor <= steps[k + 1].creditor
      && (steps[k].debtor < steps[k + 1].debtor || steps[k].creditor < steps[k + 1].creditor)
    ensures steps == [] || |steps| < |debtors| + |creditors|
    ensures forall p :: 0 <= p < |debtors| ==> 0.0 <= StillOwes(debtors, steps, p)
    ensures forall q :: 0 <= q < |creditors| ==> 0.0 <= StillOwed(creditors, steps, q)
    ensures (forall p :: 0 <= p < |debtors| ==> StillOwes(debtors, steps, p) < 0.01)
         || (forall q :: 0 <= q < |creditors| ==> StillOwed(creditors, steps, q) < 0.01)
  {
    var debt, credit := WorkingCopies(debtors, creditors);
    settlements, steps := [], [];

    var i: nat, j: nat := 0, 0;
    while i < |debtors| && j < |creditors|
      invariant LoopInv(debtors, creditors, debt[..], credit[..], steps, i, j)
      invariant settlements == Emitted(steps, debtors, creditors)
      decreases |debtors| - i + |creditors| - j
    {
      i, j, settlements, steps := Turn(debtors, creditors, debt, credit, i, j, settlements, steps);
    }
    FinalState(debtors, creditors, debt[..], credit[..], steps, i, j);
  }

  /** `calculateSettlements` after the balances: split them into debtors
      (balance below zero) and creditors (above zero), in input order
      without sorting, and match them greedily. */
  method PlanSettlements(balances: seq<PersonBalance>) returns (settlements: seq<Settlement>, ghost steps: seq<Step>)
    ensures Greedy(steps, Debtors(balances), Creditors(balances))
    ensures settlements == Emitted(steps, Debtors(balances), Creditors(balances))
    ensures forall k :: 0 <= k < |steps| ==> steps[k].amount > 0.0
    ensures forall k :: 0 <= k < |steps| - 1 ==>
      steps[k].debtor <= steps[k + 1].debtor && steps[k].creditor <= steps[k + 1].creditor
      && (steps[k].debtor < steps[k + 1].debtor || steps[k].creditor < steps[k + 1].creditor)
    ensures steps == [] || |steps| < |Debtors(balances)| + |Creditors(balances)|
    ensures forall p :: 0 <= p < |Debtors(balances)| ==> 0.0 <= StillOwes(Debtors(balances), steps, p)
    ensures forall q :: 0 <= q < |Creditors(balances)| ==> 0.0 <= StillOwed(Creditors(balances), steps, q)
    ensures (forall p :: 0 <= p < |Debtors(balances)| ==> StillOwes(Debtors(balances), steps, p) < 0.01)
         || (forall q :: 0 <= q < |Creditors(balances)| ==> StillOwed(Creditors(balances), steps, q) < 0.01)
  {
    var debtors := Debtors(balances);
    var creditors := Creditors(balances);
    settlements, steps := MatchGreedily(debtors, creditors);
  }

  /** A worked example, in input order without sorting: A is owed 60, B
      and C owe 30 each. The debtors are B then C, the only creditor is A. */
  lemma ExampleFilters()
    ensures Debtors([PersonBalance("A", 60.0, Owed), PersonBalance("B", -30.0, Owes), PersonBalance("C", -30.0, Owes)])
         == [PersonBalance("B", -30.0, Owes), PersonBalance("C", -30.0, Owes)]
    ensures Creditors([PersonBalance("A", 60.0, Owed), PersonBalance("B", -30.0, Owes), PersonBalance("C", -30.0, Owes)])
         == [PersonBalance("A", 60.0, Owed)]
  {
    var a, b, c := PersonBalance("A", 60.0, Owed), PersonBalance("B", -30.0, Owes), PersonBalance("C", -30.0, Owes);
    var bs := [a, b, c];
    assert bs[..2] == [a, b] && [a, b][..1] == [a] && [a][..0] == [];
    assert Debtors([a]) == [] && Creditors([a]) == [a];
    assert Debtors([a, b]) == [b] && Creditors([a, b]) == [a];
  }

  /** On the example's debtors and creditors the greedy schedule is: B pays
      A 30 (B is settled, A still owed 30), then C pays A 30, which settles
      everybody. */
  lemma ExampleSchedule()
    ensures Greedy([Step(0, 0, 30.0), Step(1, 0, 30.0)],
                   [PersonBalance("B", -30.0, Owes), PersonBalance("C", -30.0, Owes)], [PersonBalance("A", 60.0, Owed)])
    ensures Emitted([Step(0, 0, 30.0), Step(1, 0, 30.0)],
                    [PersonBalance("B", -30.0, Owes), PersonBalance("C", -30.0, Owes)], [PersonBalance("A", 60.0, Owed)])
         == [Settlement("B", "A", 30.0), Settlement("C", "A", 30.0)]
  {
    var ds, cs := [PersonBalance("B", -30.0, Owes), PersonBalance("C", -30.0, Owes)], [PersonBalance("A", 60.0, Owed)];
    var first := [Step(0, 0, 30.0)];
    var plan := first + [Step(1, 0, 30.0)];
    assert plan[..0] == [] && plan[..1] == first && plan[..2] == plan && first[..0] == [];
    assert PaidBy(first, 0) == 30.0 && PaidBy(first, 1) == 0.0 && ReceivedBy(first, 0) == 30.0;
    assert PaidBy(plan, 1) == 30.0;
    assert MovesMin(plan, ds, cs, 0) && MovesMin(plan, ds, cs, 1);
    assert NextDebtor(plan, ds, 0) == 1 && NextCreditor(plan, cs, 0) == 0;
    assert NextDebtor(plan, ds, 1) == 2;
    Round2OnCents(30.0);
    assert Emitted(first, ds, cs) == [Settlement("B", "A", 30.0)];
  }

  /** So whatever schedule the loop follows on the example, its payments
      are B → A 30 and then C → A 30: these are what `PlanSettlements`
      returns for those balances. */
  lemma MatchingExample(balances: seq<PersonBalance>, steps: seq<Step>)
    requires balances == [PersonBalance("A", 60.0, Owed), PersonBalance("B", -30.0, Owes), PersonBalance("C", -30.0, Owes)]
    requires Greedy(steps, Debtors(balances), Creditors(balances))
    ensures Emitted(steps, Debtors(balances), Creditors(balances)) == [Settlement("B", "A", 30.0), Settlement("C", "A", 30.0)]
  {
    ExampleFilters();
    ExampleSchedule();
    GreedyUnique(steps, [Step(0, 0, 30.0), Step(1, 0, 30.0)], Debtors(balances), Creditors(balances));
  }
}
