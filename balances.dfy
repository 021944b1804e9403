/** The balance engine of backend/routes/settlements.js: `calculateBalances`
    folds the expense list into a running table from person to amount, and
    `getAllPeople` lists every name once in first-seen order. */
module Balances {
  import opened Money
  import opened Roster
  import opened ExpenseModel

  datatype Status = Owed | Owes | Settled

  /** One entry of the `calculateBalances` result. */
  datatype PersonBalance = PersonBalance(name: string, balance: real, status: Status)

  /** `balance > 0 ? 'owed' : balance < 0 ? 'owes' : 'settled'` */
  function StatusOf(x: real): Status {
    if x > 0.0 then Owed else if x < 0.0 then Owes else Settled
  }

  /** What one participant is debited: `percentage` and `exact` literally,
      every other share type as an equal split. The `count > 0` guard is the
      source's; inside the participant loop it always holds. */
  function Debit(amount: real, p: Participant, count: nat): real {
    if p.shareType == "percentage" then amount * p.share / 100.0
    else if p.shareType == "exact" then p.share
    else if count > 0 then amount / count as real else amount
  }

  // ---------------------------------------------------------------------
  // Reference definitions: who appears, and what each expense does to whom.
  // ---------------------------------------------------------------------

  /** The participants' names, in order. */
  function ParticipantNames(e: Expense): seq<string> {
    seq(|e.participants|, k requires 0 <= k < |e.participants| => e.participants[k].name)
  }

  /** The names an expense mentions, in the order the engine meets them. */
  function ExpenseNames(e: Expense): seq<string> {
    [e.paidBy] + ParticipantNames(e)
  }

  /** Every name the expenses mention, repeats included, in order. */
  function AllNames(es: seq<Expense>): seq<string>
    decreases |es|
  {
    if es == [] then [] else AllNames(es[..|es| - 1]) + ExpenseNames(es[|es| - 1])
  }

  /** The people: every payer and participant, once each, first-seen order. */
  function People(es: seq<Expense>): seq<string> {
    Dedup(AllNames(es))
  }

  /** Total debited to x by the first k participants of e. */
  function DebitsTo(x: string, e: Expense, k: nat): real
    requires k <= |e.participants|
  {
    if k == 0 then 0.0
    else DebitsTo(x, e, k - 1)
         + (if e.participants[k - 1].name == x then Debit(e.amount, e.participants[k - 1], |e.participants|) else 0.0)
  }

  /** What one expense adds to x's balance: the payer is credited the
      amount, each participant debited its share, and an expense with no
      participants debits the payer back. */
  function Contribution(x: string, e: Expense): real {
    (if x == e.paidBy then e.amount else 0.0)
    - DebitsTo(x, e, |e.participants|)
    - (if |e.participants| == 0 && x == e.paidBy then e.amount else 0.0)
  }

  /** x's unrounded net balance over a list of expenses. */
  function Net(x: string, es: seq<Expense>): real
    decreases |es|
  {
    if es == [] then 0.0 else Net(x, es[..|es| - 1]) + Contribution(x, es[|es| - 1])
  }

  // ---------------------------------------------------------------------
  // The running table the source mutates, as a value.
  // ---------------------------------------------------------------------

  /** The `balances` object: its keys in insertion order and their values. */
  datatype Ledger = Ledger(names: seq<string>, running: map<string, real>)

  /** The listed names are exactly the keys of the map. */
  ghost predicate KeysListed(l: Ledger) {
    forall x :: x in l.running <==> x in l.names
  }

  /** The keys are listed, each once. */
  ghost predicate WellFormed(l: Ledger) {
    NoDuplicates(l.names) && KeysListed(l)
  }

  /** The value of a key, 0 for a key not yet present. */
  function Val(l: Ledger, x: string): real {
    if x in l.running then l.running[x] else 0.0
  }

  /** `if (!balances[x]) balances[x] = 0`: a new key starts at 0 and goes
      last; a present key keeps its place (and a present 0 stays 0). */
  function Touch(l: Ledger, x: string): Ledger {
    if x in l.running then l else Ledger(l.names + [x], l.running[x := 0.0])
  }

  function Add(l: Ledger, x: string, a: real): Ledger
    requires x in l.running
  {
    Ledger(l.names, l.running[x := l.running[x] + a])
  }

  /** The participant loop after its first k iterations. */
  function ApplyParticipants(l: Ledger, e: Expense, k: nat): Ledger
    requires k <= |e.participants|
  {
    if k == 0 then l
    else
      var p := e.participants[k - 1];
      Add(Touch(ApplyParticipants(l, e, k - 1), p.name), p.name, -Debit(e.amount, p, |e.participants|))
  }

  /** One turn of the outer loop. */
  function ApplyExpense(l: Ledger, e: Expense): Ledger {
    var paid := Add(Touch(l, e.paidBy), e.paidBy, e.amount);
    var shared := ApplyParticipants(paid, e, |e.participants|);
    if |e.participants| == 0 then Add(shared, e.paidBy, -e.amount) else shared
  }

  /** The table after the outer loop has visited every expense. */
  function Fold(es: seq<Expense>): Ledger
    decreases |es|
  {
    if es == [] then Ledger([], map[]) else ApplyExpense(Fold(es[..|es| - 1]), es[|es| - 1])
  }

  lemma TouchEffect(l: Ledger, x: string)
    requires WellFormed(l)
    ensures WellFormed(Touch(l, x)) && x in Touch(l, x).running
    ensures Touch(l, x).names == Insert(l.names, x)
    ensures forall y :: Val(Touch(l, x), y) == Val(l, y)
  {
  }

  /** Initialising a key and then adding to it: the key is listed (at the
      end if it is new). */
  lemma CreditNames(l: Ledger, x: string, a: real)
    requires KeysListed(l)
    ensures KeysListed(Add(Touch(l, x), x, a))
    ensures Add(Touch(l, x), x, a).names == Insert(l.names, x)
  {
  }

  lemma CreditWellFormed(l: Ledger, x: string, a: real)
    requires WellFormed(l)
    ensures WellFormed(Add(Touch(l, x), x, a))
  {
    TouchEffect(l, x);
  }

  /** The participant loop keeps the keys listed once each. */
  lemma {:induction false} ApplyParticipantsWellFormed(l: Ledger, e: Expense, k: nat)
    requires WellFormed(l) && k <= |e.participants|
    ensures WellFormed(ApplyParticipants(l, e, k))
  {
    if k > 0 {
      var p := e.participants[k - 1];
      var prev := ApplyParticipants(l, e, k - 1);
      var d := -Debit(e.amount, p, |e.participants|);
      assert ApplyParticipants(l, e, k) == Add(Touch(prev, p.name), p.name, d);
      ApplyParticipantsWellFormed(l, e, k - 1);
      CreditWellFormed(prev, p.name, d);
    }
  }

  /** Initialising a key and then adding to it: its value rises by a, every
      other value stays. */
  lemma CreditValue(l: Ledger, x: string, a: real, y: string)
    ensures Val(Add(Touch(l, x), x, a), y) == Val(l, y) + (if y == x then a else 0.0)
  {
  }

  /** One more participant extends both name lists by that participant's
      name. */
  lemma NamesPrefix(e: Expense, k: nat)
    requires k < |e.participants|
    ensures ParticipantNames(e)[..k + 1] == ParticipantNames(e)[..k] + [e.participants[k].name]
    ensures ExpenseNames(e)[..k + 2] == ExpenseNames(e)[..k + 1] + [e.participants[k].name]
  {
    var pn := ParticipantNames(e);
    assert pn[..k + 1] == pn[..k] + [pn[k]];
    var en := ExpenseNames(e);
    assert en[..k + 2] == en[..k + 1] + [en[k + 1]];
  }

  /** The participant loop adds the names it meets, in order. */
  lemma {:induction false} ApplyParticipantsNames(l: Ledger, e: Expense, k: nat)
    requires KeysListed(l) && k <= |e.participants|
    ensures KeysListed(ApplyParticipants(l, e, k))
    ensures ApplyParticipants(l, e, k).names == InsertAll(l.names, ParticipantNames(e)[..k])
  {
    if k == 0 {
      assert ParticipantNames(e)[..0] == [];
    } else {
      var p := e.participants[k - 1];
      var prev := ApplyParticipants(l, e, k - 1);
      var d := -Debit(e.amount, p, |e.participants|);
      assert ApplyParticipants(l, e, k) == Add(Touch(prev, p.name), p.name, d);
      ApplyParticipantsNames(l, e, k - 1);
      CreditNames(prev, p.name, d);
      NamesPrefix(e, k - 1);
      var pn := ParticipantNames(e)[..k];
      assert pn[..k - 1] == ParticipantNames(e)[..k - 1] && pn[k - 1] == p.name;
      assert InsertAll(l.names, pn) == Insert(InsertAll(l.names, pn[..k - 1]), p.name);
    }
  }

  /** The participant loop debits x exactly DebitsTo. */
  lemma {:induction false} ApplyParticipantsValue(l: Ledger, e: Expense, k: nat, x: string)
    requires k <= |e.participants|
    ensures Val(ApplyParticipants(l, e, k), x) == Val(l, x) - DebitsTo(x, e, k)
  {
    if k > 0 {
      var p := e.participants[k - 1];
      ApplyParticipantsValue(l, e, k - 1, x);
      CreditValue(ApplyParticipants(l, e, k - 1), p.name, -Debit(e.amount, p, |e.participants|), x);
    }
  }

  /** The participant loop debits exactly DebitsTo and adds the names it meets. */
  lemma ApplyParticipantsEffect(l: Ledger, e: Expense, k: nat)
    requires WellFormed(l) && k <= |e.participants|
    ensures WellFormed(ApplyParticipants(l, e, k))
    ensures ApplyParticipants(l, e, k).names == InsertAll(l.names, ParticipantNames(e)[..k])
    ensures forall x :: Val(ApplyParticipants(l, e, k), x) == Val(l, x) - DebitsTo(x, e, k)
  {
    ApplyParticipantsNames(l, e, k);
    ApplyParticipantsWellFormed(l, e, k);
    forall x ensures Val(ApplyParticipants(l, e, k), x) == Val(l, x) - DebitsTo(x, e, k) {
      ApplyParticipantsValue(l, e, k, x);
    }
  }

  /** One expense adds its names in order. */
  lemma ApplyExpenseNames(l: Ledger, e: Expense)
    requires WellFormed(l)
    ensures WellFormed(ApplyExpense(l, e))
    ensures ApplyExpense(l, e).names == InsertAll(l.names, ExpenseNames(e))
  {
    var paid := Add(Touch(l, e.paidBy), e.paidBy, e.amount);
    var shared := ApplyParticipants(paid, e, |e.participants|);
    CreditNames(l, e.paidBy, e.amount);
    ApplyParticipantsNames(paid, e, |e.participants|);
    if |e.participants| == 0 {
      assert shared == paid;
      assert ApplyExpense(l, e) == Add(paid, e.paidBy, -e.amount);
    } else {
      assert ApplyExpense(l, e) == shared;
    }
    assert ParticipantNames(e)[..|e.participants|] == ParticipantNames(e);
    assert InsertAll(l.names, [e.paidBy]) == Insert(l.names, e.paidBy) by {
      assert [e.paidBy][..0] == [];
    }
    InsertAllAppend(l.names, [e.paidBy], ParticipantNames(e));
    InsertAllContents(l.names, ExpenseNames(e));
  }

  /** One expense changes x's balance by its Contribution. */
  lemma ApplyExpenseValue(l: Ledger, e: Expense, x: string)
    ensures Val(ApplyExpense(l, e), x) == Val(l, x) + Contribution(x, e)
  {
    var paid := Add(Touch(l, e.paidBy), e.paidBy, e.amount);
    CreditValue(l, e.paidBy, e.amount, x);
    ApplyParticipantsValue(paid, e, |e.participants|, x);
    if |e.participants| == 0 {
      assert ApplyParticipants(paid, e, 0) == paid;
    }
  }

  /** One expense changes every balance by its Contribution and adds its
      names in order. */
  lemma ApplyExpenseEffect(l: Ledger, e: Expense)
    requires WellFormed(l)
    ensures WellFormed(ApplyExpense(l, e))
    ensures ApplyExpense(l, e).names == InsertAll(l.names, ExpenseNames(e))
    ensures forall x :: Val(ApplyExpense(l, e), x) == Val(l, x) + Contribution(x, e)
  {
    ApplyExpenseNames(l, e);
    forall x ensures Val(ApplyExpense(l, e), x) == Val(l, x) + Contribution(x, e) {
      ApplyExpenseValue(l, e, x);
    }
  }

  /** The folded table is keyed by People in first-seen order and holds
      every person's Net balance. */
  lemma {:induction false} FoldSpec(es: seq<Expense>)
    ensures WellFormed(Fold(es))
    ensures Fold(es).names == People(es)
    ensures forall x :: Val(Fold(es), x) == Net(x, es)
    decreases |es|
  {
    if es != [] {
      var init, e := es[..|es| - 1], es[|es| - 1];
      FoldSpec(init);
      ApplyExpenseEffect(Fold(init), e);
      InsertAllAppend([], AllNames(init), ExpenseNames(e));
    }
  }

  lemma FoldStep(es: seq<Expense>, i: nat)
    requires i < |es|
    ensures Fold(es[..i + 1]) == ApplyExpense(Fold(es[..i]), es[i])
  {
    assert es[..i + 1][..i] == es[..i];
  }

  /** `if (!balances[x]) balances[x] = 0`, on the key list and value map
      that together are the `balances` object. */
  method InitializeKey(names: seq<string>, balances: map<string, real>, x: string)
    returns (names': seq<string>, balances': map<string, real>)
    ensures Ledger(names', balances') == Touch(Ledger(names, balances), x)
  {
    names', balances' := names, balances;
    if x !in balances || balances[x] == 0.0 {
      if x !in balances {
        names' := names + [x];
      }
      balances' := balances[x := 0.0];
    }
    assert x in balances ==> balances[x := balances[x]] == balances;
  }

  /** The result: one entry per key, in key order. */
  function Report(l: Ledger): seq<PersonBalance>
    requires WellFormed(l)
  {
    seq(|l.names|, k requires 0 <= k < |l.names| =>
      PersonBalance(l.names[k], Round2(l.running[l.names[k]]), StatusOf(l.running[l.names[k]])))
  }

  /** The `participants.forEach` callback run over every participant: each
      one's key is initialised and debited its share. */
  method DebitParticipants(names: seq<string>, balances: map<string, real>, expense: Expense)
    returns (names': seq<string>, balances': map<string, real>)
    ensures Ledger(names', balances') == ApplyParticipants(Ledger(names, balances), expense, |expense.participants|)
  {
    var amount, participants := expense.amount, expense.participants;
    names', balances' := names, balances;
    for k := 0 to |participants|
      invariant Ledger(names', balances') == ApplyParticipants(Ledger(names, balances), expense, k)
    {
      var participant := participants[k];
      ghost var prev := Ledger(names', balances');
      names', balances' := InitializeKey(names', balances', participant.name);
      var shareAmount := 0.0;
      if participant.shareType == "percentage" {
        shareAmount := (amount * participant.share) / 100.0;
      } else if participant.shareType == "exact" {
        shareAmount := participant.share;
      } else {
        shareAmount := if |participants| > 0 then amount / |participants| as real else amount;
      }
      assert shareAmount == Debit(amount, participant, |participants|);
      balances' := balances'[participant.name := balances'[participant.name] - shareAmount];
      assert Ledger(names', balances') == Add(Touch(prev, participant.name), participant.name, -shareAmount);
    }
  }

  /** The `expenses.forEach` callback on one expense: credit the payer,
      debit the participants, and debit the payer back when there are none. */
  method PostExpense(names: seq<string>, balances: map<string, real>, expense: Expense)
    returns (names': seq<string>, balances': map<string, real>)
    ensures Ledger(names', balances') == ApplyExpense(Ledger(names, balances), expense)
  {
    var amount, paidBy, participants := expense.amount, expense.paidBy, expense.participants;

    names', balances' := InitializeKey(names, balances, paidBy);
    balances' := balances'[paidBy := balances'[paidBy] + amount];
    ghost var paid := Ledger(names', balances');
    assert paid == Add(Touch(Ledger(names, balances), paidBy), paidBy, amount);

    names', balances' := DebitParticipants(names', balances', expense);
    if |participants| == 0 {
      assert Ledger(names', balances') == paid;
      balances' := balances'[paidBy := balances'[paidBy] - amount];
    }
  }

  /** `calculateBalances`: one entry per person, in the order each name is
      first mentioned, holding that person's net balance rounded to cents
      and a status taken from the unrounded balance. */
  method CalculateBalances(expenses: seq<Expense>) returns (result: seq<PersonBalance>)
    ensures |result| == |People(expenses)|
    ensures forall k :: 0 <= k < |result| ==>
      && result[k].name == People(expenses)[k]
      && result[k].balance == Round2(Net(result[k].name, expenses))
      && result[k].status == StatusOf(Net(result[k].name, expenses))
  {
    var names: seq<string> := [];
    var balances: map<string, real> := map[];
    for i := 0 to |expenses|
      invariant Ledger(names, balances) == Fold(expenses[..i])
    {
      names, balances := PostExpense(names, balances, expenses[i]);
      FoldStep(expenses, i);
    }
    assert expenses[..|expenses|] == expenses;
    FoldSpec(expenses);
    result := Report(Ledger(names, balances));
  }

  /** `getAllPeople`: every payer and participant name, each once, in the
      order each is first mentioned. */
  method GetAllPeople(expenses: seq<Expense>) returns (people: seq<string>)
    ensures people == People(expenses)
    ensures NoDuplicates(people)
    ensures forall x :: x in people <==> x in AllNames(expenses)
    ensures forall i, j :: 0 <= i < j < |people| ==>
      people[i] in AllNames(expenses) && people[j] in AllNames(expenses) &&
      FirstIndex(AllNames(expenses), people[i]) < FirstIndex(AllNames(expenses), people[j])
  {
    var peopleSet: set<string> := {};
    people := [];
    for i := 0 to |expenses|
      invariant people == Dedup(AllNames(expenses[..i]))
      invariant forall x :: x in peopleSet <==> x in people
    {
      var expense := expenses[i];
      ghost var before := people;
      if expense.paidBy !in peopleSet {
        people := people + [expense.paidBy];
      }
      peopleSet := peopleSet + {expense.paidBy};
      for k := 0 to |expense.participants|
        invariant people == InsertAll(before, ExpenseNames(expense)[..k + 1])
        invariant forall x :: x in peopleSet <==> x in people
      {
        var name := expense.participants[k].name;
        if name !in peopleSet {
          people := people + [name];
        }
        peopleSet := peopleSet + {name};
        NamesPrefix(expense, k);
        assert ExpenseNames(expense)[..k + 2][..k + 1] == ExpenseNames(expense)[..k + 1];
      }
      assert ExpenseNames(expense)[..|expense.participants| + 1] == ExpenseNames(expense);
      assert expenses[..i + 1][..i] == expenses[..i];
      InsertAllAppend([], AllNames(expenses[..i]), ExpenseNames(expense));
    }
    assert expenses[..|expenses|] == expenses;
    DedupFirstSeen(AllNames(expenses));
  }
}

module BalanceLaws {
  import opened Money
  import opened Roster
  import opened ExpenseModel
  import opened Balances

  /** Balances are additive: folding two lists one after the other adds
      their nets. */
  lemma {:induction false} NetAppend(x: string, a: seq<Expense>, b: seq<Expense>)
    ensures Net(x, a + b) == Net(x, a) + Net(x, b)
    decreases |b|
  {
    if b == [] {
      assert a + b == a;
    } else {
      var ab := a + b;
      assert ab[..|ab| - 1] == a + b[..|b| - 1];
      assert ab[|ab| - 1] == b[|b| - 1];
      NetAppend(x, a, b[..|b| - 1]);
    }
  }

  /** Appending one expense moves every balance by that expense's Contribution. */
  lemma NetSnoc(x: string, es: seq<Expense>, e: Expense)
    ensures Net(x, es + [e]) == Net(x, es) + Contribution(x, e)
  {
    assert (es + [e])[..|es|] == es;
  }

  lemma {:induction false} DebitsToAbsent(x: string, e: Expense, k: nat)
    requires k <= |e.participants|
    requires forall i :: 0 <= i < k ==> e.participants[i].name != x
    ensures DebitsTo(x, e, k) == 0.0
  {
    if k > 0 {
      DebitsToAbsent(x, e, k - 1);
    }
  }

  /** Someone no expense mentions has a zero balance. */
  lemma {:induction false} NetAbsent(x: string, es: seq<Expense>)
    requires x !in AllNames(es)
    ensures Net(x, es) == 0.0
    decreases |es|
  {
    if es != [] {
      var init, e := es[..|es| - 1], es[|es| - 1];
      assert x !in AllNames(init) && x !in ExpenseNames(e);
      NetAbsent(x, init);
      forall i | 0 <= i < |e.participants| ensures e.participants[i].name != x {
        assert ExpenseNames(e)[i + 1] == e.participants[i].name;
      }
      DebitsToAbsent(x, e, |e.participants|);
    }
  }

  /** An expense without participants changes nobody's running balance,
      yet its payer is listed. */
  lemma NoParticipantsIsNeutral(es: seq<Expense>, e: Expense)
    requires e.participants == []
    ensures forall x :: Net(x, es + [e]) == Net(x, es)
    ensures e.paidBy in People(es + [e])
  {
    forall x ensures Net(x, es + [e]) == Net(x, es) {
      NetSnoc(x, es, e);
    }
    assert (es + [e])[..|es|] == es;
    assert e.paidBy in AllNames(es + [e]) by {
      assert AllNames(es + [e]) == AllNames(es) + ExpenseNames(e);
    }
    DedupFirstSeen(AllNames(es + [e]));
  }

  /** What a payer X and a different sole equal-split participant Y do: X's
      balance rises by the amount, Y's falls by it, nobody else moves. */
  lemma PairExpenseShift(es: seq<Expense>, e: Expense, x: string)
    requires |e.participants| == 1 && e.participants[0].name != e.paidBy
    requires e.participants[0].shareType != "percentage" && e.participants[0].shareType != "exact"
    ensures x == e.paidBy ==> Net(x, es + [e]) == Net(x, es) + e.amount
    ensures x == e.participants[0].name ==> Net(x, es + [e]) == Net(x, es) - e.amount
    ensures x != e.paidBy && x != e.participants[0].name ==> Net(x, es + [e]) == Net(x, es)
  {
    NetSnoc(x, es, e);
    assert DebitsTo(x, e, 1) == if e.participants[0].name == x then e.amount else 0.0;
  }

  // ---------------------------------------------------------------------
  // The sum of all balances.
  // ---------------------------------------------------------------------

  /** Sum of the values of the listed keys (absent keys count 0). */
  function LedgerSum(names: seq<string>, m: map<string, real>): real
    decreases |names|
  {
    if names == [] then 0.0
    else LedgerSum(names[..|names| - 1], m) + (if names[|names| - 1] in m then m[names[|names| - 1]] else 0.0)
  }

  lemma {:induction false} LedgerSumUpdate(names: seq<string>, m: map<string, real>, x: string, v: real)
    requires NoDuplicates(names)
    ensures x in names ==> LedgerSum(names, m[x := v]) == LedgerSum(names, m) - (if x in m then m[x] else 0.0) + v
    ensures x !in names ==> LedgerSum(names, m[x := v]) == LedgerSum(names, m)
    decreases |names|
  {
    if names != [] {
      var init, last := names[..|names| - 1], names[|names| - 1];
      LedgerSumUpdate(init, m, x, v);
      assert x in names ==> (x in init || x == last);
      assert x == last ==> x !in init;
    }
  }

  function Total(l: Ledger): real {
    LedgerSum(l.names, l.running)
  }

  /** Sum of all debits of the first k participants. */
  function TotalDebits(e: Expense, k: nat): real
    requires k <= |e.participants|
  {
    if k == 0 then 0.0 else TotalDebits(e, k - 1) + Debit(e.amount, e.participants[k - 1], |e.participants|)
  }

  /** What one expense adds to the sum of all balances. */
  function Imbalance(e: Expense): real {
    e.amount - TotalDebits(e, |e.participants|) - (if |e.participants| == 0 then e.amount else 0.0)
  }

  function TotalImbalance(es: seq<Expense>): real
    decreases |es|
  {
    if es == [] then 0.0 else TotalImbalance(es[..|es| - 1]) + Imbalance(es[|es| - 1])
  }

  lemma TouchTotal(l: Ledger, x: string)
    requires WellFormed(l)
    ensures Total(Touch(l, x)) == Total(l)
  {
    if x !in l.running {
      var names, m := l.names, l.running;
      assert (names + [x])[..|names|] == names;
      LedgerSumUpdate(names, m, x, 0.0);
    }
  }

  lemma AddTotal(l: Ledger, x: string, a: real)
    requires WellFormed(l) && x in l.running
    ensures Total(Add(l, x, a)) == Total(l) + a
  {
    LedgerSumUpdate(l.names, l.running, x, l.running[x] + a);
  }

  /** Initialising a key and adding a to it raises the total by a. */
  lemma CreditTotal(l: Ledger, x: string, a: real)
    requires WellFormed(l)
    ensures Total(Add(Touch(l, x), x, a)) == Total(l) + a
  {
    TouchEffect(l, x);
    TouchTotal(l, x);
    AddTotal(Touch(l, x), x, a);
  }

  lemma {:induction false} ApplyParticipantsTotal(l: Ledger, e: Expense, k: nat)
    requires WellFormed(l) && k <= |e.participants|
    ensures Total(ApplyParticipants(l, e, k)) == Total(l) - TotalDebits(e, k)
  {
    if k > 0 {
      var p := e.participants[k - 1];
      var prev := ApplyParticipants(l, e, k - 1);
      var d := -Debit(e.amount, p, |e.participants|);
      assert ApplyParticipants(l, e, k) == Add(Touch(prev, p.name), p.name, d);
      assert TotalDebits(e, k) == TotalDebits(e, k - 1) - d;
      ApplyParticipantsTotal(l, e, k - 1);
      ApplyParticipantsWellFormed(l, e, k - 1);
      CreditTotal(prev, p.name, d);
    }
  }

  lemma ApplyExpenseTotal(l: Ledger, e: Expense)
    requires WellFormed(l)
    ensures Total(ApplyExpense(l, e)) == Total(l) + Imbalance(e)
  {
    var paid := Add(Touch(l, e.paidBy), e.paidBy, e.amount);
    CreditTotal(l, e.paidBy, e.amount);
    CreditWellFormed(l, e.paidBy, e.amount);
    ApplyParticipantsTotal(paid, e, |e.participants|);
    if |e.participants| == 0 {
      assert e.paidBy in paid.running;
      AddTotal(ApplyParticipants(paid, e, 0), e.paidBy, -e.amount);
    }
  }

  lemma {:induction false} FoldTotal(es: seq<Expense>)
    ensures Total(Fold(es)) == TotalImbalance(es)
    decreases |es|
  {
    if es != [] {
      var init := es[..|es| - 1];
      FoldTotal(init);
      FoldSpec(init);
      ApplyExpenseTotal(Fold(init), es[|es| - 1]);
    }
  }

  /** Sum of the listed people's unrounded balances. */
  function SumNet(names: seq<string>, es: seq<Expense>): real
    decreases |names|
  {
    if names == [] then 0.0 else SumNet(names[..|names| - 1], es) + Net(names[|names| - 1], es)
  }

  lemma {:induction false} SumNetIsLedgerSum(names: seq<string>, l: Ledger, es: seq<Expense>)
    requires forall x :: Val(l, x) == Net(x, es)
    ensures SumNet(names, es) == LedgerSum(names, l.running)
    decreases |names|
  {
    if names != [] {
      SumNetIsLedgerSum(names[..|names| - 1], l, es);
      assert Val(l, names[|names| - 1]) == Net(names[|names| - 1], es);
    }
  }

  /** The unrounded balances of all people add up to what the expenses
      leave unassigned (amount minus total debits, per expense). */
  lemma BalancesSum(es: seq<Expense>)
    ensures SumNet(People(es), es) == TotalImbalance(es)
  {
    FoldSpec(es);
    FoldTotal(es);
    SumNetIsLedgerSum(People(es), Fold(es), es);
  }

  /** Equal (or unrecognised, hence equal) split, or no participants. */
  predicate EqualSplit(e: Expense) {
    forall p :: p in e.participants ==> p.shareType != "percentage" && p.shareType != "exact"
  }

  lemma {:induction false} EqualDebitsPrefix(e: Expense, k: nat)
    requires EqualSplit(e) && 0 < |e.participants| && k <= |e.participants|
    ensures TotalDebits(e, k) == k as real * (e.amount / |e.participants| as real)
  {
    if k > 0 {
      EqualDebitsPrefix(e, k - 1);
      assert e.participants[k - 1] in e.participants;
    }
  }

  /** An equal-split expense leaves the sum of balances unchanged. */
  lemma EqualSplitBalanced(e: Expense)
    requires EqualSplit(e)
    ensures Imbalance(e) == 0.0
  {
    if |e.participants| > 0 {
      EqualDebitsPrefix(e, |e.participants|);
    }
  }

  lemma {:induction false} EqualSplitsTotalZero(es: seq<Expense>)
    requires forall e :: e in es ==> EqualSplit(e)
    ensures TotalImbalance(es) == 0.0
    decreases |es|
  {
    if es != [] {
      var init := es[..|es| - 1];
      assert forall e :: e in init ==> e in es;
      EqualSplitsTotalZero(init);
      assert es[|es| - 1] in es;
      EqualSplitBalanced(es[|es| - 1]);
    }
  }

  /** Zero sum: when every expense is an equal split, the people's unrounded
      balances add up to exactly 0. */
  lemma ZeroSum(es: seq<Expense>)
    requires forall e :: e in es ==> EqualSplit(e)
    ensures SumNet(People(es), es) == 0.0
  {
    BalancesSum(es);
    EqualSplitsTotalZero(es);
  }

  /** Sum of the rounded balances of the listed people. */
  function SumRounded(names: seq<string>, es: seq<Expense>): real
    decreases |names|
  {
    if names == [] then 0.0 else SumRounded(names[..|names| - 1], es) + Round2(Net(names[|names| - 1], es))
  }

  lemma {:induction false} SumRoundedNear(names: seq<string>, es: seq<Expense>)
    ensures SumNet(names, es) - 0.005 * |names| as real < SumRounded(names, es) || names == []
    ensures SumRounded(names, es) <= SumNet(names, es) + 0.005 * |names| as real
    decreases |names|
  {
    if names != [] {
      SumRoundedNear(names[..|names| - 1], es);
      Round2Bounds(Net(names[|names| - 1], es));
    }
  }

  /** The rounded balances `calculateBalances` reports stay within half a
      cent per person of the unrounded sum, so for equal splits within
      half a cent per person of 0. */
  lemma RoundedZeroSum(es: seq<Expense>)
    requires forall e :: e in es ==> EqualSplit(e)
    ensures -0.005 * |People(es)| as real <= SumRounded(People(es), es) <= 0.005 * |People(es)| as real
  {
    ZeroSum(es);
    SumRoundedNear(People(es), es);
  }

  // ---------------------------------------------------------------------
  // Status and rounding; the two share rules.
  // ---------------------------------------------------------------------

  /** The status follows the unrounded balance: it agrees with the rounded
      balance's sign whenever that is nonzero, but a residual that rounds
      to 0.00 keeps a non-settled status. */
  lemma StatusFromUnrounded(x: real)
    ensures Round2(x) > 0.0 ==> StatusOf(x) == Owed
    ensures Round2(x) < 0.0 ==> StatusOf(x) == Owes
    ensures StatusOf(x) == Settled ==> Round2(x) == 0.0
    ensures Round2(0.001) == 0.0 && StatusOf(0.001) == Owed
  {
    Round2Sign(x);
    Round2Sign(0.0);
    Round2Sign(0.001);
  }

  /** settlements.js and the `calculatedShares` virtual use the same rule
      for the three listed share types; on any other type the engine debits
      an equal split while the virtual says 0. */
  lemma DebitVersusVirtualShare(amount: real, p: Participant, n: nat)
    requires n > 0
    ensures p.shareType in ShareTypes ==> Debit(amount, p, n) == VirtualShare(amount, p, n)
    ensures p.shareType !in ShareTypes ==> Debit(amount, p, n) == amount / n as real && VirtualShare(amount, p, n) == 0.0
  {
  }

  /** For a document the schema accepts the two rules agree on every
      participant, so its unrounded calculated shares add up to the total
      debit the engine applies. */
  lemma {:induction false} ValidSharesAgree(e: Expense, k: nat)
    requires Valid(e) && k <= |e.participants|
    ensures SumVirtual(e.amount, e.participants, k) == TotalDebits(e, k)
  {
    if k > 0 {
      ValidSharesAgree(e, k - 1);
      assert e.participants[k - 1] in e.participants;
      DebitVersusVirtualShare(e.amount, e.participants[k - 1], |e.participants|);
    }
  }

  /** The examples of an equal, a percentage, an exact and an empty split. */
  lemma SplitExamples()
    ensures var e := Expense(90.0, "Dinner", "A", [Participant("A", 1.0, "equal"), Participant("B", 1.0, "equal"), Participant("C", 1.0, "equal")], "Food", false, Wrappers.None, false);
      Net("A", [e]) == 60.0 && Net("B", [e]) == -30.0 && Net("C", [e]) == -30.0
    ensures var e := Expense(100.0, "Rent", "A", [Participant("A", 60.0, "percentage"), Participant("B", 40.0, "percentage")], "Other", false, Wrappers.None, false);
      Net("A", [e]) == 40.0 && Net("B", [e]) == -40.0
    ensures var e := Expense(100.0, "Rent", "A", [Participant("A", 70.0, "exact"), Participant("B", 30.0, "exact")], "Other", false, Wrappers.None, false);
      Net("A", [e]) == 30.0 && Net("B", [e]) == -30.0
    ensures var e := Expense(50.0, "Snack", "A", [], "Food", false, Wrappers.None, false);
      Net("A", [e]) == 0.0 && StatusOf(Net("A", [e])) == Settled && People([e]) == ["A"]
  {
    var e := Expense(90.0, "Dinner", "A", [Participant("A", 1.0, "equal"), Participant("B", 1.0, "equal"), Participant("C", 1.0, "equal")], "Food", false, Wrappers.None, false);
    SingleNet(e);
    assert DebitsTo("A", e, 3) == 30.0 && DebitsTo("B", e, 3) == 30.0 && DebitsTo("C", e, 3) == 30.0 by {
      assert DebitsTo("A", e, 1) == 30.0 && DebitsTo("B", e, 1) == 0.0 && DebitsTo("C", e, 1) == 0.0;
      assert DebitsTo("A", e, 2) == 30.0 && DebitsTo("B", e, 2) == 30.0 && DebitsTo("C", e, 2) == 0.0;
    }
    var g := Expense(100.0, "Rent", "A", [Participant("A", 60.0, "percentage"), Participant("B", 40.0, "percentage")], "Other", false, Wrappers.None, false);
    SingleNet(g);
    assert DebitsTo("A", g, 1) == 60.0 && DebitsTo("B", g, 1) == 0.0;
    var h := Expense(100.0, "Rent", "A", [Participant("A", 70.0, "exact"), Participant("B", 30.0, "exact")], "Other", false, Wrappers.None, false);
    SingleNet(h);
    assert DebitsTo("A", h, 1) == 70.0 && DebitsTo("B", h, 1) == 0.0;
    var f := Expense(50.0, "Snack", "A", [], "Food", false, Wrappers.None, false);
    SingleNet(f);
    assert [f][..0] == [];
    assert AllNames([f]) == ["A"];
    assert Dedup(["A"]) == ["A"] by {
      assert ["A"][..0] == [];
    }
  }

  lemma SingleNet(e: Expense)
    ensures forall x :: Net(x, [e]) == Contribution(x, e)
  {
    assert [e][..0] == [];
  }
}
