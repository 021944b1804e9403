/** How records reach the engine: the default participant that
    backend/routes/expenses.js adds when a new expense names none, and the
    expense the front end posts when a suggested payment is marked as paid
    (frontend/src/context/AppContext.jsx). */
module Ingestion {
  import opened Wrappers
  import opened Money
  import opened Text
  import opened Roster
  import opened ExpenseModel
  import opened Balances
  import opened BalanceLaws
  import opened SettlementPlan
  import opened Settlements

  // ---------------------------------------------------------------------
  // The default participant.
  // ---------------------------------------------------------------------

  /** `if (!participants || participants.length === 0)` the route writes
      `[{ name: paid_by, shareType: 'equal', share: 1 }]`, with `paid_by` as
      it arrived in the request: not yet trimmed. A missing list is the
      empty one here. */
  function WithDefaultAsWritten(d: ExpenseInput): ExpenseInput {
    if d.participants == [] then d.(participants := [ParticipantInput(d.paidBy, 1.0, Some("equal"))])
    else d
  }

  /** The same rule with the payer's name as the schema stores it. */
  function WithDefault(d: ExpenseInput): ExpenseInput {
    if d.participants == [] then d.(participants := [ParticipantInput(Trim(d.paidBy), 1.0, Some("equal"))])
    else d
  }

  /** A payer sent as " A" with no participants: the schema stores the
      payer as "A" but keeps the participant " A", so "A" is credited the
      whole amount and " A" owes it, where an equal split with oneself
      should leave both at zero. */
  lemma DefaultAsWrittenMisattributes()
    ensures Trim(" A") == "A"
    ensures Net("A", [Cast(WithDefaultAsWritten(ExpenseInput(10.0, "Lunch", " A", [], None, None, None, None)))]) == 10.0
    ensures Net(" A", [Cast(WithDefaultAsWritten(ExpenseInput(10.0, "Lunch", " A", [], None, None, None, None)))]) == -10.0
  {
    var s := " A";
    assert IsWhitespace(s[0]) && !IsWhitespace(s[1]);
    assert LeadingWhitespace(s[1..]) == 0;
    assert LeadingWhitespace(s) == 1;
    assert s[1..] == "A";
    assert TrailingWhitespace("A") == 0 by {
      assert !IsWhitespace("A"[0]);
    }
    assert Trim(s) == "A";
    var e := Cast(WithDefaultAsWritten(ExpenseInput(10.0, "Lunch", s, [], None, None, None, None)));
    assert e.paidBy == "A";
    assert e.participants == [Participant(s, 1.0, "equal")];
    SingleNet(e);
    assert DebitsTo("A", e, 1) == 0.0;
    assert DebitsTo(s, e, 1) == 10.0;
  }

  /** With the trimmed name, an expense sent without participants changes
      nobody's balance, exactly like an expense the engine sees with no
      participants at all, and its payer is listed. A list that is given is
      kept as it is. */
  lemma DefaultIsNeutral(es: seq<Expense>, d: ExpenseInput)
    ensures d.participants != [] ==> WithDefault(d) == d
    ensures d.participants == [] ==>
      (forall x :: Net(x, es + [Cast(WithDefault(d))]) == Net(x, es))
      && Trim(d.paidBy) in People(es + [Cast(WithDefault(d))])
  {
    if d.participants == [] {
      var e := Cast(WithDefault(d));
      assert e.participants == [Participant(e.paidBy, 1.0, "equal")];
      forall x ensures Net(x, es + [e]) == Net(x, es) {
        NetSnoc(x, es, e);
        assert DebitsTo(x, e, 1) == if x == e.paidBy then e.amount else 0.0;
      }
      assert (es + [e])[..|es|] == es;
      assert AllNames(es + [e]) == AllNames(es) + ExpenseNames(e);
      assert e.paidBy in ExpenseNames(e);
      DedupFirstSeen(AllNames(es + [e]));
    }
  }

  // ---------------------------------------------------------------------
  // Marking a suggested payment as paid.
  // ---------------------------------------------------------------------

  /** The expense posted by `markSettlementAsPaid`: paid by `from`, with
      `to` as the only participant on an equal share of 1, the settlement's
      amount, category Other, flagged as a settlement. The date is set by
      the clock and is not part of this model. */
  function SettlementRecord(s: Settlement): ExpenseInput {
    ExpenseInput(
      s.amount,
      "Settlement: " + s.from + " paid " + s.to,
      s.from,
      [ParticipantInput(s.to, 1.0, Some("equal"))],
      Some("Other"),
      None,
      None,
      Some(true))
  }

  /** Recording the payment moves the amount from one balance to the
      other: the payer, under the name the schema stores (trimmed), rises by
      it, `to` falls by it, and nobody else moves. When the trimmed payer is
      `to` itself the record changes nothing. */
  lemma RecordShift(es: seq<Expense>, s: Settlement, x: string)
    ensures Trim(s.from) != s.to ==>
      && (x == Trim(s.from) ==> Net(x, es + [Cast(SettlementRecord(s))]) == Net(x, es) + s.amount)
      && (x == s.to ==> Net(x, es + [Cast(SettlementRecord(s))]) == Net(x, es) - s.amount)
      && (x != Trim(s.from) && x != s.to ==> Net(x, es + [Cast(SettlementRecord(s))]) == Net(x, es))
    ensures Trim(s.from) == s.to ==> Net(x, es + [Cast(SettlementRecord(s))]) == Net(x, es)
  {
    var e := Cast(SettlementRecord(s));
    assert e.paidBy == Trim(s.from) && e.amount == s.amount;
    assert e.participants == [Participant(s.to, 1.0, "equal")];
    if Trim(s.from) != s.to {
      PairExpenseShift(es, e, x);
    } else {
      NetSnoc(x, es, e);
      assert DebitsTo(x, e, 1) == if x == s.to then s.amount else 0.0;
    }
  }

  /** Recording a payment the engine suggested never overshoots: the
      payer's balance rises by the amount and still rounds to zero or
      below, the payee's falls by it and still rounds to zero or above.
      This needs a payer name the schema keeps as it is (see RecordShift). */
  lemma RecordedSettlementNeverOvershoots(es: seq<Expense>, s: Settlement)
    requires Sound(s, es) && Trim(s.from) == s.from
    ensures Net(s.from, es + [Cast(SettlementRecord(s))]) == Net(s.from, es) + s.amount
    ensures Net(s.to, es + [Cast(SettlementRecord(s))]) == Net(s.to, es) - s.amount
    ensures Round2(Net(s.from, es + [Cast(SettlementRecord(s))])) <= 0.0
    ensures Round2(Net(s.to, es + [Cast(SettlementRecord(s))])) >= 0.0
  {
    var es' := es + [Cast(SettlementRecord(s))];
    RecordShift(es, s, s.from);
    RecordShift(es, s, s.to);
    Round2Bounds(Net(s.from, es));
    Round2Bounds(Net(s.to, es));
    Round2Sign(Net(s.from, es'));
    Round2Sign(Net(s.to, es'));
  }
}
