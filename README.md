# Shared-expense balance engine, modelled in Dafny

The system records shared expenses. Each expense has an amount, a payer and a
list of participants, and each participant owes a share of the equal,
percentage or exact kind. From the expense list the system computes:

- every person's net balance, which is what they paid minus what they owe;
- a status per person: owed, owes or settled;
- a list of suggested payments that would settle the balances.

The payments come from a greedy two-cursor matching of debtors against
creditors. A request body is validated before an expense is stored, and the
stored document obeys a schema. When a suggested payment is marked as paid,
the front end posts it back as an ordinary expense.

The model follows the source's own structure.

- `Money`: cent rounding `Math.round(x * 100) / 100`, with `Math.abs` and `Math.min`.
- `Text`: JavaScript's `String.prototype.trim`.
- `ExpenseModel`: the expense document. It covers the schema's trimming and defaults (`Cast`), its validators (`Valid`), and the `calculatedShares` virtual as a loop.
- `Validation`: the two request validators written line by line, the reference error lists they are proved against, and the lemmas about those lists.
- `Roster`: names in first-seen order. This is the order in which a JavaScript object or `Set` keeps keys inserted one at a time.
- `Balances`: `calculateBalances` and `getAllPeople` as loops over a key list plus a value map. They are proved against the reference balance `Net` and the reference roster `People`.
- `BalanceLaws`: algebra of `Net`. It covers additivity, neutral expenses, what the balances sum to, rounding drift and how status relates to rounding.
- `SettlementPlan`: the matching loop, run on two arrays exactly as the source mutates them. A ghost list of loop turns records the greedy schedule.
- `Settlements`: `calculateSettlements` end to end. Every suggested payment is proved *sound* (`Settlements.Sound`):
  - it goes from someone whose rounded balance is negative to a different person whose rounded balance is positive;
  - it is a whole number of cents, at least 0.02;
  - it exceeds neither side's rounded balance.

  There are fewer payments than people.
- `Ingestion`: the default participant that the POST route adds, and the expense that "mark as paid" posts.

Amounts are exact reals, so nothing here is about floating-point error.

Behaviour of the code worth stating:

- **Rounding.** `Math.round` rounds halves toward +∞, not away from zero: −0.005 becomes 0.00 and −0.015 becomes −0.01 (`Money.Round2HalfUp`).
- **Status.** The status comes from the unrounded balance, so a balance of 0.001 is reported as 0.00 but "owed" (`BalanceLaws.StatusFromUnrounded`).
- **Balance sum.** The balances are proved to add up to zero when every expense is an equal split (`BalanceLaws.ZeroSum`, `BalanceLaws.RoundedZeroSum`). In general each expense contributes its amount minus its total debits (`BalanceLaws.BalancesSum`); percentages that do not add up to 100, or exact shares that do not add up to the amount, leave the sum non-zero.
- **Creditor advance.** The loop advances the creditor cursor on `Math.abs(credit) < 0.01`, not `credit < 0.01`. The two coincide because a creditor's remainder never goes negative (`SettlementPlan.Turn`, `SettlementPlan.CursorsStep`).

Where the validator and the schema do not line up:

- An amount of 0.005 passes the validator but is below the schema minimum of 0.01.
- The validator limits the description length before trimming, and the schema after it (`Validation.ValidatorSchemaGaps`).

## Model

| member | source | states |
|---|---|---|
| Money.Round2Bounds | backend/routes/settlements.js:105 | a rounded balance is a whole number of cents within half a cent of the value: x − 0.005 < Round2(x) ≤ x + 0.005 |
| Money.Round2OnCents | backend/routes/settlements.js:130 | rounding leaves an amount that is already on cents unchanged |
| Money.Round2Idempotent | backend/routes/settlements.js:130 | rounding twice is rounding once |
| Money.Round2Monotone | backend/routes/settlements.js:105 | rounding preserves order |
| Money.Round2Sign | backend/routes/settlements.js:105 | a positive rounded value comes from x ≥ 0.005, a negative one from x < −0.005, and zero exactly from −0.005 ≤ x < 0.005 |
| Money.Round2HalfUp | backend/routes/settlements.js:105 | halves round up: 0.005 → 0.01, −0.005 → 0, −0.015 → −0.01 |
| Money.Abs | backend/routes/settlements.js:122 | the result is non-negative and is x or −x |
| Money.Min | backend/routes/settlements.js:124 | the result is at most both arguments and is one of them |
| Money.CentsArithmetic | backend/routes/settlements.js:122-135 | sums, differences, negations and minima of whole cents are whole cents |
| Money.CentsAboveOneCent | backend/routes/settlements.js:126 | a whole number of cents above the 0.01 threshold is at least 0.02 |
| Text.LeadingWhitespace | backend/middleware/validation.js:14 | counts exactly the whitespace prefix: everything before it is whitespace, the next character is not |
| Text.TrailingWhitespace | backend/middleware/validation.js:14 | counts exactly the whitespace suffix |
| Text.TrimIsCore | backend/models/Expense.js:12 | the trimmed string is a contiguous piece of the input, no longer than it, with whitespace only cut off and none left at either end |
| Text.TrimEmptyIff | backend/middleware/validation.js:14 | `s.trim().length === 0` exactly when s is all whitespace |
| Text.TrimNoSurrounding | backend/models/Expense.js:18 | a string without surrounding whitespace is kept as it is |
| ExpenseModel.CastValidIff | backend/models/Expense.js:3-60 | an input is stored exactly when it meets every schema constraint read through its defaults (missing shareType and category accepted, blank description or payer refused, maxlength on the trimmed description, recurringFrequency required while isRecurring) |
| ExpenseModel.CalculatedShares | backend/models/Expense.js:63-92 | one line per participant, same names in the same order, each that participant's share by type rounded to cents; an unknown type gives 0; no participants give no lines |
| ExpenseModel.EqualSharesSumToAmount | backend/models/Expense.js:74-76 | equal shares of an expense add up to its amount before rounding |
| ExpenseModel.SumEqualPrefix | backend/models/Expense.js:74-76 | the first k of n equal shares add up to k times amount/n |
| Roster.FirstIndex | backend/routes/settlements.js:146-153 | the result is the position of the first occurrence |
| Roster.FirstIndexExtend | backend/routes/settlements.js:146-153 | adding a name at the end does not move the first occurrence of a name already present |
| Roster.InsertAllAppend | backend/routes/settlements.js:148-153 | inserting names in two batches is inserting them at once |
| Roster.InsertAllContents | backend/routes/settlements.js:146-153 | inserting keeps the old names as a prefix, adds exactly the new ones and never repeats a name |
| Roster.DedupOrdered | backend/routes/settlements.js:146-153 | the roster lists names in the order of their first mention |
| Roster.DedupFirstSeen | backend/routes/settlements.js:145-156 | the roster lists every distinct name exactly once, ordered by first mention |
| Balances.TouchEffect | backend/routes/settlements.js:74 | initialising a key appends it only if it is new and changes no balance |
| Balances.CreditValue | backend/routes/settlements.js:74-77 | initialising a key and adding to it changes that key by the amount and no other value |
| Balances.CreditNames | backend/routes/settlements.js:74-77 | initialising a key and adding to it keeps every key listed and appends the key only if it is new |
| Balances.CreditWellFormed | backend/routes/settlements.js:74-77 | after initialising a key and adding to it, the key list still has no repeats and matches the table |
| Balances.NamesPrefix | backend/routes/settlements.js:148-151 | each further participant extends the names met so far by exactly that participant's name |
| Balances.ApplyParticipantsNames | backend/routes/settlements.js:80-95 | the participant loop adds the participants' names, in order, to the key list |
| Balances.ApplyParticipantsValue | backend/routes/settlements.js:80-95 | the participant loop lowers each balance by exactly that person's total share so far |
| Balances.ApplyParticipantsWellFormed | backend/routes/settlements.js:80-95 | the participant loop keeps the key list free of repeats and in step with the table |
| Balances.ApplyParticipantsEffect | backend/routes/settlements.js:80-95 | the participant loop debits each person exactly their total share and adds their names in order |
| Balances.ApplyExpenseEffect | backend/routes/settlements.js:70-101 | one expense changes every balance by exactly its contribution, which credits the payer, debits each participant, and debits the payer back when there are no participants |
| Balances.ApplyExpenseNames | backend/routes/settlements.js:70-101 | one expense adds its payer and then its participants to the key list, without repeats |
| Balances.ApplyExpenseValue | backend/routes/settlements.js:70-101 | one expense changes each balance by exactly its contribution |
| Balances.FoldStep | backend/routes/settlements.js:70 | the table after i + 1 expenses is the table after i with expense i applied |
| Balances.FoldSpec | backend/routes/settlements.js:67-101 | after all expenses the table has the people as keys in first-mention order, each holding its net balance |
| Balances.InitializeKey | backend/routes/settlements.js:74 | `if (!balances[x]) balances[x] = 0` keeps the key order and every value, adding x at 0 when absent |
| Balances.DebitParticipants | backend/routes/settlements.js:80-95 | the participant loop ends in the state the reference participant fold describes |
| Balances.PostExpense | backend/routes/settlements.js:71-100 | one turn of the expense loop leaves the table in the state the reference step describes |
| Balances.CalculateBalances | backend/routes/settlements.js:67-108 | one entry per person in first-mention order, with balance = Round2(Net) and status from the unrounded Net |
| Balances.GetAllPeople | backend/routes/settlements.js:145-156 | every payer and participant name exactly once (membership both ways), in first-mention order |
| BalanceLaws.NetAppend | backend/routes/settlements.js:70-101 | the balance over two lists in sequence is the sum of the balances over each |
| BalanceLaws.NetSnoc | backend/routes/settlements.js:70-101 | one more expense moves each balance by that expense's contribution |
| BalanceLaws.NetAbsent | backend/routes/settlements.js:74-81 | a name that no expense mentions has balance 0 |
| BalanceLaws.DebitsToAbsent | backend/routes/settlements.js:80-94 | a non-participant is debited nothing |
| BalanceLaws.NoParticipantsIsNeutral | backend/routes/settlements.js:97-100 | an expense with no participants changes no balance, yet its payer is listed |
| BalanceLaws.PairExpenseShift | backend/routes/settlements.js:70-101 | a payer and a different sole equal participant: the payer rises by the amount, the participant falls by it, nobody else moves |
| BalanceLaws.LedgerSumUpdate | backend/routes/settlements.js:77 | writing one key changes the sum of the listed keys by the change at that key |
| BalanceLaws.TouchTotal | backend/routes/settlements.js:74 | initialising a key at 0 leaves the sum of the values unchanged |
| BalanceLaws.AddTotal | backend/routes/settlements.js:77 | adding to a present key adds the same to the sum |
| BalanceLaws.CreditTotal | backend/routes/settlements.js:74-77 | crediting the payer adds the amount to the sum |
| BalanceLaws.ApplyParticipantsTotal | backend/routes/settlements.js:80-95 | the participant loop lowers the sum by exactly the total of the shares it debits |
| BalanceLaws.ApplyExpenseTotal | backend/routes/settlements.js:70-101 | one expense adds its amount minus its total debits to the sum of all values |
| BalanceLaws.FoldTotal | backend/routes/settlements.js:67-101 | the values of the final table sum to the total imbalance of the expenses |
| BalanceLaws.SumNetIsLedgerSum | backend/routes/settlements.js:103-107 | when the table holds the net balances, summing it over the names is summing the net balances |
| BalanceLaws.BalancesSum | backend/routes/settlements.js:67-101 | the people's unrounded balances sum to Σ (amount − total debits) over the expenses |
| BalanceLaws.EqualSplitBalanced | backend/routes/settlements.js:90-91 | an equal-split expense leaves the sum unchanged |
| BalanceLaws.EqualDebitsPrefix | backend/routes/settlements.js:90-91 | the first k equal shares debited add up to k times amount/n |
| BalanceLaws.EqualSplitsTotalZero | backend/routes/settlements.js:90-91 | with only equal splits the total imbalance is 0 |
| BalanceLaws.ZeroSum | backend/routes/settlements.js:67-101 | with only equal splits the unrounded balances sum to exactly 0 |
| BalanceLaws.SumRoundedNear | backend/routes/settlements.js:105 | rounding moves a sum of n balances by at most 0.005·n |
| BalanceLaws.RoundedZeroSum | backend/routes/settlements.js:103-107 | with only equal splits the reported balances sum to within 0.005 per person of 0 |
| BalanceLaws.StatusFromUnrounded | backend/routes/settlements.js:106 | the status agrees with a non-zero rounded balance, settled implies 0.00, and 0.001 is reported as 0.00 but "owed" |
| BalanceLaws.DebitVersusVirtualShare | backend/routes/settlements.js:83-92 | the engine and the `calculatedShares` virtual agree on the three declared share types; on any other type the engine splits equally and the virtual gives 0 |
| BalanceLaws.ValidSharesAgree | backend/models/Expense.js:70-89 | for a document the schema accepts, the virtual's unrounded shares sum to what the engine debits |
| BalanceLaws.SplitExamples | backend/routes/settlements.js:83-99 | worked examples of an equal split of 90 among three, a 60/40 percentage split, a 70/30 exact split, and an expense with no participants |
| BalanceLaws.SingleNet | backend/routes/settlements.js:70-101 | over a single expense, each balance is that expense's contribution |
| SettlementPlan.Debtors | backend/routes/settlements.js:116 | exactly the balances below zero, kept in order |
| SettlementPlan.Creditors | backend/routes/settlements.js:117 | exactly the balances above zero, kept in order |
| SettlementPlan.GreedyAdvances | backend/routes/settlements.js:137-138 | under the greedy schedule no cursor moves back, and at least one moves on every turn |
| SettlementPlan.GreedyContinues | backend/routes/settlements.js:121 | the loop does not stop early: a schedule with a turn needs a debtor and a creditor, and every turn but the last leaves both cursors on their lists |
| SettlementPlan.GreedyPrefixes | backend/routes/settlements.js:120-138 | two greedy schedules over the same lists agree on every turn they both have |
| SettlementPlan.GreedyNotShorter | backend/routes/settlements.js:121 | a greedy schedule is never a proper prefix of another one |
| SettlementPlan.GreedyUnique | backend/routes/settlements.js:120-139 | there is exactly one greedy schedule for given debtors and creditors, so the payments are determined by the input |
| SettlementPlan.InitialState | backend/routes/settlements.js:116-120 | before the first turn the working balances are the filtered ones and nothing has moved |
| SettlementPlan.FinalState | backend/routes/settlements.js:121 | when the loop stops the schedule is greedy, every move is positive, no one overpays, there are fewer turns than debtors plus creditors, and one whole side is settled to within a cent |
| SettlementPlan.BooksStep | backend/routes/settlements.js:134-135 | after a transfer, each working entry is still the original balance less everything moved through it, and no entry crosses zero |
| SettlementPlan.CursorsStep | backend/routes/settlements.js:137-138 | after a transfer and the two checks, entries behind each cursor are within a cent and those from it on stay open, and one cursor has moved |
| SettlementPlan.MovesMinStep | backend/routes/settlements.js:122-124 | the new turn moves the smaller of the two open amounts, which is positive, and earlier turns still did |
| SettlementPlan.NextStep | backend/routes/settlements.js:137-138 | the cursors after the new turn are the ones the schedule predicts, and earlier predictions are unchanged |
| SettlementPlan.NextUnchanged | backend/routes/settlements.js:137-138 | a later turn does not change where the cursors went after an earlier one |
| SettlementPlan.ScheduleStep | backend/routes/settlements.js:121-138 | one turn keeps the recorded steps a greedy schedule leading to the new cursors |
| SettlementPlan.PaidSnoc | backend/routes/settlements.js:134-135 | one more turn adds its amount to what its debtor has paid and its creditor received, and nothing to anyone else |
| SettlementPlan.EmittedSnoc | backend/routes/settlements.js:126-132 | one more turn adds a payment exactly when its amount is above 0.01 |
| SettlementPlan.LoopStep | backend/routes/settlements.js:122-138 | one turn, read on the arrays before and after the transfer and the cursor checks, keeps the invariant, pushes a payment only above the 0.01 threshold (rounded to cents), and advances a cursor |
| SettlementPlan.Transfer | backend/routes/settlements.js:134-135 | the debtor's entry rises and the creditor's falls by the amount; nothing else in either array changes |
| SettlementPlan.WorkingCopies | backend/routes/settlements.js:116-120 | the working arrays start as the debtors' and creditors' balances, distinct from each other, with no turn taken |
| SettlementPlan.Turn | backend/routes/settlements.js:122-138 | one pass of the loop body appends exactly the turn at (i, j) that moves the smaller of the debtor's open amount and the creditor's, moves that amount between the two entries and changes nothing else in the arrays, advances each cursor exactly when its entry is below 0.01 after the move, keeps the loop invariant and keeps the payments equal to the turns above 0.01 |
| SettlementPlan.MatchGreedily | backend/routes/settlements.js:120-139 | the payments are the greedy schedule's turns above 0.01; no debtor pays more than it owes and no creditor receives more than it is owed; cursors go forward; when the loop stops all debtors or all creditors are within a cent of settled |
| SettlementPlan.PlanSettlements | backend/routes/settlements.js:113-141 | the same guarantees over the debtors and creditors filtered from the balances, unsorted |
| SettlementPlan.ExampleFilters | backend/routes/settlements.js:116-117 | for A +60, B −30, C −30 the debtors are B then C, in input order, and the only creditor is A |
| SettlementPlan.ExampleSchedule | backend/routes/settlements.js:120-139 | on that example the greedy schedule is B pays A 30, then C pays A 30 |
| SettlementPlan.MatchingExample | backend/routes/settlements.js:113-141 | for those balances every greedy schedule, hence the plan, yields exactly [B → A 30, C → A 30] |
| Settlements.EmittedShape | backend/routes/settlements.js:126-132 | every payment comes from one loop turn above the threshold, and there are no more payments than turns |
| Settlements.StepWithinBalances | backend/routes/settlements.js:122-124 | no turn moves more than its debtor's or its creditor's whole balance |
| Settlements.PaidNonNegative | backend/routes/settlements.js:134-135 | positive moves add up to something non-negative for every person |
| Settlements.PaidOnCents | backend/routes/settlements.js:134-135 | moves on whole cents add up to whole cents |
| Settlements.StepsOnCents | backend/routes/settlements.js:122-135 | when the balances are on cents, every amount the loop moves is on cents |
| Settlements.FilterCount | backend/routes/settlements.js:116-117 | there are no more debtors and creditors together than balances |
| Settlements.ReportedOnCents | backend/routes/settlements.js:105 | every debtor's and creditor's reported balance is on cents |
| Settlements.Parties | backend/routes/settlements.js:116-117 | a debtor and a creditor are different people, each carrying their own rounded net balance |
| Settlements.EmittedSound | backend/routes/settlements.js:126-131 | every payment in the plan is sound |
| Settlements.CalculateSettlements | backend/routes/settlements.js:111-142 | the payments are the greedy schedule's turns above 0.01 over the balances `calculateBalances` reports, each moving the smaller of what is left on either side, with the cursors going forward; every payment is sound (owing payer, owed payee, different people, whole cents, at least 0.02, within both balances), and there are fewer payments than people |
| Validation.ValidateExpenseCreate | backend/middleware/validation.js:4-35 | calls next exactly when the body has no create error, otherwise rejects with 400 and the errors in field order |
| Validation.ValidateExpenseUpdate | backend/middleware/validation.js:38-75 | the same for the update rules, which check only the fields present |
| Validation.ValidateExpense | backend/middleware/validation.js:78 | behaves exactly like the create validator |
| Validation.DecideShape | backend/middleware/validation.js:25-34 | a body is rejected exactly when there is an error, always with status 400 and "Validation failed", and the errors are passed through |
| Validation.CreateAcceptsIff | backend/middleware/validation.js:6-23 | create accepts exactly a positive number, a non-blank description of at most 200 characters and a non-blank payer |
| Validation.CreateErrorsIff | backend/middleware/validation.js:9-23 | each create error occurs exactly when the source's own test for it holds (falsy, wrong type, blank, length > 200) |
| Validation.UpdateAcceptsIff | backend/middleware/validation.js:42-63 | update accepts exactly when every field that is present passes the create condition for that field |
| Validation.ErrorCounts | backend/middleware/validation.js:6-23 | at most one error per field (three in all), never both description errors, and the amount error first when present |
| Validation.MessageLengths | backend/middleware/validation.js:10-61 | the six error messages have six different lengths, so they are pairwise different |
| Validation.CreateStricterThanUpdate | backend/middleware/validation.js:38-63 | whatever create accepts, update accepts; an empty update body is accepted |
| Validation.CreateAcceptedFitsSchema | backend/middleware/validation.js:4-35 | an accepted body has a positive amount, and a description and payer that stay non-empty after the schema trims them, the description within maxlength |
| Validation.ValidatorSchemaGaps | backend/middleware/validation.js:16 | 0.005 passes the amount check though below the schema minimum; 200 letters plus a space is refused though it trims to 200 |
| Validation.TrimOneTrailingSpace | backend/models/Expense.js:12-13 | trimming letters followed by one space drops just the space |
| Ingestion.DefaultAsWrittenMisattributes | backend/routes/expenses.js:31-34 | as written, payer " A" with no participants leaves "A" at +10 and " A" at −10 |
| Ingestion.DefaultIsNeutral | backend/routes/expenses.js:31-34 | with the trimmed payer as the default participant, a list that is given is kept, and an expense sent without one changes nobody's balance while its payer is listed |
| Ingestion.RecordShift | frontend/src/context/AppContext.jsx:173-187 | recording a payment raises the (trimmed) payer by its amount, lowers the payee by it and moves nobody else; a payment to oneself moves nothing |
| Ingestion.RecordedSettlementNeverOvershoots | frontend/src/context/AppContext.jsx:173-187 | recording a suggested payment moves both parties toward zero without crossing it once rounded |

## Left out

- Floating point. Amounts are exact reals, so IEEE rounding error, NaN, infinities and −0 are not modelled, and neither is the floating-point noise that the 0.01 thresholds exist to absorb.
- Key order and inherited keys of a JavaScript object. Keys that look like array indices (such as "1") are listed before the others; the model keeps plain insertion order for every key. A name that `Object.prototype` already carries ("constructor", "toString", "valueOf", "hasOwnProperty", "__proto__", …) makes `!balances[x]` false at backend/routes/settlements.js:74, so line 77 adds the amount to an inherited function and yields a string or NaN entry, and for "__proto__" no own key is created at all. The model treats every such name as an ordinary key.
- Type casting and missing required fields. The schema validators are modelled on already-typed values: a missing amount, description or payer, or a number sent as a string, is not modelled. Unknown body fields are not modelled either.
- `date` and the timestamps. They come from the clock and are not modelled.
- String length. It is counted in characters as Dafny sees them, not in UTF-16 code units.
- Balances.GetAllPeople: the source returns objects of the form `{ name }`; the model returns the names.
- The Express route handlers, MongoDB reads and writes, the React state and the fetch calls. All of these are I/O and are not part of this model. Only the default participant of the POST route and the record built by `markSettlementAsPaid` are modelled.
- The POST route does not pass `isSettlement` to the schema (backend/routes/expenses.js:28, 36-44), so a recorded settlement is stored with the default `false`. The model keeps the flag in `Ingestion.SettlementRecord`; the balance results do not depend on it.
- Ingestion.RecordedSettlementNeverOvershoots: requires a payer name that has no surrounding whitespace. Participant names are not trimmed by the schema, so a debtor named " B" can be suggested a payment. Recording it credits "B", the trimmed payer, and leaves " B"'s debt in place; `Ingestion.RecordShift` states that general case.
- The mutation of the `balances` objects inside `calculateSettlements`. The source's debtor and creditor objects are the ones `calculateBalances` returned, but they are not used after the loop, so the model copies their balances into two arrays.

## Findings

| source | as written | input that shows it | evidently intended | confidence | as-written member | corrected member |
|---|---|---|---|---|---|---|
| backend/routes/expenses.js:31-34 | the default participant is `{ name: paid_by, … }` with `paid_by` as sent; the schema then trims `paid_by` but not participant names | amount 10, payer " A", no participants: the stored payer is "A" and the participant is " A", so "A" is owed 10 and " A" owes 10 | the payer owes themselves the whole amount, which changes nobody's balance | not executed | Ingestion.DefaultAsWrittenMisattributes | Ingestion.DefaultIsNeutral |
