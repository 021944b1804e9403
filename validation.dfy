/** The request-body validators of backend/middleware/validation.js. They
    look only at `amount`, `description` and `paid_by`; every other field
    of the body is left to the schema. */
module Validation {
  import opened Text
  import opened ExpenseModel

  /** A JSON value as the validators see it after body parsing. Arrays and
      objects behave alike here (truthy, `typeof` is 'object'). */
  datatype JsValue = Undefined | Null | Bool(b: bool) | Num(n: real) | Str(s: string) | Obj

  /** `!v` */
  predicate Falsy(v: JsValue) {
    v.Undefined? || v.Null? || v == Bool(false) || v == Num(0.0) || v == Str("")
  }

  /** The three fields the validators read from `req.body`. */
  datatype Body = Body(amount: JsValue, description: JsValue, paidBy: JsValue)

  /** `next()` or `res.status(400).json({ success: false, message, errors })`. */
  datatype Response = CallNext | Reject(status: nat, message: string, errors: seq<string>)

  const AmountError: string := "Amount must be a positive number"
  const DescriptionRequired: string := "Description is required"
  const DescriptionTooLong: string := "Description cannot exceed 200 characters"
  const PaidByRequired: string := "Paid by field is required"
  const DescriptionEmpty: string := "Description cannot be empty"
  const PaidByEmpty: string := "Paid by field cannot be empty"

  /** The six messages have six different lengths, so no two are equal. */
  lemma MessageLengths()
    ensures |AmountError| == 32 && |DescriptionRequired| == 23 && |DescriptionTooLong| == 40
    ensures |PaidByRequired| == 25 && |DescriptionEmpty| == 27 && |PaidByEmpty| == 29
  {
  }

  // ---------------------------------------------------------------------
  // Reference definitions: what each field must be, and the errors.
  // ---------------------------------------------------------------------

  /** A number above zero. */
  predicate PositiveNumber(v: JsValue) {
    v.Num? && v.n > 0.0
  }

  /** A string with at least one character that is not whitespace. */
  predicate NonBlankString(v: JsValue) {
    v.Str? && !AllWhitespace(v.s)
  }

  /** The amount must be a positive number. */
  function AmountErrors(v: JsValue): seq<string> {
    if PositiveNumber(v) then [] else [AmountError]
  }

  /** On create the description is required and at most 200 characters as
      sent (before trimming). */
  function DescriptionErrors(v: JsValue): seq<string> {
    if !NonBlankString(v) then [DescriptionRequired]
    else if |v.s| > MaxDescription then [DescriptionTooLong]
    else []
  }

  /** On create the payer is required. */
  function PaidByErrors(v: JsValue): seq<string> {
    if NonBlankString(v) then [] else [PaidByRequired]
  }

  /** The create rules: all three fields checked, errors in field order. */
  function CreateErrors(b: Body): seq<string> {
    AmountErrors(b.amount) + DescriptionErrors(b.description) + PaidByErrors(b.paidBy)
  }

  /** On update a description that is sent must be non-blank and at most
      200 characters. */
  function UpdateDescriptionErrors(v: JsValue): seq<string> {
    if v.Undefined? then []
    else if !NonBlankString(v) then [DescriptionEmpty]
    else if |v.s| > MaxDescription then [DescriptionTooLong]
    else []
  }

  /** The update rules: the same conditions, applied only to the fields
      that are present, with their own messages. */
  function UpdateErrors(b: Body): seq<string> {
    (if b.amount.Undefined? then [] else AmountErrors(b.amount))
    + UpdateDescriptionErrors(b.description)
    + (if b.paidBy.Undefined? || NonBlankString(b.paidBy) then [] else [PaidByEmpty])
  }

  /** Pass the request on when there are no errors, otherwise answer 400. */
  function Decide(errors: seq<string>): Response {
    if errors == [] then CallNext else Reject(400, "Validation failed", errors)
  }

  // ---------------------------------------------------------------------
  // The middleware, check by check as the source writes it.
  // ---------------------------------------------------------------------

  /** `validateExpenseCreate` */
  method ValidateExpenseCreate(body: Body) returns (r: Response)
    ensures r == Decide(CreateErrors(body))
  {
    var amount, description, paidBy := body.amount, body.description, body.paidBy;
    if description.Str? {
      TrimEmptyIff(description.s);
    }
    if paidBy.Str? {
      TrimEmptyIff(paidBy.s);
    }
    var errors: seq<string> := [];

    if Falsy(amount) || !amount.Num? || amount.n <= 0.0 {
      errors := errors + [AmountError];
    }
    assert errors == AmountErrors(amount);

    if Falsy(description) || !description.Str? || |Trim(description.s)| == 0 {
      errors := errors + [DescriptionRequired];
    } else if |description.s| > MaxDescription {
      errors := errors + [DescriptionTooLong];
    }
    assert errors == AmountErrors(amount) + DescriptionErrors(description);

    if Falsy(paidBy) || !paidBy.Str? || |Trim(paidBy.s)| == 0 {
      errors := errors + [PaidByRequired];
    }
    assert errors == CreateErrors(body);

    if |errors| > 0 {
      return Reject(400, "Validation failed", errors);
    }
    r := CallNext;
  }

  /** `validateExpenseUpdate` */
  method ValidateExpenseUpdate(body: Body) returns (r: Response)
    ensures r == Decide(UpdateErrors(body))
  {
    var amount, description, paidBy := body.amount, body.description, body.paidBy;
    if description.Str? {
      TrimEmptyIff(description.s);
    }
    if paidBy.Str? {
      TrimEmptyIff(paidBy.s);
    }
    var errors: seq<string> := [];

    if !amount.Undefined? {
      if !amount.Num? || amount.n <= 0.0 {
        errors := errors + [AmountError];
      }
    }
    ghost var amountPart := errors;
    assert amountPart == if amount.Undefined? then [] else AmountErrors(amount);

    if !description.Undefined? {
      if !description.Str? || |Trim(description.s)| == 0 {
        errors := errors + [DescriptionEmpty];
      } else if |description.s| > MaxDescription {
        errors := errors + [DescriptionTooLong];
      }
    }
    assert errors == amountPart + UpdateDescriptionErrors(description);

    if !paidBy.Undefined? {
      if !paidBy.Str? || |Trim(paidBy.s)| == 0 {
        errors := errors + [PaidByEmpty];
      }
    }
    assert errors == UpdateErrors(body);

    if |errors| > 0 {
      return Reject(400, "Validation failed", errors);
    }
    r := CallNext;
  }

  /** `validateExpense`, kept for backward compatibility: the create
      validator under another name. */
  method ValidateExpense(body: Body) returns (r: Response)
    ensures r == Decide(CreateErrors(body))
  {
    r := ValidateExpenseCreate(body);
  }

  // ---------------------------------------------------------------------
  // Properties of the rules.
  // ---------------------------------------------------------------------

  /** A request is rejected exactly when there is an error, always with
      status 400 and the fixed message, and the errors are passed through. */
  lemma DecideShape(errors: seq<string>)
    ensures Decide(errors).CallNext? <==> errors == []
    ensures Decide(errors).Reject? ==>
      Decide(errors).status == 400 && Decide(errors).message == "Validation failed"
      && Decide(errors).errors == errors
  {
  }

  /** Create accepts exactly a positive number, a non-blank description of
      at most 200 characters, and a non-blank payer. */
  lemma CreateAcceptsIff(b: Body)
    ensures CreateErrors(b) == [] <==>
      PositiveNumber(b.amount) && NonBlankString(b.description)
      && |b.description.s| <= MaxDescription && NonBlankString(b.paidBy)
  {
  }

  /** Update accepts exactly when every field that is present would pass
      the create check for that field. */
  lemma UpdateAcceptsIff(b: Body)
    ensures UpdateErrors(b) == [] <==>
      (b.amount.Undefined? || PositiveNumber(b.amount))
      && (b.description.Undefined? || (NonBlankString(b.description) && |b.description.s| <= MaxDescription))
      && (b.paidBy.Undefined? || NonBlankString(b.paidBy))
  {
  }

  /** At most one error per field, so at most three, never both
      description errors; the amount error, when present, comes first. */
  lemma ErrorCounts(b: Body)
    ensures |CreateErrors(b)| <= 3 && |UpdateErrors(b)| <= 3
    ensures !(DescriptionRequired in CreateErrors(b) && DescriptionTooLong in CreateErrors(b))
    ensures !(DescriptionEmpty in UpdateErrors(b) && DescriptionTooLong in UpdateErrors(b))
    ensures AmountError in CreateErrors(b) ==> CreateErrors(b)[0] == AmountError
    ensures AmountError in UpdateErrors(b) ==> UpdateErrors(b)[0] == AmountError
  {
    MessageLengths();
    var a, d, p := AmountErrors(b.amount), DescriptionErrors(b.description), PaidByErrors(b.paidBy);
    assert CreateErrors(b) == a + d + p;
    var a' := if b.amount.Undefined? then [] else AmountErrors(b.amount);
    var d' := UpdateDescriptionErrors(b.description);
    var p' := if b.paidBy.Undefined? || NonBlankString(b.paidBy) then [] else [PaidByEmpty];
    assert UpdateErrors(b) == a' + d' + p';
    assert AmountError !in d && AmountError !in p && AmountError !in d' && AmountError !in p';
    assert DescriptionTooLong !in p && DescriptionTooLong !in p';
    assert DescriptionRequired !in p && DescriptionEmpty !in p';
  }

  /** Each create error, read back through the source's own tests: the
      amount error iff the amount is falsy, not a number or not above zero;
      "required" iff the description is falsy, not a string or empty once
      trimmed; "cannot exceed" iff it passes that test and is longer than
      200 characters as sent; the payer error iff the payer fails the same
      test as the description. */
  lemma CreateErrorsIff(b: Body)
    ensures AmountError in CreateErrors(b) <==> (Falsy(b.amount) || !b.amount.Num? || b.amount.n <= 0.0)
    ensures DescriptionRequired in CreateErrors(b) <==>
      (Falsy(b.description) || !b.description.Str? || |Trim(b.description.s)| == 0)
    ensures DescriptionTooLong in CreateErrors(b) <==>
      !(Falsy(b.description) || !b.description.Str? || |Trim(b.description.s)| == 0) && |b.description.s| > MaxDescription
    ensures PaidByRequired in CreateErrors(b) <==>
      (Falsy(b.paidBy) || !b.paidBy.Str? || |Trim(b.paidBy.s)| == 0)
  {
    MessageLengths();
    var a, d, p := AmountErrors(b.amount), DescriptionErrors(b.description), PaidByErrors(b.paidBy);
    assert CreateErrors(b) == a + d + p;
    assert AmountError !in d && AmountError !in p;
    assert DescriptionRequired !in a && DescriptionRequired !in p;
    assert DescriptionTooLong !in a && DescriptionTooLong !in p;
    assert PaidByRequired !in a && PaidByRequired !in d;
    if b.description.Str? {
      TrimEmptyIff(b.description.s);
    }
    if b.paidBy.Str? {
      TrimEmptyIff(b.paidBy.s);
    }
  }

  /** Create is the stricter of the two: whatever it accepts, update
      accepts; an update that sends no field at all is accepted. */
  lemma CreateStricterThanUpdate(b: Body)
    ensures CreateErrors(b) == [] ==> UpdateErrors(b) == []
    ensures UpdateErrors(Body(Undefined, Undefined, Undefined)) == []
  {
  }

  /** A body create accepts has a description and a payer that the schema
      keeps after trimming: both non-empty, the description within the
      schema's maxlength. */
  lemma CreateAcceptedFitsSchema(b: Body)
    requires CreateErrors(b) == []
    ensures b.amount.n > 0.0
    ensures Trim(b.description.s) != [] && |Trim(b.description.s)| <= MaxDescription
    ensures Trim(b.paidBy.s) != []
  {
    TrimEmptyIff(b.description.s);
    TrimEmptyIff(b.paidBy.s);
    TrimIsCore(b.description.s);
  }

  /** The validators and the schema disagree at the edges: an amount of half
      a cent passes the validator but is below the schema's minimum, and a
      description of 200 letters followed by a space is refused by the
      validator, which counts the untrimmed length, though the schema would
      store its 200 trimmed letters. */
  lemma ValidatorSchemaGaps(letters: string)
    requires |letters| == MaxDescription && forall k :: 0 <= k < |letters| ==> letters[k] == 'a'
    ensures PositiveNumber(Num(0.005)) && 0.005 < MinAmount
    ensures CreateErrors(Body(Num(1.0), Str(letters + " "), Str("A"))) == [DescriptionTooLong]
    ensures Trim(letters + " ") == letters && |Trim(letters + " ")| <= MaxDescription
  {
    var s := letters + " ";
    assert s[0] == 'a';
    assert !AllWhitespace(s) by {
      assert !IsWhitespace(s[0]);
    }
    assert !AllWhitespace("A") by {
      assert !IsWhitespace("A"[0]);
    }
    TrimOneTrailingSpace(letters);
  }

  /** Trimming a string of letters followed by one space drops the space. */
  lemma TrimOneTrailingSpace(letters: string)
    requires letters != [] && forall k :: 0 <= k < |letters| ==> letters[k] == 'a'
    ensures Trim(letters + " ") == letters
  {
    var s := letters + " ";
    assert !IsWhitespace(s[0]);
    assert LeadingWhitespace(s) == 0;
    assert s[0..] == s;
    assert IsWhitespace(s[|s| - 1]);
    assert s[..|s| - 1] == letters;
    assert TrailingWhitespace(s[..|s| - 1]) == 0 by {
      assert !IsWhitespace(letters[|letters| - 1]);
    }
    assert TrailingWhitespace(s) == 1;
  }
}
