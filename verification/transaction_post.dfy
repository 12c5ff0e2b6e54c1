/**
 * The acceptance decision of `TransactionListApi.post`: parse the request body
 * with `Transaction.from_dict`, validate it against the node, and write it only
 * when both succeed. The three collaborators are not modelled; their outcomes
 * are inputs, and the handler's result records which backend calls it made.
 */
module TransactionPost {
  import opened Results

  /** The exception classes the handler names; any other class is `Other`. */
  datatype ExcClass =
    | SchemaValidationError
    | ValidationError
    | InvalidSignature
    | ValueError
    | OperationError
    | TransactionDoesNotExist
    | TransactionOwnerError
    | DoubleSpend
    | InvalidHash
    | TransactionNotInValidBlock
    | AmountError
    | Other(name: string)

  /**
   * A raised exception: its own class, the classes it inherits from, and whether
   * `e.__cause__.message` can be read (the cause exists and has a `message`).
   */
  datatype Exception = Exception(cls: ExcClass, bases: set<ExcClass>, causeHasMessage: bool)

  /** The AttributeError raised when the schema branch reads a missing `e.__cause__.message`. */
  const MissingCauseMessage: Exception := Exception(Other("AttributeError"), {}, false)

  /** Python `isinstance(e, c)`. */
  predicate IsInstance(e: Exception, c: ExcClass) {
    c == e.cls || c in e.bases
  }

  /** An `except (C1, C2, ...)` clause catches `e`. */
  predicate CaughtBy(e: Exception, clause: set<ExcClass>) {
    exists c :: c in clause && IsInstance(e, c)
  }

  /** The second `except` around `Transaction.from_dict`. */
  const FromDictClause: set<ExcClass> := {ValidationError, InvalidSignature}

  /** The `except` around `validate_transaction`. */
  const ValidateClause: set<ExcClass> := {
    ValueError, OperationError, TransactionDoesNotExist, TransactionOwnerError, DoubleSpend,
    InvalidHash, InvalidSignature, TransactionNotInValidBlock, AmountError
  }

  /** Why a 400 was returned: a schema error, or another error named by its class. */
  datatype Reason = InvalidSchema | InvalidTransaction(errorClass: ExcClass)

  /** What the handler produces: a 400, the request body back (status 200), or an exception it lets escape. */
  datatype Response<B> = BadRequest(reason: Reason) | Echoed(body: B) | Escaped(exc: Exception)

  /** A call the handler makes on the node, in order. */
  datatype Call<T> = Validate(tx: T) | Write(tx: T)

  datatype Handled<B, T> = Handled(response: Response<B>, calls: seq<Call<T>>)

  /** How many times `write_transaction` was called. */
  function WriteCount<T>(calls: seq<Call<T>>): nat {
    if |calls| == 0 then 0
    else (if calls[0].Write? then 1 else 0) + WriteCount(calls[1..])
  }

  /** `write_transaction` was called for `tx`. */
  ghost predicate Wrote<T>(calls: seq<Call<T>>, tx: T) {
    exists i :: 0 <= i < |calls| && calls[i] == Write(tx)
  }

  /** The transaction was parsed and validated without error: the only case that should be written. */
  predicate Accepted<T>(parsed: Result<T, Exception>, verdict: Option<Exception>) {
    parsed.Success? && verdict.None?
  }

  /**
   * The handler. `body` is the JSON body of the request; `parsed` is what
   * `Transaction.from_dict(body)` returns or raises; `verdict` is `Some(e)`
   * when `validate_transaction` raises `e` and `None` when it returns;
   * `writeError` is `Some(e)` when `write_transaction` raises `e` and `None`
   * when it returns.
   */
  function Post<B, T>(body: B, parsed: Result<T, Exception>, verdict: Option<Exception>,
                      writeError: Option<Exception>): (h: Handled<B, T>)
    ensures parsed.Failure? ==> h.calls == []
    ensures parsed.Success? ==> |h.calls| >= 1 && h.calls[0] == Validate(parsed.value)
    ensures WriteCount(h.calls) == (if Accepted(parsed, verdict) then 1 else 0)
    ensures h.response.Echoed? <==> Accepted(parsed, verdict) && writeError.None?
    ensures h.response.Echoed? ==> h.response.body == body
  {
    match parsed
    case Failure(e) =>
      if IsInstance(e, SchemaValidationError) then
        if e.causeHasMessage then Handled(BadRequest(InvalidSchema), [])
        else Handled(Escaped(MissingCauseMessage), [])
      else if CaughtBy(e, FromDictClause) then Handled(BadRequest(InvalidTransaction(e.cls)), [])
      else Handled(Escaped(e), [])
    case Success(tx) =>
      match verdict
      case Some(e) =>
        if CaughtBy(e, ValidateClause) then Handled(BadRequest(InvalidTransaction(e.cls)), [Validate(tx)])
        else Handled(Escaped(e), [Validate(tx)])
      case None =>
        var calls := [Validate(tx), Write(tx)];
        assert WriteCount(calls[1..]) == 1;
        match writeError
        case Some(e) => Handled(Escaped(e), calls)
        case None => Handled(Echoed(body), calls)
  }

  /** `e` is a ValidationError or an InvalidSignature. */
  predicate FromDictCatches(e: Exception) {
    IsInstance(e, ValidationError) || IsInstance(e, InvalidSignature)
  }

  /**
   * A body `from_dict` rejects never reaches the node: a schema error gives a
   * schema 400 when its cause carries a message (and an AttributeError escapes
   * when it does not), any other validation or signature error a 400 naming its class,
   * and anything else escapes the handler.
   */
  lemma FromDictFailureNeverWrites<B, T>(body: B, e: Exception, verdict: Option<Exception>,
                                        writeError: Option<Exception>)
    ensures var h := Post<B, T>(body, Failure(e), verdict, writeError);
      && h.calls == []
      && (IsInstance(e, SchemaValidationError) && e.causeHasMessage ==> h.response == BadRequest(InvalidSchema))
      && (IsInstance(e, SchemaValidationError) && !e.causeHasMessage ==> h.response == Escaped(MissingCauseMessage))
      && (!IsInstance(e, SchemaValidationError) && FromDictCatches(e) ==> h.response == BadRequest(InvalidTransaction(e.cls)))
      && (!IsInstance(e, SchemaValidationError) && !FromDictCatches(e) ==> h.response == Escaped(e))
  {
    var h := Post<B, T>(body, Failure(e), verdict, writeError);
    if IsInstance(e, ValidationError) {
      assert ValidationError in FromDictClause;
    } else if IsInstance(e, InvalidSignature) {
      assert InvalidSignature in FromDictClause;
    }
  }

  /**
   * A parsed transaction that `validate_transaction` rejects with one of the
   * listed errors gets a 400 naming the error's class; it was validated and
   * never written.
   */
  lemma ListedValidationErrorIsBadRequest<B, T>(body: B, tx: T, e: Exception, c: ExcClass,
                                               writeError: Option<Exception>)
    requires c in ValidateClause && IsInstance(e, c)
    ensures var h := Post(body, Success(tx), Some(e), writeError);
      && h.response == BadRequest(InvalidTransaction(e.cls))
      && h.calls == [Validate(tx)]
      && !Wrote(h.calls, tx)
  {
  }

  /**
   * The write rule: `write_transaction` is called, exactly once and for the
   * parsed transaction, if and only if parsing and validation both succeeded;
   * and validation always comes first.
   */
  lemma WrittenIffAccepted<B, T>(body: B, parsed: Result<T, Exception>, verdict: Option<Exception>,
                                writeError: Option<Exception>)
    ensures var h := Post(body, parsed, verdict, writeError);
      && (Accepted(parsed, verdict) <==> WriteCount(h.calls) == 1)
      && (Accepted(parsed, verdict) ==> h.calls == [Validate(parsed.value), Write(parsed.value)])
      && (!Accepted(parsed, verdict) ==> forall i :: 0 <= i < |h.calls| ==> !h.calls[i].Write?)
  {
    var h := Post(body, parsed, verdict, writeError);
    if !Accepted(parsed, verdict) {
      forall i | 0 <= i < |h.calls|
        ensures !h.calls[i].Write?
      {
        assert parsed.Success? && h.calls == [Validate(parsed.value)];
      }
    }
  }

  /** A rejected transaction is never written: every 400 leaves the node's backlog untouched. */
  lemma BadRequestNeverWrites<B, T>(body: B, parsed: Result<T, Exception>, verdict: Option<Exception>,
                                   writeError: Option<Exception>)
    ensures var h := Post(body, parsed, verdict, writeError);
      h.response.BadRequest? ==> WriteCount(h.calls) == 0 && !Accepted(parsed, verdict)
  {
  }

  /** On success the response is the request body object itself, after one validate and one write. */
  lemma SuccessEchoesBody<B, T>(body: B, tx: T)
    ensures Post(body, Success(tx), None, None) == Handled(Echoed(body), [Validate(tx), Write(tx)])
  {
  }
}
