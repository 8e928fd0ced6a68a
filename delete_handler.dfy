/** The REST handler for deleting the documents of a collection that match a
    query: the bulk-delete operation's result decides the status, the message
    (a count and a singular or plural label) and the body; an error thrown by the
    operation goes to the next error handler.

    The message text is left to translation; a message is its key and its
    arguments. */
module DeleteHandler {
  import opened Common

  /** What the delete operation returns: the deleted documents and the errors of
      those it could not delete. */
  datatype DeleteResult = DeleteResult(docs: seq<Doc>, errors: seq<Json>)

  /** Which of the collection's labels the message uses. */
  datatype Label = Singular | Plural

  datatype Message =
    | DeletedCountSuccessfully(count: nat, form: Label)        // `general:deletedCountSuccessfully`
    | UnableToDeleteCount(count: nat, total: nat, form: Label)  // `error:unableToDeleteCount`

  /** The JSON body: the message followed by every field of the operation's result. */
  datatype Body = Body(message: Message, result: DeleteResult)

  datatype HandlerOutcome =
    | Respond(status: nat, body: Body)
    | PassToNext(error: Error)

  const StatusOK: nat := 200
  const StatusBadRequest: nat := 400

  /** The label for a number of documents: plural when there is more than one. */
  function LabelFor(n: nat): Label {
    if n > 1 then Plural else Singular
  }

  /** The handler's answer for the operation's outcome. */
  function HandleDelete(op: Outcome<DeleteResult>): (h: HandlerOutcome)
    ensures op.Thrown? <==> h.PassToNext?
    ensures op.Thrown? ==> h.error == op.error
    ensures op.Ok? ==> h.body.result == op.value
    ensures op.Ok? ==> (h.status == StatusOK <==> |op.value.errors| == 0)
    ensures op.Ok? ==> (h.status == StatusBadRequest <==> |op.value.errors| > 0)
    ensures op.Ok? && |op.value.errors| == 0 ==> h.body.message == DeletedCountSuccessfully(|op.value.docs|, h.body.message.form)
    ensures op.Ok? && |op.value.errors| > 0 ==>
      h.body.message == UnableToDeleteCount(|op.value.errors|, |op.value.docs| + |op.value.errors|, h.body.message.form)
  {
    match op
    case Thrown(e) => PassToNext(e)
    case Ok(result) =>
      if |result.errors| == 0 then
        Respond(StatusOK, Body(DeletedCountSuccessfully(|result.docs|, LabelFor(|result.docs|)), result))
      else
        var total := |result.docs| + |result.errors|;
        Respond(StatusBadRequest, Body(UnableToDeleteCount(|result.errors|, total, LabelFor(total)), result))
  }

  /** The number of documents the request touched, whichever way it went. */
  function Targeted(r: DeleteResult): nat { |r.docs| + |r.errors| }

  /** In both branches the label is plural exactly when the request touched more
      than one document. */
  lemma LabelPluralIffSeveralTargeted(r: DeleteResult)
    ensures HandleDelete(Ok(r)).body.message.form == Plural <==> Targeted(r) > 1
  {
  }

  /** A failure message accounts for every document: those that failed plus
      those deleted make the total, and the total is never below the count. */
  lemma FailureAccountsForAll(r: DeleteResult)
    requires |r.errors| > 0
    ensures var m := HandleDelete(Ok(r)).body.message;
      m.UnableToDeleteCount? && m.total == m.count + |r.docs| && m.count <= m.total && m.total == Targeted(r)
  {
  }

  /** A success message counts every document the request touched. */
  lemma SuccessCountsAll(r: DeleteResult)
    requires |r.errors| == 0
    ensures var m := HandleDelete(Ok(r)).body.message;
      m.DeletedCountSuccessfully? && m.count == Targeted(r)
  {
  }
}
