/** The read operation of a global (a singleton document): evaluate access unless
    it is overridden, fetch the document (a missing one reads as `{}`), swap in a
    draft when drafts are enabled and one was asked for, fold the `beforeRead`
    hooks, run the field-level `afterRead` pass, fold the `afterRead` hooks, and
    commit the transaction only when this call opened it. Any error rolls the
    transaction back and is rethrown.

    The database, the access rule, the draft lookup, the field-level pass and the
    transaction calls are collaborators given as values; what the operation asks
    of them is returned as a trace of calls. */
module GlobalFindOne {
  import opened Common
  import opened HookPipeline

  /** What an access rule evaluates to: a plain decision or a query constraint. */
  datatype AccessResult = Decision(allowed: bool) | Constraint(where: Json)

  datatype GlobalConfig = GlobalConfig(
    slug: string,
    drafts: bool,                  // `versions?.drafts` is truthy
    beforeRead: seq<Hook<Doc>>,
    afterRead: seq<Hook<Doc>>)

  /** The arguments of the operation; `None` is an omitted argument. */
  datatype FindOneArgs = FindOneArgs(
    slug: string,
    locale: Option<string>,        // the request's locale
    depth: Option<int>,
    showHiddenFields: Option<bool>,
    draft: Option<bool>,
    overrideAccess: Option<bool>)

  /** What the collaborators return (or throw) when called. */
  datatype Collaborators = Collaborators(
    initTransaction: Outcome<bool>,        // true: this call opened the transaction
    executeAccess: Outcome<AccessResult>,  // the global's read access rule
    findGlobal: (string, Option<string>, Option<AccessResult>) -> Outcome<Option<Doc>>,
    replaceWithDraft: (Doc, bool, Option<AccessResult>) -> Outcome<Doc>,
    fieldsAfterRead: (Doc, Option<int>, bool, Option<bool>) -> Outcome<Doc>,
    commitTransaction: Outcome<()>)

  /** A call the operation makes on a collaborator; `FindGlobal` records the `where` it passes. */
  datatype Call =
    | InitTransaction
    | ExecuteAccess
    | FindGlobal(where: Option<AccessResult>)
    | ReplaceWithDraft
    | FieldsAfterRead
    | CommitTransaction
    | KillTransaction

  /** What one run of the operation returns and which calls it made, in order. */
  datatype Run = Run(out: Outcome<Doc>, calls: seq<Call>)

  /** `overrideAccess` defaults to false. */
  function OverrideAccess(a: FindOneArgs): bool { a.overrideAccess.GetOr(false) }

  /** `draft` defaults to false. */
  function DraftRequested(a: FindOneArgs): bool { a.draft.GetOr(false) }

  /** A falsy result of `findGlobal` is replaced by the empty object. */
  function OrEmpty(found: Option<Doc>): Doc {
    found.GetOr(map[])
  }

  /** Everything between opening and committing the transaction. */
  function ReadPipeline(c: Collaborators, g: GlobalConfig, a: FindOneArgs): Run {
    var overrideAccess := OverrideAccess(a);
    if !overrideAccess && c.executeAccess.Thrown? then Run(Thrown(c.executeAccess.error), [ExecuteAccess])
    else
      var accessResult := if overrideAccess then None else Some(c.executeAccess.value);
      var where := if overrideAccess then None else accessResult;
      var fetchCalls := (if overrideAccess then [] else [ExecuteAccess]) + [FindGlobal(where)];
      var found := c.findGlobal(a.slug, a.locale, where);
      if found.Thrown? then Run(Thrown(found.error), fetchCalls)
      else
        var fetched := OrEmpty(found.value);
        var useDraft := g.drafts && DraftRequested(a);
        var drafted := if useDraft then c.replaceWithDraft(fetched, overrideAccess, accessResult) else Ok(fetched);
        var draftCalls := fetchCalls + (if useDraft then [ReplaceWithDraft] else []);
        if drafted.Thrown? then Run(Thrown(drafted.error), draftCalls)
        else
          var before := Fold(g.beforeRead, drafted.value);
          if before.Thrown? then Run(Thrown(before.error), draftCalls)
          else
            var fielded := c.fieldsAfterRead(before.value, a.depth, overrideAccess, a.showHiddenFields);
            var fieldCalls := draftCalls + [FieldsAfterRead];
            if fielded.Thrown? then Run(Thrown(fielded.error), fieldCalls)
            else Run(Fold(g.afterRead, fielded.value), fieldCalls)
  }

  /** The `try` block: open, read, and commit when this call is the opener. */
  function TryBlock(c: Collaborators, g: GlobalConfig, a: FindOneArgs): Run {
    match c.initTransaction
    case Thrown(e) => Run(Thrown(e), [InitTransaction])
    case Ok(shouldCommit) =>
      var read := ReadPipeline(c, g, a);
      var calls := [InitTransaction] + read.calls;
      if read.out.Thrown? || !shouldCommit then Run(read.out, calls)
      else if c.commitTransaction.Thrown? then Run(Thrown(c.commitTransaction.error), calls + [CommitTransaction])
      else Run(read.out, calls + [CommitTransaction])
  }

  /** The whole operation: the `catch` kills the transaction and rethrows. */
  function FindOneRun(c: Collaborators, g: GlobalConfig, a: FindOneArgs): Run {
    var attempt := TryBlock(c, g, a);
    if attempt.out.Thrown? then Run(attempt.out, attempt.calls + [KillTransaction]) else attempt
  }

  /** The operation as the source writes it: the `try` block opens the transaction,
      reads, and commits when it is the opener; the `catch` kills and rethrows. */
  method FindOne(c: Collaborators, g: GlobalConfig, a: FindOneArgs) returns (result: Outcome<Doc>, calls: seq<Call>)
    ensures Run(result, calls) == FindOneRun(c, g, a)
  {
    calls := [InitTransaction];
    var init := c.initTransaction;
    if init.Thrown? {
      result := Thrown(init.error);
    } else {
      var shouldCommit := init.value;
      var readCalls;
      result, readCalls := Read(c, g, a);
      calls := calls + readCalls;
      if result.Ok? && shouldCommit {
        calls := calls + [CommitTransaction];
        var committed := c.commitTransaction;
        if committed.Thrown? {
          result := Thrown(committed.error);
        }
      }
    }
    if result.Thrown? {
      calls := calls + [KillTransaction];
    }
  }

  /** The body of the `try` block between opening and committing: `doc` is
      reassigned step by step, and the first failure returns. */
  method Read(c: Collaborators, g: GlobalConfig, a: FindOneArgs) returns (result: Outcome<Doc>, calls: seq<Call>)
    ensures Run(result, calls) == ReadPipeline(c, g, a)
  {
    var draftEnabled := DraftRequested(a);
    var overrideAccess := OverrideAccess(a);
    calls := [];

    var accessResult: Option<AccessResult> := None;
    if !overrideAccess {
      calls := calls + [ExecuteAccess];
      var access := c.executeAccess;
      if access.Thrown? {
        return Thrown(access.error), calls;
      }
      accessResult := Some(access.value);
    }

    var where := if overrideAccess then None else accessResult;
    calls := calls + [FindGlobal(where)];
    var found := c.findGlobal(a.slug, a.locale, where);
    if found.Thrown? {
      return Thrown(found.error), calls;
    }
    var doc := found.value.GetOr(map[]);

    if g.drafts && draftEnabled {
      calls := calls + [ReplaceWithDraft];
      var drafted := c.replaceWithDraft(doc, overrideAccess, accessResult);
      if drafted.Thrown? {
        return Thrown(drafted.error), calls;
      }
      doc := drafted.value;
    }

    var before := RunHooks(g.beforeRead, doc);
    if before.Thrown? {
      return before, calls;
    }
    doc := before.value;

    calls := calls + [FieldsAfterRead];
    var fielded := c.fieldsAfterRead(doc, a.depth, overrideAccess, a.showHiddenFields);
    if fielded.Thrown? {
      return Thrown(fielded.error), calls;
    }
    doc := fielded.value;

    result := RunHooks(g.afterRead, doc);
  }

  // ----- Properties of the operation -----

  /** Given what each stage produced, the operation returns the `afterRead` fold of
      the field-level pass over the `beforeRead` fold of the fetched (or `{}`, or
      draft) document: each phase sees the previous one's output, in that order. */
  lemma SuccessfulRead(c: Collaborators, g: GlobalConfig, a: FindOneArgs, access: Option<AccessResult>,
                       found: Option<Doc>, drafted: Doc, before: Doc, fielded: Doc)
    requires c.initTransaction == Ok(false) || (c.initTransaction == Ok(true) && c.commitTransaction.Ok?)
    requires OverrideAccess(a) ==> access.None?
    requires !OverrideAccess(a) ==> c.executeAccess.Ok? && access == Some(c.executeAccess.value)
    requires c.findGlobal(a.slug, a.locale, access) == Ok(found)
    requires if g.drafts && DraftRequested(a)
             then c.replaceWithDraft(OrEmpty(found), OverrideAccess(a), access) == Ok(drafted)
             else drafted == OrEmpty(found)
    requires Fold(g.beforeRead, drafted) == Ok(before)
    requires c.fieldsAfterRead(before, a.depth, OverrideAccess(a), a.showHiddenFields) == Ok(fielded)
    ensures FindOneRun(c, g, a).out == Fold(g.afterRead, fielded)
  {
  }

  /** A global the database does not have is read as `{}`: with no draft, no hooks
      and a field pass that changes nothing, the operation returns the empty object. */
  lemma MissingGlobalReadsAsEmpty(c: Collaborators, g: GlobalConfig, a: FindOneArgs)
    requires c.initTransaction == Ok(false)
    requires OverrideAccess(a)
    requires c.findGlobal(a.slug, a.locale, None) == Ok(None)
    requires !DraftRequested(a)
    requires g.beforeRead == [] && g.afterRead == []
    requires forall d :: c.fieldsAfterRead(d, a.depth, true, a.showHiddenFields) == Ok(d)
    ensures FindOneRun(c, g, a) == Run(Ok(map[]), [InitTransaction, FindGlobal(None), FieldsAfterRead])
  {
    assert c.fieldsAfterRead(map[], a.depth, true, a.showHiddenFields) == Ok(map[]);
  }

  /** Access is evaluated exactly when it is not overridden, and the `where` handed
      to the database is absent under override and the access result otherwise. */
  lemma AccessOnlyWithoutOverride(c: Collaborators, g: GlobalConfig, a: FindOneArgs)
    requires c.initTransaction.Ok?
    ensures ExecuteAccess in FindOneRun(c, g, a).calls <==> !OverrideAccess(a)
    ensures forall i :: 0 <= i < |FindOneRun(c, g, a).calls| && FindOneRun(c, g, a).calls[i].FindGlobal? ==>
              FindOneRun(c, g, a).calls[i].where == (if OverrideAccess(a) then None else Some(c.executeAccess.value))
  {
    var read := ReadPipeline(c, g, a);
    var calls := FindOneRun(c, g, a).calls;
    ReadCallsShape(c, g, a);
    RunCallsShape(c, g, a);
    forall i | 0 <= i < |calls|
      ensures calls[i] == ExecuteAccess ==> !OverrideAccess(a)
      ensures calls[i].FindGlobal? ==> calls[i] == FindGlobal(if OverrideAccess(a) then None else Some(c.executeAccess.value))
    {
      if 1 <= i <= |read.calls| {
        assert calls[i] == read.calls[i - 1];
      }
    }
    if !OverrideAccess(a) {
      assert calls[1] == ExecuteAccess;
    }
  }

  /** The calls of a run whose transaction opened: `initTransaction`, the read's
      calls, then at most the commit and the kill. */
  lemma RunCallsShape(c: Collaborators, g: GlobalConfig, a: FindOneArgs)
    requires c.initTransaction.Ok?
    ensures var read := ReadPipeline(c, g, a);
      var calls := FindOneRun(c, g, a).calls;
      |calls| >= 1 + |read.calls| && calls[0] == InitTransaction
      && (forall i :: 0 <= i < |read.calls| ==> calls[i + 1] == read.calls[i])
      && (forall i :: 1 + |read.calls| <= i < |calls| ==> calls[i] == CommitTransaction || calls[i] == KillTransaction)
  {
  }

  /** The calls of the read: access (unless overridden), then the fetch with its
      `where`, then only the draft and field-level calls. */
  lemma ReadCallsShape(c: Collaborators, g: GlobalConfig, a: FindOneArgs)
    ensures var r := ReadPipeline(c, g, a);
      var k := if OverrideAccess(a) then 0 else 1;
      |r.calls| >= 1
      && (!OverrideAccess(a) ==> r.calls[0] == ExecuteAccess)
      && (|r.calls| > k ==> r.calls[k] == FindGlobal(if OverrideAccess(a) then None else Some(c.executeAccess.value)))
      && (forall i :: k < i < |r.calls| ==> r.calls[i] == ReplaceWithDraft || r.calls[i] == FieldsAfterRead)
  {
  }

  /** A draft replaces the document only when the global has drafts enabled and a
      draft was asked for; when both hold and the fetch succeeded, it always does. */
  lemma DraftOnlyWhenEnabledAndRequested(c: Collaborators, g: GlobalConfig, a: FindOneArgs)
    ensures ReplaceWithDraft in FindOneRun(c, g, a).calls ==> g.drafts && DraftRequested(a)
    ensures c.initTransaction.Ok? && (OverrideAccess(a) || c.executeAccess.Ok?)
            && c.findGlobal(a.slug, a.locale, if OverrideAccess(a) then None else Some(c.executeAccess.value)).Ok?
            && g.drafts && DraftRequested(a)
            ==> ReplaceWithDraft in FindOneRun(c, g, a).calls
  {
    var r := ReadPipeline(c, g, a);
    if c.initTransaction.Ok? && (OverrideAccess(a) || c.executeAccess.Ok?)
       && c.findGlobal(a.slug, a.locale, if OverrideAccess(a) then None else Some(c.executeAccess.value)).Ok?
       && g.drafts && DraftRequested(a) {
      var k := if OverrideAccess(a) then 1 else 2;
      assert r.calls[k] == ReplaceWithDraft;
      assert FindOneRun(c, g, a).calls[k + 1] == ReplaceWithDraft;
    }
  }

  /** A commit is issued exactly when this call opened the transaction and every
      step up to and including the `afterRead` hooks succeeded. */
  lemma CommitOnlyByOpenerAfterHooks(c: Collaborators, g: GlobalConfig, a: FindOneArgs)
    ensures CommitTransaction in FindOneRun(c, g, a).calls
            <==> c.initTransaction == Ok(true) && ReadPipeline(c, g, a).out.Ok?
  {
    assert CommitTransaction !in ReadPipeline(c, g, a).calls;
  }

  /** On any error the transaction is killed as the very last call, the error is
      the one the `try` block raised, and no commit succeeded; on success nothing is killed. */
  lemma ErrorKillsAndRethrows(c: Collaborators, g: GlobalConfig, a: FindOneArgs)
    ensures var r := FindOneRun(c, g, a);
      r.out == TryBlock(c, g, a).out
      && (r.out.Thrown? ==> r.calls != [] && r.calls[|r.calls| - 1] == KillTransaction)
      && (r.out.Thrown? && CommitTransaction in r.calls ==> c.commitTransaction == Thrown(r.out.error))
      && (r.out.Ok? ==> KillTransaction !in r.calls)
  {
    assert KillTransaction !in ReadPipeline(c, g, a).calls;
  }

  /** Omitting `overrideAccess` or `draft` is the same as passing `false`. */
  lemma OmittedFlagsDefaultToFalse(c: Collaborators, g: GlobalConfig, a: FindOneArgs)
    ensures FindOneRun(c, g, a.(overrideAccess := None)) == FindOneRun(c, g, a.(overrideAccess := Some(false)))
    ensures FindOneRun(c, g, a.(draft := None)) == FindOneRun(c, g, a.(draft := Some(false)))
  {
  }
}
