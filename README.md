# Payload CMS: core operations, modelled and proved in Dafny

This project models eight small parts of Payload, a headless CMS written in TypeScript. Each is a
sequential rule inside an operation, a request handler or an admin-panel component:

- **Global read** (`globals/operations/findOne.ts`). Evaluate read access unless it is overridden,
  fetch the global (a missing one reads as `{}`), swap in a draft, fold the `beforeRead` hooks, run
  the field-level `afterRead` pass, fold the `afterRead` hooks, commit only when this call opened
  the transaction, and kill the transaction and rethrow on any error.
- **Token refresh** (`auth/operations/refresh.ts`). Fold the `beforeOperation` hooks over the
  arguments, refuse a non-string token, look the user up (depth 0 for GraphQL, the auth depth
  otherwise), sign a new token, set the `<prefix>-token` cookie when there is a response, fold
  the `afterRefresh` hooks over the result, run `afterOperation`, and drop the token when the
  collection asks for that.
- **Rich-text population** (`fields/richText/populate.ts`). Build the nine-part loader key and write
  exactly one entry of the caller's object.
- **Preference deletion** (`preferences/deleteUserPreferences.ts`). The `deleteMany` requests issued
  on `payload-preferences` when users are removed.
- **Access resolver** (`auth/graphql/resolvers/access.ts`). `formatConfigNames` re-keys a copy of
  the access results under GraphQL names; the resolver spreads the results together.
- **Bulk-delete handler** (`collections/requestHandlers/delete.ts`). Status, message count, total
  and label, chosen from the operation's result.
- **Upload file deletion** (`uploads/deleteAssociatedFiles.ts`). The main file and then every size
  file are unlinked, one at a time, behind the upload and `overrideDelete`/`files` guards.
- **Blocks field** (`admin/components/forms/field-types/Blocks/index.tsx`). The decisions the
  component takes while rendering.

The shared hook fold, "each hook may return a replacement, and a falsy return keeps the current
value", is one generic function, `HookPipeline.Fold`. It has a loop method, `HookPipeline.RunHooks`,
proved equal to it. The two operations use that loop.

Code that changes state step by step is modelled as methods proved equal to specification
functions:
- `FindOne` and `Read` reassign `doc`.
- `Refresh` reassigns `args` and `result`.
- `Populate` writes into a `DataRef` object.
- `FormatConfigNames` loops over the configs.
- `DeleteAssociatedFiles` unlinks from a `FileSystem` object.

Everything else is functions and lemmas.

Collaborators whose code is not modelled are given as values or functions of the model. Their
effects come back as a list:
- For the global read: the database, the access rule, the draft lookup, the field-level
  `afterRead`, and the transaction calls. The list is a trace of calls.
- For the refresh: `url.parse`, `findByID`, the fields to sign, `jwt.sign`/`jwt.decode`, the cookie
  expiry, and `afterOperation`. The list holds the effects: the user lookup and the cookie set.

Files: `common.dfy` (JSON values, `Option`, `Outcome`, decimal text), `hooks.dfy`, `find_one.dfy`,
`refresh.dfy`, `populate.dfy`, `delete_user_preferences.dfy`, `access_resolver.dfy`,
`delete_handler.dfy`, `delete_associated_files.dfy`, `blocks_field.dfy`.

## Model

| member | source | states |
|---|---|---|
| HookPipeline.Fold | packages/payload/src/globals/operations/findOne.ts:83-90 | no contract; its meaning is proved in RunHooks, FoldAppend, LastHookSeesPrefix, FoldFalsyKeeps, FoldResultOrigin, FoldErrorOrigin and FoldNeverThrows |
| HookPipeline.RunHooks | packages/payload/src/globals/operations/findOne.ts:83-90 | the hook loop (each hook awaited in turn, its falsy result replaced by `doc`) returns exactly the fold of the hooks over the starting value |
| HookPipeline.FoldAppend | packages/payload/src/globals/operations/findOne.ts:83-90 | hooks run in list order: folding `a + b` is folding `a`, then folding `b` from its result, unless `a` threw |
| HookPipeline.LastHookSeesPrefix | packages/payload/src/globals/operations/findOne.ts:83-90 | the last hook of a phase is handed what all earlier hooks left |
| HookPipeline.FoldFalsyKeeps | packages/payload/src/globals/operations/findOne.ts:86-89 | hooks that return only falsy values, and do not mutate what they are handed, leave the value unchanged |
| HookPipeline.FoldResultOrigin | packages/payload/src/globals/operations/findOne.ts:86-89 | a phase's result is the starting value or a value some hook returned |
| HookPipeline.FoldErrorOrigin | packages/payload/src/globals/operations/findOne.ts:83-90 | a phase that throws rethrows an error one of its hooks threw |
| HookPipeline.FoldNeverThrows | packages/payload/src/auth/operations/refresh.ts:111-121 | hooks that never throw give a phase that never throws |
| GlobalFindOne.FindOneRun | packages/payload/src/globals/operations/findOne.ts:22-134 | no contract; its meaning is proved in FindOne, CommitOnlyByOpenerAfterHooks, ErrorKillsAndRethrows and OmittedFlagsDefaultToFalse |
| GlobalFindOne.TryBlock | packages/payload/src/globals/operations/findOne.ts:37-129 | no contract; its meaning is proved in CommitOnlyByOpenerAfterHooks and ErrorKillsAndRethrows |
| GlobalFindOne.ReadPipeline | packages/payload/src/globals/operations/findOne.ts:44-117 | no contract; its meaning is proved in Read, SuccessfulRead, MissingGlobalReadsAsEmpty, AccessOnlyWithoutOverride and DraftOnlyWhenEnabledAndRequested |
| GlobalFindOne.FindOne | packages/payload/src/globals/operations/findOne.ts:22-134 | the try/catch method returns the result and makes the calls, in order, that the specification function gives |
| GlobalFindOne.Read | packages/payload/src/globals/operations/findOne.ts:44-117 | the step-by-step reassignment of `doc` returns the result and makes the calls that the read pipeline gives |
| GlobalFindOne.SuccessfulRead | packages/payload/src/globals/operations/findOne.ts:54-117 | on success the output is the `afterRead` fold over the field-level pass over the `beforeRead` fold of the fetched, `{}` or draft document: each phase sees the previous phase's output |
| GlobalFindOne.MissingGlobalReadsAsEmpty | packages/payload/src/globals/operations/findOne.ts:60-62 | with access overridden, no draft requested, no afterRead hooks and a field pass that returns its input, a global the database lacks is read as `{}`; the general case is SuccessfulRead with `found == None`, which yields `OrEmpty(None)` |
| GlobalFindOne.ReadCallsShape | packages/payload/src/globals/operations/findOne.ts:44-104 | the read calls access only without override, first; then the fetch with its `where`; then only the draft and field-level calls |
| GlobalFindOne.RunCallsShape | packages/payload/src/globals/operations/findOne.ts:37-133 | once the transaction opened, a run's calls are `initTransaction`, the read's calls in order, then at most the commit and the kill |
| GlobalFindOne.AccessOnlyWithoutOverride | packages/payload/src/globals/operations/findOne.ts:46-58 | access is evaluated iff it is not overridden; the `where` passed to the database is absent under override and the access result otherwise |
| GlobalFindOne.DraftOnlyWhenEnabledAndRequested | packages/payload/src/globals/operations/findOne.ts:68-77 | a draft is looked up only when drafts are enabled and a draft was requested, and always then, once the fetch succeeded |
| GlobalFindOne.CommitOnlyByOpenerAfterHooks | packages/payload/src/globals/operations/findOne.ts:38-123 | a commit is issued iff this call opened the transaction and every step through the `afterRead` hooks succeeded |
| GlobalFindOne.ErrorKillsAndRethrows | packages/payload/src/globals/operations/findOne.ts:130-133 | on any error the transaction is killed as the last call and the try block's error is rethrown; on success nothing is killed |
| GlobalFindOne.OmittedFlagsDefaultToFalse | packages/payload/src/globals/operations/findOne.ts:33-34 | omitting `overrideAccess` or `draft` behaves as passing `false` |
| AuthRefresh.RefreshRun | packages/payload/src/auth/operations/refresh.ts:25-143 | no contract; its meaning is proved in Refresh, TokenGuardAfterHooks, CookieSetOnlyWithResponse, CookieSurvivesLaterFailure, LastAfterRefreshReplacementWins, TokenRemovedExactlyWhenConfigured and NoTokenWhenRemoved |
| AuthRefresh.Refresh | packages/payload/src/auth/operations/refresh.ts:25-143 | the method with its hook loops returns the result and produces the effects the specification function gives |
| AuthRefresh.TokenGuardAfterHooks | packages/payload/src/auth/operations/refresh.ts:32-68 | a non-string token left by the `beforeOperation` hooks raises Forbidden before anything else happens; a string token leads to the user lookup at depth 0 for GraphQL requests and at the auth depth otherwise |
| AuthRefresh.TokenCookie | packages/payload/src/auth/operations/refresh.ts:87-98 | the cookie is `<cookiePrefix>-token` holding the new token, with path `/`, `httpOnly`, and the configured domain only when it is truthy |
| AuthRefresh.CookieSetOnlyWithResponse | packages/payload/src/auth/operations/refresh.ts:86-99 | once the user is found, exactly one cookie is set when `res` is present and none otherwise, with the options above |
| AuthRefresh.CookieSurvivesLaterFailure | packages/payload/src/auth/operations/refresh.ts:86-132 | a cookie already set stays set when a later hook throws |
| AuthRefresh.AfterRefreshPhase | packages/payload/src/auth/operations/refresh.ts:111-121 | each `afterRefresh` hook is given `exp` and the token, never the current result |
| AuthRefresh.LastAfterRefreshReplacementWins | packages/payload/src/auth/operations/refresh.ts:111-132 | each hook is called with the new `exp` and token; if the hooks before `j` do not throw, hook `j` returns `w` and the later hooks return nothing, the result after the `afterRefresh` hooks is `w` (stripped of its token when configured) |
| AuthRefresh.StripToken | packages/payload/src/auth/operations/refresh.ts:138-140 | stripping removes only `refreshedToken`, and only when configured |
| AuthRefresh.TokenRemovedExactlyWhenConfigured | packages/payload/src/auth/operations/refresh.ts:76-142 | when every `afterRefresh` hook returns nothing for the new `exp` and token and `afterOperation` keeps the result, the returned result lacks the token iff `removeTokenFromResponses` is set, and otherwise carries the newly signed token |
| AuthRefresh.NoTokenWhenRemoved | packages/payload/src/auth/operations/refresh.ts:138-142 | whatever the hooks return, a collection that removes tokens never returns one |
| RichTextPopulate.LoaderKey | packages/payload/src/fields/richText/populate.ts:34-44 | the loader key has nine components |
| RichTextPopulate.KeyRoundTrip | packages/payload/src/fields/richText/populate.ts:34-44 | the key reads back as transaction, slug, id, depth, `currentDepth + 1`, locale, fallback locale, `overrideAccess` (false when undefined) and `showHiddenFields`, in that order |
| RichTextPopulate.SameKeyIffSameLookup | packages/payload/src/fields/richText/populate.ts:34-44 | two calls share a loader key iff they ask for the same lookup; an undefined `overrideAccess` shares the key of `false` |
| RichTextPopulate.Populated | packages/payload/src/fields/richText/populate.ts:46-50 | the value written is the found document, or null iff nothing was found |
| RichTextPopulate.Populate | packages/payload/src/fields/richText/populate.ts:32-50 | when the loader answers, `data[key]` becomes the loaded document or null; when it throws, populate rejects with that error and `data` is unchanged; every other entry of `data` is always unchanged |
| UserPreferences.DeleteUserPreferences | packages/payload/src/preferences/deleteUserPreferences.ts:14-34 | no contract; its meaning is proved in RequestsIssued, KeyTargetedIffOwnedById and OwnerRequestIgnoresSlug |
| UserPreferences.PreferenceKeys | packages/payload/src/preferences/deleteUserPreferences.ts:30 | no contract; its meaning is proved in KeyTargetedIffOwnedById and RequestsIssued |
| UserPreferences.DeleteUserPreferencesIntended | packages/payload/src/preferences/deleteUserPreferences.ts:14-34 | no contract; its meaning is proved in IntendedOwnerRequestUsesSlug |
| UserPreferences.RequestsIssued | packages/payload/src/preferences/deleteUserPreferences.ts:14-33 | the key request is always issued, last, on `payload-preferences`; its keys are `collection-<slug>-<id>`, one per id and in order; auth adds exactly one owner request first |
| UserPreferences.KeyTargetedIffOwnedById | packages/payload/src/preferences/deleteUserPreferences.ts:30 | a key is targeted iff it is the key of one of the ids; no ids give no keys |
| UserPreferences.KeyOwnerRoundTrip | packages/payload/src/preferences/deleteUserPreferences.ts:30 | the id text can be read back from a key |
| UserPreferences.OwnerRequestIgnoresSlug | packages/payload/src/preferences/deleteUserPreferences.ts:20-22 | as written, the owner request compares `userCollection` with the fixed text `collectionConfig.slug,`, not with the slug |
| UserPreferences.IntendedOwnerRequestUsesSlug | packages/payload/src/preferences/deleteUserPreferences.ts:15-33 | corrected, the owner request compares `userCollection` with the collection's slug, and the key request is unchanged |
| AccessResolver.IndexKeyed | packages/payload/src/auth/graphql/resolvers/access.ts:9 | the keys are exactly the index texts `0` … `n-1`, and key `${i}` holds item `i` |
| AccessResolver.SpreadValue | packages/payload/src/auth/graphql/resolvers/access.ts:6-9 | spreading copies an object's fields; an array gives exactly one property per index, holding that item; a string gives exactly one property per index, holding that character; null, undefined, booleans and numbers give nothing |
| AccessResolver.RenameOne | packages/payload/src/auth/graphql/resolvers/access.ts:9-11 | no contract; its meaning is proved in FormattedEntry, RawSlugRemoved and OtherKeyKept |
| AccessResolver.Renamed | packages/payload/src/auth/graphql/resolvers/access.ts:5-15 | no contract; its meaning is proved in FormatConfigNames, FormattedEntry, RawSlugRemoved, OtherKeyKept and RenamedKeys |
| AccessResolver.FormatConfigNames | packages/payload/src/auth/graphql/resolvers/access.ts:5-15 | the loop over the configs returns the copy re-keyed slug by slug, in config order; the input is a value and is not changed |
| AccessResolver.FormattedEntry | packages/payload/src/auth/graphql/resolvers/access.ts:8-12 | with distinct names, each formatted name holds a copy of its slug's entry, or `{}` when that entry is absent |
| AccessResolver.RawSlugRemoved | packages/payload/src/auth/graphql/resolvers/access.ts:10-11 | with distinct names, a slug whose formatted name differs from it is removed |
| AccessResolver.OtherKeyKept | packages/payload/src/auth/graphql/resolvers/access.ts:6-14 | a key that is neither a slug nor a formatted name keeps its input entry |
| AccessResolver.RenamedKeys | packages/payload/src/auth/graphql/resolvers/access.ts:6-14 | the copy holds only input keys and formatted names |
| AccessResolver.ResolveAccess | packages/payload/src/auth/graphql/resolvers/access.ts:25-29 | on a key clash formatted globals win over formatted collections, which win over the raw access results; the keys are the union of the three |
| AccessResolver.CollectionUnderFormattedName | packages/payload/src/auth/graphql/resolvers/access.ts:25-29 | with distinct names, a collection's permissions appear under its GraphQL name unless a global claims that name |
| AccessResolver.GlobalUnderFormattedName | packages/payload/src/auth/graphql/resolvers/access.ts:25-29 | with distinct names, a global's permissions always appear under its GraphQL name |
| DeleteHandler.HandleDelete | packages/payload/src/collections/requestHandlers/delete.ts:14-50 | a thrown error goes to `next` with no status; otherwise the status is 200 iff there are no errors (else 400), the count is the deleted docs or the errors, the total is docs plus errors, and the body carries the whole result |
| DeleteHandler.LabelPluralIffSeveralTargeted | packages/payload/src/collections/requestHandlers/delete.ts:23-41 | in both branches the label is plural iff more than one document was targeted |
| DeleteHandler.FailureAccountsForAll | packages/payload/src/collections/requestHandlers/delete.ts:36-41 | a failure message's total is its count plus the deleted docs |
| DeleteHandler.SuccessCountsAll | packages/payload/src/collections/requestHandlers/delete.ts:23-27 | a success message counts every document touched |
| UploadFiles.DeleteAssociatedFilesSpec | packages/payload/src/uploads/deleteAssociatedFiles.ts:19-61 | no contract; its meaning is proved in DeleteAssociatedFiles, OnlyTargetsRemoved, CleanRunRemovesAllTargets, FailureStopsRun and NothingDeletedWhenGuarded |
| UploadFiles.Unlink | packages/payload/src/uploads/deleteAssociatedFiles.ts:32-59 | no contract; its meaning is proved in UnlinkStopsAtFirstFailure |
| UploadFiles.Targets | packages/payload/src/uploads/deleteAssociatedFiles.ts:32-49 | the visited paths are `staticPath/filename`, then one per size in `sizes` order |
| UploadFiles.FileSystem.RemoveIfPresent | packages/payload/src/uploads/deleteAssociatedFiles.ts:34-40 | a faulty path fails; otherwise the path is removed if present, and an absent path is not an error |
| UploadFiles.DeleteAssociatedFiles | packages/payload/src/uploads/deleteAssociatedFiles.ts:19-61 | the method's error and remaining files are those of the specification function |
| UploadFiles.StopIndex | packages/payload/src/uploads/deleteAssociatedFiles.ts:34-58 | gives the first target that stops the run, or the end when none does |
| UploadFiles.UnlinkStopsAtFirstFailure | packages/payload/src/uploads/deleteAssociatedFiles.ts:32-59 | a run removes exactly the present targets before the first failing one, then raises its error; with no failing target it removes them all and raises nothing |
| UploadFiles.OnlyTargetsRemoved | packages/payload/src/uploads/deleteAssociatedFiles.ts:27-59 | no file is added, and only the main file and the size files can disappear |
| UploadFiles.CleanRunRemovesAllTargets | packages/payload/src/uploads/deleteAssociatedFiles.ts:32-59 | when nothing fails, every target is gone and every other file stays |
| UploadFiles.FailureStopsRun | packages/payload/src/uploads/deleteAssociatedFiles.ts:34-58 | the first failure raises ErrorDeletingFile (TypeError for an unreadable size) and no later target is touched |
| UploadFiles.NothingDeletedWhenGuarded | packages/payload/src/uploads/deleteAssociatedFiles.ts:27-28 | without an upload config, or with neither `overrideDelete` nor files, nothing is deleted |
| BlocksField.EffectiveDefaultLocale | packages/payload/src/admin/components/forms/field-types/Blocks/index.tsx:72 | the default locale is never empty: the configured one when truthy, else `en` |
| BlocksField.EditingDefaultLocale | packages/payload/src/admin/components/forms/field-types/Blocks/index.tsx:70-77 | no contract; its meaning is proved in OneDefaultLocaleWithFallback |
| BlocksField.OneDefaultLocaleWithFallback | packages/payload/src/admin/components/forms/field-types/Blocks/index.tsx:70-77 | with fallback exactly one locale is the default (`en` when unset); without localization or fallback every locale is |
| BlocksField.MergedOptions | packages/payload/src/admin/components/forms/field-types/Blocks/index.tsx:84 | the validator's options are the given ones with `minRows`, `maxRows` and `required` set over them |
| BlocksField.MemoizedValidate | packages/payload/src/admin/components/forms/field-types/Blocks/index.tsx:79-85 | no contract; NullAcceptedOffDefaultLocale proves that it returns Valid for null off the default locale and the validator's verdict on the merged options in every other case |
| BlocksField.NullAcceptedOffDefaultLocale | packages/payload/src/admin/components/forms/field-types/Blocks/index.tsx:79-85 | off the default locale null is valid whatever the validator says; `undefined` and every other value, and every value on the default locale, get the validator's verdict on the merged options |
| BlocksField.HasMaxRows | packages/payload/src/admin/components/forms/field-types/Blocks/index.tsx:142 | no contract; its meaning is proved in AddControlStopsAtCap |
| BlocksField.ShowAddControl | packages/payload/src/admin/components/forms/field-types/Blocks/index.tsx:273 | no contract; its meaning is proved in AddControlStopsAtCap |
| BlocksField.AddControlStopsAtCap | packages/payload/src/admin/components/forms/field-types/Blocks/index.tsx:142 | on a writable field (the `!readOnly && !hasMaxRows` test at line 273) the add control shows iff rows are below a positive cap; an undefined or zero cap never hides it; a read-only field never shows it |
| BlocksField.FieldErrorCount | packages/payload/src/admin/components/forms/field-types/Blocks/index.tsx:144 | no contract; its meaning is proved in FieldErrorCountAppend and FieldErrorCountZero |
| BlocksField.FieldHasErrors | packages/payload/src/admin/components/forms/field-types/Blocks/index.tsx:145 | no contract; its meaning is proved in HasErrorsIffSomeRowOrInvalid |
| BlocksField.FieldErrorCountAppend | packages/payload/src/admin/components/forms/field-types/Blocks/index.tsx:144 | the error count adds up over consecutive rows |
| BlocksField.FieldErrorCountZero | packages/payload/src/admin/components/forms/field-types/Blocks/index.tsx:144 | the error count is zero iff no row reports a child error (a missing set counts 0) |
| BlocksField.HasErrorsIffSomeRowOrInvalid | packages/payload/src/admin/components/forms/field-types/Blocks/index.tsx:144-145 | the field shows errors iff it was submitted and is invalid or some row reports a child error |
| BlocksField.BlockToRender | packages/payload/src/admin/components/forms/field-types/Blocks/index.tsx:218 | the block found is the first whose slug equals the row's type; none iff no slug matches |
| BlocksField.RenderRows | packages/payload/src/admin/components/forms/field-types/Blocks/index.tsx:216-254 | one entry per row, and nothing for a row of unknown type |
| BlocksField.RowRendersIffKnownType | packages/payload/src/admin/components/forms/field-types/Blocks/index.tsx:216-253 | a row renders iff some block has its type, and then with the first such block |
| BlocksField.ShowMinRowsBanner | packages/payload/src/admin/components/forms/field-types/Blocks/index.tsx:255-257 | no contract; its meaning is proved in BannerConditions |
| BlocksField.ShowFieldHasNoBanner | packages/payload/src/admin/components/forms/field-types/Blocks/index.tsx:265 | no contract; its meaning is proved in BannerConditions |
| BlocksField.BannerConditions | packages/payload/src/admin/components/forms/field-types/Blocks/index.tsx:255-269 | no banner on the default locale; off it, the min-rows banner shows iff rows are fewer than `minRows` or none on a required field, and the empty banner iff a read-only field has no rows |
| BlocksField.MinRowsMessage | packages/payload/src/admin/components/forms/field-types/Blocks/index.tsx:259-262 | the banner counts `minRows`, with the singular label iff `minRows` is 1 or undefined |
| BlocksField.FieldPath | packages/payload/src/admin/components/forms/field-types/Blocks/index.tsx:55 | the path is `pathFromProps` when it is truthy, else `name`; FieldIdRecoversPath reads it back from the id |
| BlocksField.ReplaceDots | packages/payload/src/admin/components/forms/field-types/Blocks/index.tsx:156 | the replaced path has no `.` |
| BlocksField.DotsRoundTrip | packages/payload/src/admin/components/forms/field-types/Blocks/index.tsx:156 | on a path without `_`, reading `__` back as `.` recovers the path |
| BlocksField.FieldId | packages/payload/src/admin/components/forms/field-types/Blocks/index.tsx:156 | the id starts with `field-` and has no `.` |
| BlocksField.FieldIdRecoversPath | packages/payload/src/admin/components/forms/field-types/Blocks/index.tsx:156 | the id gives back the field's path (`pathFromProps`, else `name`, line 55) when that path has no `_` |
| BlocksField.FilterTruthy | packages/payload/src/admin/components/forms/field-types/Blocks/index.tsx:152 | filtering leaves no empty entry, and a string is kept iff it is a defined, non-empty entry |
| BlocksField.FilterTruthyAppend | packages/payload/src/admin/components/forms/field-types/Blocks/index.tsx:152 | filtering keeps the entries' order: filtering `a + b` is filtering `a`, then `b` |
| BlocksField.ClassList | packages/payload/src/admin/components/forms/field-types/Blocks/index.tsx:147-152 | the classes are `field-type`, `blocks-field`, the custom class when truthy, then the error modifier |
| BlocksField.ExactlyOneModifier | packages/payload/src/admin/components/forms/field-types/Blocks/index.tsx:147-152 | when the custom class is not itself a modifier, exactly one of the has-error and has-no-error modifiers is present, the one matching the error state |
| BlocksField.ClassesSplitToList | packages/payload/src/admin/components/forms/field-types/Blocks/index.tsx:147-152 | splitting the class attribute at spaces gives back the class list when the custom class has no space |
| BlocksField.SplitJoin | packages/payload/src/admin/components/forms/field-types/Blocks/index.tsx:152 | joining space-free words with single spaces and splitting again gives the words back |

## Left out

- Rendering of the blocks field is left out: React elements, drawers, drag and drop, scrolling, the
  row actions (`addRow`, `removeRow`, `moveRow`, `duplicateRow`, collapse) and the error pill. These
  are presentation and form-state dispatch.
- Translated text is left out. `req.t`, `getTranslation` and the block labels are represented by
  message keys with their count and a singular/plural choice.
- The JWT library, `url.parse`, `getCookieExpiration`, `getFieldsToSign` and `buildAfterOperation`
  are foreign calls. They are parameters of the refresh model.
- The database adapter, `executeAccess`, `replaceWithDraftIfAvailable`, the field-level `afterRead`,
  `initTransaction`, the DataLoader and `formatName` have bodies that are not part of this model.
  They are parameters.
- `killTransaction` is assumed not to throw. Its body is not part of this model.
- The real filesystem (`fileExists`, `fs.unlinkSync`, `path.resolve`) is replaced by a set of
  paths, a set of paths whose check or unlink fails, and the resolved static path.
- Asynchronous scheduling is left out; every awaited step is sequential. That
  `deleteUserPreferences` does not await its requests is not modelled.
- RichTextPopulate.Populate: depths are natural numbers. A missing `currentDepth`, which gives NaN
  and serialises as null, is not modelled.
- DeleteHandler.HandleDelete: the `depth` query parameter is not modelled, so a missing depth
  parsing to NaN is not either.
- UserPreferences.RequestsIssued: ids are strings or integers. A non-integer numeric id has its
  own JavaScript text, and that text is not modelled. Integers are printed as plain decimals,
  whereas JavaScript prints numbers of 1e21 and above in exponent form (`"1e+21"`) and cannot
  represent integers beyond 2^53 exactly.
- RichTextPopulate.Populate: a numeric `key` is taken as its string form.
- AuthRefresh.Refresh: the response cookie write and the user lookup are returned as effects
  rather than performed. A missing `req.user` is modelled as a TypeError. The `req` object, `res`
  and the hook context are not modelled: the `beforeOperation` hooks receive only `args`, the
  `afterRefresh` hooks only `exp` and the token, and `afterOperation` only `args` and the result
  (not the operation name).
- GlobalFindOne.FindOne: the `req` object and the hook context are not modelled. The hooks receive
  only the document.
- UploadFiles.DeleteAssociatedFiles: only `string`, `null` and `undefined` file names are modelled.
  A `sizes` entry that is null raises a TypeError outside the try block.
- AccessResolver.FormattedEntry, AccessResolver.RawSlugRemoved, AccessResolver.CollectionUnderFormattedName
  and AccessResolver.GlobalUnderFormattedName assume distinct slugs, distinct
  formatted names, and no formatted name equal to another slug. Otherwise a later step reads or
  deletes what an earlier step wrote. The loop itself is modelled for all names.
- HookPipeline.Fold: a hook that mutates the document (or `args`) it is handed and returns
  `undefined` is modelled as a hook that returns the mutated value. Hooks are pure functions of
  what they are handed, so the model cannot express in-place mutation of a shared object.
- AccessResolver.SpreadValue: a string's index properties are its characters. JavaScript uses
  UTF-16 code units, and that difference is not modelled.
- Type-only files and the GraphQL, Express and local wrappers around these operations are left
  out.

## Findings

| source | as written | input that shows it | evidently intended | confidence | as-written member | corrected member |
|---|---|---|---|---|---|---|
| packages/payload/src/preferences/deleteUserPreferences.ts:21 | the owner request matches `userCollection` equal to the fixed text `'collectionConfig.slug,'` | deleting user 42 of the auth-enabled `users` collection: the owner request matches no preference whose `userCollection` is `users` | match `userCollection` equal to `collectionConfig.slug` | high; not executed | UserPreferences.OwnerRequestIgnoresSlug | UserPreferences.IntendedOwnerRequestUsesSlug |

The model follows the code as written in `UserPreferences.DeleteUserPreferences`. The literal at
line 21 is the text of the expression `collectionConfig.slug` with a stray comma, written inside
quotes. Line 30 of the same function uses `collectionConfig.slug` as an expression to build the
keys. The corrected request, `UserPreferences.DeleteUserPreferencesIntended`, does the same for
the owner request.
