# translator: audit trail and mutation guards, modelled in Dafny

This project models the change-tracking core of the `translator` vocabulary
service, written in Go. It is written for Dafny 4.11.

- **Audit service.** Takes the JSON of a record before and after a change. It
  computes a structural diff of the two decoded objects (`findDiffs`, sorted
  by key) and appends exactly one audit entry to the audit store. The
  `after` record is required and the ids must agree first.
- **Vocab and fix-it services.** Validate the fields, reject a duplicate
  learning language or an update that changes nothing, copy exactly the
  mutable fields onto a clone of the stored record, store it, and audit the
  (old, new) pair.
- **Field validation.** A rune-length bound and a two-class character rule.
- **In-memory repositories.** Maps plus a sequence counter, with
  filter-and-limit queries. They are the state the services act on, so each
  is a Dafny `class` with `modifies` clauses.
- **Converters.** Map records to and from the GraphQL schema, with the status
  enum, decimal ids and list mapping. They also turn the query time bounds
  into a window.

Pure code is written as datatypes, functions and lemmas:

- the diff specification;
- validation;
- converters;
- record helpers.

Code that changes state is written as classes and methods. The loops are
proved equal to a specification function. The repositories, the services and
`UnmarshalGQL` state their new state directly in their postconditions:

- the repositories and services;
- the `findDiffs` loop;
- its in-place key sort on an `array`;
- the list converters;
- `Status.UnmarshalGQL`.

Files:

- Shared definitions:
  - `wrappers.dfy`: Option, Result, Outcome.
  - `decimal.dfy`: `strconv.Itoa`/`Atoi`.
  - `strorder.dfy`: Go string order.
  - `json.dfy`: decoded JSON.
- `mdl.dfy`: records.
- Diff:
  - `diff.dfy`: the diff and its methods.
  - `difflaws.dfy`: what the diff reports.
- `validation.dfy`: field validation.
- `repos.dfy`: mock repositories.
- Services: `auditsrv.dfy`, `vocabsrv.dfy`, `fixitsrv.dfy`.
- GraphQL: `gqlmodel.dfy`, `converter.dfy`, `fmpr.dfy`, `vmpr.dfy`, `ampr.dfy`.

Parameters stand in for Go's JSON library, the clock and the RFC 3339
parser/formatter:

- a `Codec` of four functions;
- `now`;
- `parse`;
- `format`.

Where the repository's tests disagree with its code, the model follows the
code:

- `internal/srv/validation_test.go:34-40` expects "test<script>" to be
  rejected. The code accepts it, and `Validation.ScriptTagWithoutQuoteOrSlashPasses`
  proves the code's behaviour.

A behaviour of the source worth knowing:

- A top-level key that contains a dot can coincide with a nested path. When
  both `"x.y"` and `"x": {"y": …}` change, `findDiffs` reports the same
  finding twice. `DiffLaws.DottedKeyReportedTwice` shows this on two
  well-formed objects.

## Model

| member | source | states |
|---|---|---|
| Decimal.IntToString | internal/convert/vmpr.go:17 | `strconv.Itoa` writes an integer text that denotes `n`, with a minus sign exactly for negative `n` and never a plus sign |
| Decimal.ParseInt | internal/convert/fmpr.go:54-57 | `strconv.Atoi` succeeds exactly on an optionally signed digit string whose value fits in 64 bits, and returns that value; a text whose leading digit run exceeds 2^64 - 1 is a range error whatever follows, as is a valid text outside the 64-bit range; any other text is a syntax error |
| Decimal.RangeErrorBeforeSyntax | internal/convert/fmpr.go:54-57 | an optionally signed digit run past 2^64 - 1 followed by a non-digit gives "value out of range", not "invalid syntax" |
| Decimal.TwentyNinesThenLetter | internal/convert/fmpr.go:54-57 | "99999999999999999999x" is a range error |
| Decimal.ParseIntToString | internal/convert/fmpr.go:22-23 | an id rendered with `strconv.Itoa` parses back to the same id |
| Decimal.IntToStringInjective | internal/convert/vmpr.go:17 | distinct 64-bit ids render as distinct decimal strings |
| StrOrder.LessIrreflexive | internal/srv/audit.go:345-348 | the key order used by the sort is irreflexive |
| StrOrder.LessTransitive | internal/srv/audit.go:345-348 | the key order is transitive |
| StrOrder.LessTotal | internal/srv/audit.go:345-348 | any two different keys are ordered one way or the other |
| StrOrder.LessAsymmetric | internal/srv/audit.go:345-348 | no two keys are each less than the other |
| StrOrder.LessEqTransitive | internal/srv/audit.go:345-348 | "not greater" is transitive, so a list sorted by it is ordered throughout |
| Json.Lookup | internal/srv/audit.go:315-316 | `b[key]` finds a value exactly when some member has that key, and the value found belongs to such a member |
| Json.LookupUnique | internal/srv/audit.go:316 | with unique keys, looking up a member's key gives that member's value |
| Mdl.CloneVocab | internal/mdl/vocab.go:57-72 | the clone equals the original in all twelve fields |
| Mdl.CompareVocab | internal/mdl/vocab.go:75-88 | `Compare` is true exactly when all twelve fields are equal |
| Mdl.CompareVocabLaws | internal/mdl/vocab.go:57-88 | a clone compares equal to its original; the comparison is reflexive, symmetric and transitive |
| Mdl.StatusConstantsDistinct | internal/mdl/fixit.go:11-15 | the three status constants are pairwise distinct |
| Mdl.CloneFixit | internal/mdl/fixit.go:68-78 | the clone equals the original in all seven fields |
| Mdl.NewDuration | internal/mdl/duration.go:13-15 | stores start and end unchanged |
| Mdl.Contains | internal/mdl/duration.go:18-20 | an instant is contained exactly when start ≤ t ≤ end |
| Mdl.ContainsBounds | internal/mdl/duration.go:18-20 | both endpoints of an ordered window are inside; instants outside the bounds are not; an inverted window contains nothing |
| Diff.InsertPermutes | internal/srv/audit.go:345-348 | inserting one finding adds exactly that finding |
| Diff.InsertSorted | internal/srv/audit.go:345-348 | inserting into a key-sorted list keeps it sorted |
| Diff.SortByKeySorted | internal/srv/audit.go:345-348 | the sort specification returns a key-sorted permutation of its input |
| Diff.SortByKeyOfSorted | internal/srv/audit.go:345-348 | sorting a sorted list changes nothing |
| Diff.SortDiffsByKey | internal/srv/audit.go:345-348 | the in-place adjacent-swap sort leaves the array equal to the sort specification of its old contents |
| Diff.MemberFindings | internal/srv/audit.go:315-342 | one loop iteration reports a top-level missing key as removed, a nested one as added, and recurses into two objects with prefix `key.`; an object against a non-object reports nothing; differing leaves give one entry with both values |
| Diff.FindDiffs | internal/srv/audit.go:314-351 | the method returns exactly the findings of all members of `a`, sorted by key, when no key holds arrays on both sides |
| Diff.Diffs | internal/srv/audit.go:314-351 | `findDiffs` returns exactly the findings collected from the members of `a`, as a multiset, sorted by key |
| DiffLaws.DiffsMembers | internal/srv/audit.go:315-343 | a finding is reported exactly when some member of `a` contributes it |
| DiffLaws.DiffsSound | internal/srv/audit.go:315-343 | every reported finding is explained by one member of `a`, as a removal, a nested addition, a changed leaf or a nested finding |
| DiffLaws.ChangedLeafReported | internal/srv/audit.go:334-341 | a non-object value that differs in `b` is reported under `'fullKey'` with both values |
| DiffLaws.SingleLeafChange | internal/srv/audit.go:314-351 | when a well-formed object and its copy differ in one non-object member only, the diff is exactly that one change |
| DiffLaws.DottedKeyReportedTwice | internal/srv/audit.go:315-341 | with `"x.y"` and `"x": {"y": …}` both changed, the finding `'x.y'` is reported twice |
| DiffLaws.NestedMissingReportedAsAdded | internal/srv/audit.go:317-325 | below the top level a key missing from `b` is reported as `'p.k' added` |
| DiffLaws.NestedDiffsShape | internal/srv/audit.go:320-331 | every finding below the top level has a key ending in `'` or `' added`, never `' removed` |
| DiffLaws.RemovedKeyInjective | internal/srv/audit.go:320-322 | different keys give different removal labels |
| DiffLaws.MissingMemberRemoval | internal/srv/audit.go:317-326 | a top-level key missing from `b` contributes exactly its removal entry |
| DiffLaws.TopLevelRemovedOnce | internal/srv/audit.go:317-326 | with unique keys, a top-level key missing from `b` is reported exactly once, as its removal with no before or after value |
| DiffLaws.SelfDiffEmpty | internal/srv/audit.go:334-341 | an object with unique keys at every depth has no findings against itself |
| DiffLaws.DiffsDependOnlyOnSharedKeys | internal/srv/audit.go:315-316 | `b` influences the result only through its values under the keys of `a` |
| DiffLaws.KeyOnlyInRightIgnored | internal/srv/audit.go:315-316 | a key present only in `b` is never reported |
| DiffLaws.ArrayFreeNoClash | internal/srv/audit.go:334-335 | objects without arrays never reach the panicking `!=` on two arrays |
| Validation.ContainsAny | internal/srv/validation.go:38 | `strings.ContainsAny` holds exactly when some character of the value is in the set |
| Validation.ValidateFieldContent | internal/srv/validation.go:33-44 | over `maxLength` runes fails with the length message, length being checked first; otherwise fails with "<name> contains invalid characters" exactly when it has one of `<>` and one of `"/` |
| Validation.ScriptTagWithoutQuoteOrSlashPasses | internal/srv/validation.go:38 | "test<script>" passes, since it has no quote or slash |
| Validation.EmptyPasses | internal/srv/validation.go:33-44 | the empty string passes for every non-negative bound |
| Validation.FirstFailureLaws | internal/srv/vocab.go:198-218 | a chain of checks fails exactly when some check fails, and reports the first failing one |
| Validation.ValidateVocabUpdate | internal/srv/vocab.go:239-261 | update validation passes exactly when each of its six field checks passes, and a failure is one of those checks' errors |
| Validation.ValidateVocab | internal/srv/vocab.go:198-218 | full validation passes exactly when each of its four stages passes, and a failure is one of those stages' errors |
| Validation.ValidateFixit | internal/srv/fixit.go:161-171 | fix-it validation passes exactly when both field checks pass, and a failure is one of their errors |
| Validation.ValidateVocabUpdateInOrder | internal/srv/vocab.go:239-261 | update validation checks FirstLang 40, Alternatives 255, Skill 100, Infinitive 40, Pos 40, Hint 255, in that order, and reports the first failure |
| Validation.ValidateVocabInOrder | internal/srv/vocab.go:198-218 | full validation checks the LearningLang text, then its presence, then the six fields, then both language codes, and reports the first failure |
| Validation.ValidateVocabStronger | internal/srv/vocab.go:198-218 | a vocab passing full validation passes the update checks, has a learning language and two two-letter lower-case codes |
| Validation.ValidateVocabUpdateIgnoresIdentity | internal/srv/vocab.go:239-261 | update validation never reads LearningLang or the language codes |
| Validation.ValidateFixitInOrder | internal/srv/fixit.go:161-171 | fix-it validation checks FieldName, then Comments, and reports the first failure |
| Validation.FixitFieldNameTooLong | internal/srv/fixit.go:163-165 | a field name over 40 runes fails with "Field Name must be shorter than 40 characters" |
| Validation.FixitCommentsTooLong | internal/srv/fixit.go:166-168 | a field name that passes, with comments over 2000 runes, fails with "Commits must be shorter than 2000 characters" |
| Repos.MockAuditRepository.constructor | internal/db/mock/audit_mock.go:14-18 | a new audit repository is empty, with its sequence at 0 |
| Repos.MockVocabRepository.constructor | internal/db/mock/vocab_mock.go:14-18 | a new vocab repository is empty |
| Repos.MockFixitRepository.constructor | internal/db/mock/fixit_mock.go:14-18 | a new fix-it repository is empty, with its sequence at 0 |
| Repos.InWindowStrict | internal/db/mock/audit_mock.go:32 | the repositories' window filter is `Contains` with both endpoints excluded |
| Repos.MockAuditRepository.FindAuditByID | internal/db/mock/audit_mock.go:20-25 | returns the stored entry, or "audit not found" |
| Repos.MockAuditRepository.FindAudits | internal/db/mock/audit_mock.go:27-41 | every result is a stored entry passing the table, object and strict-window filters, each at most once; at most `limit` for a positive limit; all matches when there is no limit or fewer were found |
| Repos.MockAuditRepository.CreateAudit | internal/db/mock/audit_mock.go:43-49 | the entry gets id `seq + 1`, overwriting the caller's, and is stored under a fresh key above every earlier id; nothing else changes |
| Repos.MockVocabRepository.FindVocabByID | internal/db/mock/vocab_mock.go:20-25 | returns the stored entry, or "error finding vocab with id N" |
| Repos.MockVocabRepository.FindVocabByLearningLang | internal/db/mock/vocab_mock.go:27-34 | returns some stored vocab with that learning language, and fails exactly when there is none |
| Repos.MockVocabRepository.FindVocabs | internal/db/mock/vocab_mock.go:36-49 | every result is stored, has the requested learning-language code and has a first language exactly when `hasFirst`; the limit is respected |
| Repos.MockVocabRepository.CreateVocab | internal/db/mock/vocab_mock.go:51-57 | an existing id fails with "vocab already exists" and changes nothing; otherwise the vocab is stored under its own id |
| Repos.MockVocabRepository.UpdateVocab | internal/db/mock/vocab_mock.go:59-65 | an absent id fails with the not-found message and changes nothing; otherwise only that entry is replaced |
| Repos.MockFixitRepository.FindFixitByID | internal/db/mock/fixit_mock.go:20-25 | returns the stored entry, or "fixit not found" |
| Repos.MockFixitRepository.FindFixits | internal/db/mock/fixit_mock.go:27-42 | every result is stored and passes the status ("" = any), vocab id (0 = any) and strict-window filters, each at most once; the limit is respected |
| Repos.MockFixitRepository.CreateFixit | internal/db/mock/fixit_mock.go:44-49 | the fix-it gets id `seq + 1` and is stored under a fresh key above every earlier id |
| Repos.MockFixitRepository.UpdateFixit | internal/db/mock/fixit_mock.go:51-57 | an absent id fails with "fixit does not exist" and changes nothing; otherwise only that entry is replaced |
| AuditSrv.CompareJson | internal/srv/audit.go:269-279 | a first text that is not a JSON object gives no findings; no findings marshal to "null", and a non-empty sorted diff of the two decoded objects is exactly what gets encoded |
| AuditSrv.CompareJsonSingleLeaf | internal/srv/audit.go:269-279 | two objects that differ in one non-object member compare as the encoding of that one change, keyed by the bare member name |
| AuditSrv.CompareJsonSelf | internal/srv/audit.go:269-279 | a text compared with itself gives "null" |
| AuditSrv.NewAuditCommentsTooLong | internal/srv/audit.go:208-211 | comments over 1000 runes are refused with "comments must be shorter than 1000 characters" |
| AuditSrv.NewAudit | internal/srv/audit.go:206-232 | an entry is built exactly when the comments pass validation, so 1000 plain runes are accepted, and otherwise the validation error is returned; it has id 0 and carries table, object id, comments, author, before and after unchanged; its diff is "" for an empty before and the JSON comparison otherwise |
| AuditSrv.VocabAudit | internal/srv/audit.go:117-137 | a missing `after` fails with "after value for vocab is required" whatever `before` is; an id mismatch fails with "audit before id X and after id Y mismatch" before the comments are checked; past both checks an entry is built exactly when the comments pass; an entry is for table "vocab" and object `after.ID`, with the given comments and author, the before JSON or "", and the after JSON |
| AuditSrv.FixitAudit | internal/srv/audit.go:165-184 | the same checks for fix-its: the "fixit before id X and after id Y mismatch" wording and table "fixit" |
| AuditSrv.AuditService.CreateAudit | internal/srv/audit.go:206-232 | on a validation error the store is untouched and the error returned; otherwise exactly one entry is appended under the next sequence id |
| AuditSrv.AuditService.CreateVocabAudit | internal/srv/audit.go:117-137 | the store changes exactly as the vocab audit entry says: one appended entry on success, nothing on any error |
| AuditSrv.AuditService.CreateFixitAudit | internal/srv/audit.go:165-184 | the same for fix-its |
| VocabSrv.ApplyVocabUpdate | internal/srv/vocab.go:137-153 | the updated clone keeps ID, LearningLang, Created and both codes of the stored vocab and takes the seven mutable fields from the request |
| VocabSrv.HasVocabChanges | internal/srv/vocab.go:139-145 | an update has changes exactly when applying it changes the stored record |
| VocabSrv.VocabUpdateLaws | internal/srv/vocab.go:137-156 | applying the same update twice finds no further change and gives the same record |
| VocabSrv.UpdatedVocabStaysValid | internal/srv/vocab.go:125-153 | a valid stored vocab, updated by a request that passes the update checks, still passes full validation |
| VocabSrv.VocabServiceAuditsPass | internal/srv/vocab.go:116-118 | the creation audit, and the audit of a stored record with its updated clone, always succeed |
| VocabSrv.VocabService.CreateVocab | internal/srv/vocab.go:105-121 | a validation error is returned with nothing touched; a stored vocab with the same learning language gives "vocab with learning lang L and id N already exists", N being its id, with nothing touched; otherwise the vocab is stored unless its id exists, one creation audit is appended, and the audit's result alone is returned; learning languages stay unique and stored vocabs stay valid |
| VocabSrv.VocabService.UpdateVocab | internal/srv/vocab.go:123-166 | validation errors, an unknown id ("error finding vocab with id N") and "update for vocab N has no changes" return no vocab and touch nothing; otherwise the stored record with the seven mutable fields replaced is stored and returned, and one (old, new) audit is appended |
| FixitSrv.ApplyFixitUpdate | internal/srv/fixit.go:108-115 | the updated clone keeps ID, VocabID, CreatedBy and Created and takes status, field name and comments from the request |
| FixitSrv.HasFixitChanges | internal/srv/fixit.go:111 | an update has changes exactly when applying it changes the stored record |
| FixitSrv.FixitUpdateLaws | internal/srv/fixit.go:106-117 | applying the same update twice finds no further change and gives the same record; the updated record validates exactly as the request does |
| FixitSrv.FixitServiceAuditsPass | internal/srv/fixit.go:87-124 | the creation audit, and the audit of a stored fix-it with its updated clone, always succeed, since a clone keeps the id |
| FixitSrv.FixitService.CreateFixit | internal/srv/fixit.go:81-92 | a validation error is returned with nothing touched; otherwise the fix-it is stored under the next sequence id, which is written back into the returned record, and one creation audit of that record is appended |
| FixitSrv.FixitService.UpdateFixit | internal/srv/fixit.go:94-127 | validation errors, "fixit not found" and "update for fixit N has no changes" return no fix-it and touch nothing; otherwise status, field name and comments replace the stored ones, and the result is stored, returned and audited against the old record |
| GqlModel.IsValid | graph/model/models_gen.go:105-111 | a status is valid exactly when it is one of the members of `AllStatus` |
| GqlModel.AllStatusExactlyValid | graph/model/models_gen.go:99-103 | `AllStatus` holds three distinct values, each valid |
| GqlModel.String | graph/model/models_gen.go:113-115 | the text of a status is its own characters, unchanged |
| GqlModel.StatusRef.UnmarshalGql | graph/model/models_gen.go:117-128 | a non-string fails with "enums must be strings" and leaves the receiver alone; a string is stored first, and the call succeeds exactly when it is valid, otherwise failing with "S is not a valid Status" |
| ConvertTime.GqlDateTimeToDuration | internal/convert/converter.go:31-62 | an empty start is an hour before now and an empty end is now; an unparsable start fails with "invalid start time: …" before the end is read; an unparsable end fails with "invalid end time: …"; every window returned has start ≤ end |
| ConvertTime.DurationOrderDecides | internal/convert/converter.go:53-61 | once both bounds are known, the call succeeds exactly when start ≤ end, and otherwise fails with "start time must be before end time"; with no texts it is the last hour |
| ConvertTime.StaleEndRefused | internal/convert/converter.go:33-56 | with no start, an end more than an hour before now is refused |
| ConvertFixit.FixitStatusFromGql | internal/convert/fmpr.go:135-146 | PENDING gives "pending", IN_PROGRESS gives "in_progress" and COMPLETED gives "completed"; every other value fails with "invalid status: S" |
| ConvertFixit.FixitStatusToGql | internal/convert/fmpr.go:149-160 | "pending" gives PENDING, "in_progress" gives IN_PROGRESS and "completed" gives COMPLETED; every other value fails with "unknown status: S" |
| ConvertFixit.StatusRoundTrip | internal/convert/fmpr.go:135-160 | the two status conversions are inverse to each other in both directions |
| ConvertFixit.FixitToGql | internal/convert/fmpr.go:11-30 | a missing record and an unknown status are errors; every success has the valid schema status the record's status maps to, both ids in decimal, the field name, comments and author copied and the creation time formatted |
| ConvertFixit.NewFixitFromGql | internal/convert/fmpr.go:87-108 | a non-integer vocab id fails with "invalid VocabID V" before the status is checked; an integer vocab id with a valid status always succeeds; a success has ID 0, no author, the parsed vocab id and the status and texts of the input |
| ConvertFixit.UpdateFixitFromGql | internal/convert/fmpr.go:111-132 | a non-integer id fails with "invalid ID V" before the status is checked; an integer id with a valid status always succeeds; a success has VocabID 0, the parsed id and the status and texts of the input |
| ConvertFixit.FixitGqlRoundTrip | internal/convert/fmpr.go:11-132 | a fix-it with a known status and 64-bit ids, sent to the schema and read back as an update or creation request, returns unchanged except for the fields that request lacks |
| ConvertFixit.FixitsToGql | internal/convert/fmpr.go:69-84 | a missing list is an error; otherwise the call succeeds exactly when every element converts; the result has the same length with element i the conversion of input i; a failure is the first failing element's error |
| ConvertFixit.FixitsQueryMapper | internal/convert/fmpr.go:48-65 | checks status, then vocab id, then the window, and returns the first error unchanged; when all three succeed so does the call; a success has the parsed parts and an ordered window |
| ConvertFixit.QueryAlwaysNamesStatus | internal/convert/fmpr.go:49-52 | the empty status, which the store reads as "any", is refused by the mapper |
| ConvertVocab.VocabToGql | internal/convert/vmpr.go:11-29 | fails exactly on a missing record; the id is rendered in decimal and every content field is copied unchanged |
| ConvertVocab.VocabFromGql | internal/convert/vmpr.go:51-72 | a non-integer id fails with "invalid id V"; a success carries the parsed id and leaves LearningLang and both codes empty |
| ConvertVocab.VocabFromNewGql | internal/convert/vmpr.go:75-92 | fails exactly on a missing request; a success has ID 0, a zero creation time and every content field of the request |
| ConvertVocab.VocabGqlRoundTrip | internal/convert/vmpr.go:11-92 | a vocab sent to the schema comes back as a creation request with only id and time cleared, and as an update request with exactly the update's fields |
| ConvertVocab.VocabFromGqlCarriesUpdate | internal/convert/vmpr.go:62-71 | an update request's seven mutable fields are carried over unchanged |
| ConvertVocab.VocabsToGql | internal/convert/vmpr.go:33-48 | fails exactly on a missing list; otherwise the result has the same length and order, element i being the conversion of input i |
| ConvertAudit.AuditToGql | internal/convert/ampr.go:11-27 | fails exactly on a missing record; the creation time is formatted |
| ConvertAudit.AuditGqlFaithful | internal/convert/ampr.go:11-27 | both ids of an entry with 64-bit ids parse back, and every text field is copied verbatim |
| ConvertAudit.AuditsToGql | internal/convert/ampr.go:31-46 | fails exactly on a missing list; otherwise the result has the same length and order, element i being the conversion of input i |
| ConvertAudit.AuditQueryMapper | internal/convert/ampr.go:61-74 | a non-integer object id is refused before the times are read; a parseable id with a valid window always succeeds; a success has the parsed id and the window from `GqlDateTimeToDuration` |

## Left out

- Pointers and aliasing: Go passes records by pointer, and the mock
  repositories store the caller's pointer. Records are values here.
  - So "mutating a clone leaves the original unchanged" holds by
    construction.
  - A caller mutating a record after storing it is not modelled.
- Diff.SortDiffsByKey: stable, while Go's `sort.Slice` is not. Only the
  order among findings with equal keys can differ. Equal keys arise only
  from different members of `a` whose labelled paths coincide.
- Map iteration order in `findDiffs` and in the repositories' `Find*` loops
  is unspecified in Go.
  - The diff iterates `a` in member order. Its sorted result does not
    depend on that order, up to ties.
  - Repos.MockAuditRepository.FindAudits, Repos.MockVocabRepository.FindVocabs
    and Repos.MockFixitRepository.FindFixits do not say which matches a
    limit keeps, nor in what order results come.
- Repos.MockVocabRepository.FindVocabByLearningLang: returns some match, not
  a specific one, because Go's map order picks it.
- JSON encoding and decoding:
  - `json.Unmarshal` into a map keeps the last of repeated keys. The model
    does not pick one: the audit service requires its decoder to produce
    objects whose keys are unique at every depth (`DecodesToMaps`).
  - `json.Unmarshal`, `json.Marshal` and the records' `JSON` methods are the
    functions of a `Codec`.
  - Only "an empty diff list marshals to null" is fixed.
  - `strconv.Quote` escaping and `MarshalGQL` (an `io.Writer`) are not
    modelled.
- JSON numbers are kept as exact reals. Float64 rounding is not modelled.
- Two arrays under the same key make Go's `!=` panic. Those inputs are
  excluded by the `NoArrayClash` precondition; the panic is not modelled.
- Time:
  - `time.Now`, RFC 3339 parsing and formatting, and time zones are the
    parameters `now`, `parse` and `format`.
  - Go reads the clock twice. The model reads it once.
  - Instants are integer nanoseconds.
- The store never sets `Created`, so it stays the zero instant.
- Logging (`log.Printf` in validation) is left out.
- The GORM/SQL repositories, connection code and AWS secret lookup are not
  part of this model.
  - The SQL audit query refuses an object id without a table name. The
    in-memory repository does not, so no such precondition is carried.
- The services' `Find*` methods only forward to the repository, and are not
  modelled separately: `AuditService.FindAuditByID`/`FindAudits`,
  `VocabService.FindVocabByID`/`FindVocabs` and
  `FixitService.FindFixitByID`/`FindFixits`.
  - `AuditService.FindAudits` (internal/srv/audit.go:87-89) passes no object
    id; the model would pass 0, meaning "any".
- The services' constructors are not modelled. They open database
  connections, and the model builds services from given repositories.
- Branches that cannot be reached are left out:
  - Go's `before == nil` checks after a successful find. The mock never
    returns nil without an error.
  - The error branches of the list converters, whose element conversion
    cannot fail for vocabs and audits. They are `assert false` in the model.
  - The mock repository's update failure after a successful find. The model
    keeps the early return; it carries no audit.
- Nil arguments are `Option.None`. A nil receiver is not modelled.
- Rune counting: strings are sequences of Unicode scalar values, so a length
  is a rune count for valid UTF-8. Go counts each invalid byte as one rune.
- Integer width:
  - ids and counters are unbounded integers.
  - `strconv.Atoi`'s 64-bit range check is modelled.
  - Round-trip lemmas require 64-bit ids.
  - The sequence counter's overflow is not modelled.
