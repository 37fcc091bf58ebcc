# Task service core, modelled in Dafny

This project models the core of a small Go task-tracking service. A task has a title,
a description, a status, a priority, an optional due date and two timestamps. The
model covers:

- **Calendar days** (`models/date.go`, in `dates.dfy`): a `Date` is a (year, month, day)
  triple ordered lexicographically, and `Zero` (0001-01-01, Go's zero time) means "unset".
  The module holds `NewDate` with Go's `time.Date` carry of out-of-range months and days,
  the strict `YYYY-MM-DD` parser `ParseDateOnly`, the formatter (Go's `appendInt`
  padding), and the JSON encoder/decoder pair.
- **Validation primitives** (`models/validation.go`, in `validation.dfy`): the status and
  priority enums, the 3..100 title length rule, the "completed" test and the day-granular
  "today or later" due-date rule. The clock reading is the parameter `now`.
- **The task record** (`models/task.go`, in `tasks.dfy`): the `Task` datatype and its JSON
  tags. Tag names are split at the first comma. The serialised field list omits an
  empty description (`omitempty`).
- **The task service** (`models/service.go`, in `service.dfy`). It holds:
  - the field validators, which check one patch value and write its normalised form back
    into the patch;
  - the ordered business-rule registry, whose built-in rule freezes completed tasks;
  - `ValidateCreate`, `ValidateUpdate`, and the updatable-field set derived from the
    task's tags;
  - the two error constructors (400 for validation, 409 for a business rule).
  A patch is a `map<string, PatchValue>`, where a value is a string, a date, or anything
  else. The rule registry is the field `updateRules` of the class `TaskService`.
- **The in-memory store** (`store/store.go`, in `store.dfy`): the class `InMemoryStore`
  with a map field `items` and the operations Create, List, Get, Update and Delete. The
  fresh id and the current time are parameters.

Go's map iteration order is unspecified. The loops over a patch (`ValidateEntries`) and
over the store (`List`) therefore pick their next key with a nondeterministic choice.
Their contracts are stated so that they hold for every order, for example "fails iff
some entry fails".

## Model

| member | source | states |
|---|---|---|
| Dates.NewDate | models/date.go:17-19 | always yields a valid calendar day; on an in-range (year, month, day) it is exactly that day |
| Dates.AddDays | models/date.go:17-19 | the day carry used by NewDate keeps dates valid and a zero offset is the identity |
| Dates.Successor | models/date.go:17-19 | the next calendar day is a valid day strictly after the given one |
| Dates.Predecessor | models/date.go:17-19 | the previous calendar day is a valid day strictly before the given one |
| Dates.AddOneDay | models/date.go:17-19 | one day on is the next calendar day and one day back is the previous one |
| Dates.AddDaysSuccessor | models/date.go:17-19 | each further day forward is the next calendar day after the day reached so far, so AddDays(d, n) is n successor steps |
| Dates.AddDaysPredecessor | models/date.go:17-19 | each further day back is the previous calendar day before the day reached so far |
| Dates.NewDateCarries | models/date.go:17-19 | October 32 is November 1, month 0 is December of the year before, month 13 is January of the next year, March 0 of a leap year is February 29 |
| Dates.AddDaysForward | models/date.go:17-19 | moving a positive number of days lands strictly later |
| Dates.AddDaysBackward | models/date.go:17-19 | moving a negative number of days lands strictly earlier |
| Dates.ParseDateOnly | models/date.go:22-28 | succeeds exactly on a 10-character `dddd-dd-dd` string whose month and day form a real calendar day; the result is valid with a four-digit year |
| Dates.ParseDateOnlyAccepts | models/date.go:22-28 | "2026-02-15", "2026-12-31" and the leap day "2028-02-29" parse to those days |
| Dates.ParseDateOnlyRejects | models/date.go:22-28 | "invalid", "2026/02/15" and "15-02-2026" are malformed; "2026-02-29" has its day out of range |
| Dates.ParseThenFormat | models/date.go:22-28 | formatting the date that a string parses to gives back that string |
| Dates.FormatThenParse | models/date.go:31-36 | parsing the formatted form of any valid four-digit-year date gives back that date |
| Dates.Format | models/date.go:35 | the layout gives at least ten characters, and exactly ten for a four-digit year and two-digit month and day |
| Dates.FormatShaped | models/date.go:35 | the formatted date is `dddd-dd-dd` and its digit groups read back as year, month and day |
| Dates.MarshalJSON | models/date.go:31-36 | the encoding is `null` exactly for the zero date |
| Dates.JsonStringValue | models/date.go:39-42 | a decoded non-null JSON string is the input without its enclosing quotes |
| Dates.UnmarshalJSON | models/date.go:38-53 | data that is not a JSON string is an error; `""` (and `null`) clear the receiver to the zero date; any other string gives exactly the day ParseDateOnly reads from it, or ParseDateOnly's error with the receiver unchanged |
| Dates.JsonRoundTrip | models/date.go:31-53 | decoding the encoding of any valid date of a four-digit year (0..9999) gives that date with no error, whatever the receiver held; outside that range the source's own decoding fails too, since the `2006` layout reads exactly four year digits |
| Dates.DateJsonExamples | models/date.go:31-53 | NewDate(2026,12,31) encodes as "2026-12-31", decodes back and formats as "2026-12-31"; the zero date encodes as null |
| Dates.DateJsonMalformed | models/date.go:47-50 | decoding "31-12-2026" reports a malformed date and leaves the receiver as it was |
| Validation.IsValidStatus | models/validation.go:14-21 | true exactly for pending, in_progress, completed and cancelled |
| Validation.IsValidPriority | models/validation.go:23-30 | true exactly for low, medium and high, so never for "" |
| Validation.IsValidTitle | tests/validation_test.go:149-167 | true exactly for titles of 3 to 100 characters, so never for the empty title |
| Validation.IsCompletedTask | tests/validation_test.go:88-95 | true exactly for the status "completed", which is itself a valid status |
| Validation.IsValidDate | models/validation.go:32-41 | accepts exactly the due days equal to or after today's day |
| Validation.IsValidDateIgnoresTimeOfDay | models/validation.go:35-37 | the time of day of either instant never changes the answer |
| Validation.IsValidDateMonotone | models/validation.go:39-40 | every day after an accepted day is accepted |
| Validation.IsValidDateAroundToday | tests/validation_test.go:42-60 | today and tomorrow are accepted and yesterday is rejected |
| Validation.ValidationExamples | tests/validation_test.go:12-167 | the enum, title-length (3 and 100 pass, 0, 2 and 101 fail) and completed-status examples of the tests, plus the empty priority, which the enum refuses |
| Tasks.SplitOnComma | models/service.go:220 | splitting yields at least one piece and no piece contains a comma |
| Tasks.SplitJoin | models/service.go:220 | joining the pieces with commas restores the tag |
| Tasks.TagNameAt | models/task.go:8-15 | the name part of each of the eight JSON tags is id, title, description, status, priority, due_date, created_at, updated_at |
| Tasks.OmitEmptyAt | models/task.go:8-15 | only the description tag carries `omitempty` |
| Tasks.EncodeMembers | models/task.go:10 | a field is serialised iff it is in the field list and is not an empty omitempty field |
| Tasks.EncodedFieldsOfTask | models/task.go:7-16 | the serialised field list is all eight fields in declaration order, without the description when it is empty |
| Tasks.DescriptionOmittedWhenEmpty | models/task.go:10 | the description is serialised iff it is non-empty, and every other field always is |
| Service.NewValidationError | models/service.go:239 | a validation error carries code 400 and the given message |
| Service.NewBusinessRuleError | models/service.go:240 | a business-rule error carries code 409 and the given message |
| Service.PreventCompletedTaskEdits | models/service.go:70-75 | vetoes iff the task's status is completed, with 409 "completed tasks cannot be edited" |
| Service.ValidateStatusField | models/service.go:125-132 | accepts iff the value is a string in the status enum; writes it back under the field, otherwise the status error |
| Service.ValidatePriorityField | models/service.go:134-141 | accepts iff the value is a string in the priority enum; writes it back under the field, otherwise the priority error |
| Service.ValidateDueDateField | models/service.go:143-163 | accepts iff the value is a parsable string or a date whose day is not before today; writes the date into the patch; bad format, past day and wrong type each give their own 400 message |
| Service.ValidateStringField | models/service.go:165-170 | accepts iff the value is a string and never writes the patch; otherwise "<field> must be a string" |
| Service.ValidateTitleField | models/service.go:171-181 | a non-string gives the type error, a bad length gives the length error, otherwise the string is written back |
| Service.RunFieldValidator | models/service.go:117-123 | a field without a registered validator leaves the patch as it was; only registered fields can fail, always with 400; a success adds at most the field's own key and leaves every other entry untouched |
| Service.ValidatorMeaning | models/service.go:117-123 | each registered validator agrees with the per-field acceptance predicate, writes exactly the normalised value under its own field and nothing else, and its error does not depend on the rest of the patch |
| Service.KeyError | models/service.go:195-205 | a patch entry is refused iff its key is not updatable or its validator refuses it; an unknown key gives "unknown field: <key>"; errors carry 400 |
| Service.GetUpdateableFields | models/service.go:210-229 | the fields are the names of the non-empty tags minus id, created_at and updated_at; for Task's tags that is exactly title, description, status, priority and due_date |
| Service.TaskUpdateableFields | models/service.go:210-229 | the non-system tag names of Task are exactly the allowed update fields |
| Service.FirstRuleError | models/service.go:185-189 | the rules pass iff every rule passes |
| Service.FirstRuleErrorIsEarliest | models/service.go:185-189 | a reported rule error is the result of some registered rule |
| Service.EarliestFailingRule | models/service.go:185-189 | the reported error is that of the first rule that fails |
| Service.AppendedRuleRunsLast | models/service.go:77-79 | a rule appended to the registry is consulted only when every earlier rule passes |
| Service.CompletedTaskIsFrozen | models/service.go:70-75 | with the built-in rule first, a completed task is refused with 409 whatever the patch |
| Service.ValidateCreate | models/service.go:81-111 | passes iff the title has a valid length, the status is in the enum, the priority is empty or in the enum, and any due date is today or later; errors carry 400; an empty title gives "title is required", then an empty status "status is required"; past those, the first failing check in the order title length, status, priority, due date gives its own message |
| Service.ValidateCreateExamples | tests/service_test.go:14-57 | a valid task passes; a missing title, an invalid status and an invalid priority each give their message |
| Service.DueDateFieldOnFormattedDays | tests/service_test.go:185-222 | a future day as string or date is accepted and stored as a date; a past day and an unparsable string give their messages |
| Service.UnknownFieldRefused | models/service.go:195-198 | a patch with a key outside the updatable set is never accepted, system fields included |
| Service.AcceptedPatchEntries | models/service.go:191-206 | an accepted patch is non-empty and each of its entries passes on its own |
| Service.ValidateEntries | models/service.go:195-206 | fails iff some entry fails, and then with that entry's error; keeps the key set, rewrites values only to their normalised form, and normalises every value on success |
| Service.TaskService.constructor | models/service.go:66-68 | the registry starts with the built-in rule PreventCompletedTaskEdits alone |
| Service.TaskService.AddUpdateRule | models/service.go:77-79 | appends the rule to the end of the registry and keeps the built-in rule first |
| Service.TaskService.ValidateUpdate | models/service.go:183-208 | on a service whose registry starts with the built-in rule, a completed task gets 409 "completed tasks cannot be edited" for any patch; passes iff every rule passes, the patch is non-empty and every entry passes; a rule error wins over all else, then "no fields to update", then an entry's error; keys are unchanged and values are only normalised |
| Service.AcceptedUpdateExample | tests/service_test.go:63-72 | a title update of a pending task passes and leaves the title in the patch |
| Service.CompletedTaskExample | tests/service_test.go:74-87 | updating a completed task gives 409 |
| Service.EmptyPatchExample | tests/service_test.go:89-96 | an empty patch gives "no fields to update" |
| Service.UnknownFieldExample | tests/service_test.go:98-107 | any key outside the updatable set gives "unknown field: <key>" |
| Service.InvalidStatusExample | tests/service_test.go:109-118 | an invalid status value gives the status error |
| Store.Created | store/store.go:37-45 | the stored record has the fresh id, creation time now and no update time; the user fields are kept; a zero due date is dropped |
| Store.CreatedTaskWellFormed | store/store.go:34-48 | a task that passes ValidateCreate is stored with a valid status, title and priority and a due date that is today or later |
| Store.ApplyPatch | store/store.go:77-115 | every updatable field whose key is present with a well-typed value takes that value; every other field, and id and the timestamps, is unchanged |
| Store.ApplyEmptyPatch | store/store.go:77-115 | a patch with no updatable key leaves the task unchanged |
| Store.ValidatedPatchKeepsWellFormed | store/store.go:77-115 | applying a validated, normalised patch keeps a well-formed task well-formed, and a patched due date is today or later |
| Store.ValidatedEntriesApplied | store/store.go:77-115 | every entry of a validated, normalised patch is written into its field |
| Store.ListStep | store/store.go:54-56 | appending one more unlisted stored task keeps the listing exact |
| Store.InMemoryStore.constructor | store/store.go:30-32 | the new store is empty |
| Store.InMemoryStore.Get | store/store.go:60-68 | returns the stored task iff the id is present and NotFound otherwise; the task returned carries that id |
| Store.InMemoryStore.Create | store/store.go:34-48 | stores and returns the created record under the fresh id; every other id reads as before |
| Store.InMemoryStore.List | store/store.go:50-58 | returns one element per stored key: as many elements as the map has, each a stored task, no id twice, and every stored task present |
| Store.InMemoryStore.Update | store/store.go:70-120 | on an absent id returns NotFound and changes nothing; otherwise stores under the same id and returns the patched task with the update time now |
| Store.InMemoryStore.Delete | store/store.go:122-130 | removes a present id, or returns NotFound and changes nothing; afterwards Get of that id is NotFound and every other id reads as before |
| Store.CreateGetDeleteScenario | tests/store_test.go:10-41 | a created task can be read back with its fields; after deletion it is NotFound |

## Left out

- BSON encoding of dates (`MarshalBSONValue`/`UnmarshalBSONValue`) is foreign encoding.
- The MongoDB store, the logging decorators, the HTTP handlers, middleware, router and `main` are outside the core.
- The loggers and `WriteError`/`HandleError` of models/service.go are logging and HTTP output.
- `ParseDate` wraps a third-party fuzzy parser whose behaviour is not visible. The store's Update therefore ignores a string value under `due_date`. Only a date value sets the due date.
- `sync.RWMutex` locking is not modelled: each store operation runs alone.
- `uuid.New()` and `time.Now()` are the parameters `id` and `now`.
- Time zones are not modelled. Every instant is a UTC calendar day plus a time of day.
- Store.InMemoryStore.Update: the `completed` patch key and the `t.Completed` field are not modelled. Task has no such field; completion is the status "completed".
- Store.InMemoryStore.Update: the source's `due_date` switch expects `time.Time` or `*time.Time`, but the service normalises the value to a `Date`. The model stores a date value, which is the intended behaviour.
- Service.ValidateDueDateField: the source passes a `Date` to `IsValidDate`, which takes a `time.Time`. The model passes the day at midnight.
- Validation.IsValidTitle and Validation.IsCompletedTask: their Go definitions are not part of this model. They follow tests/validation_test.go:88-95 and 149-167. Title length counts characters, and the tests use ASCII only.
- Dates.UnmarshalJSON: JSON escape sequences and surrounding whitespace are not decoded. A string literal containing a backslash or a control character is treated as not a string.
- Dates.Format: `Date` embeds `time.Time` (models/date.go:13-15), so the `String()` the tests call (tests/validation_test.go:82, tests/validation_test.go:129) is `time.Time.String()`, which prints the date, the time and the zone. Those comparisons with a `YYYY-MM-DD` string hold only if a file outside this model defines a date-only `String()`. The model proves the round trip for the `2006-01-02` layout that `MarshalJSON` uses (models/date.go:35), not for `String()`.
- Service.GetUpdateableFields: Go reflection over `Task` is replaced by a parameter, the sequence of the struct's JSON tags. `Tasks.TaskJsonTags` holds them in declaration order.
- Service.TaskService.AddUpdateRule: the source's rule registry is one process-wide variable, so a rule added through it affects every service. In the model each `TaskService` owns its registry, so a rule added to one service is not seen by another.
- Service field validators write into the caller's patch map in place. The model returns the updated patch instead; ValidateUpdate's out-parameter `out` is that patch after the loop.
- Service.ValidateCreate is a function: the local patch the source fills and discards leaves no trace, so the task cannot change.
- Service.TaskService.ValidateUpdate: when an entry fails, the source may already have normalised other entries. The model states only that each value is the original or its normalised form, because the visiting order is unspecified.
- The list filtering exercised by tests/integration_test.go lives in a handler that is not part of this model.
