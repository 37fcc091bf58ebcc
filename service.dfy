/**
 * The task service of models/service.go: field validators that check a value and
 * write its normalised form back into the patch, an ordered registry of business
 * rules, and ValidateCreate / ValidateUpdate, which combine them into one error
 * carrying code 400 (validation) or 409 (business rule).
 */
module Service {
  import opened Wrappers
  import opened Dates
  import opened Validation
  import opened Tasks

  /** The service's error: an HTTP-style code and a message. */
  datatype ApiError = ApiError(code: int, message: string)

  /** A validation error: code 400 (bad request) with the given message. */
  function NewValidationError(msg: string): (e: ApiError)
    ensures e.code == 400 && e.message == msg
  {
    ApiError(400, msg)
  }

  /** A business-rule error: code 409 (conflict) with the given message. */
  function NewBusinessRuleError(msg: string): (e: ApiError)
    ensures e.code == 409 && e.message == msg
  {
    ApiError(409, msg)
  }

  /**
   * A value in an update patch. The source's patch values are untyped; the validators
   * and the store only tell apart strings, parsed dates and everything else.
   */
  datatype PatchValue = Str(s: string) | DateValue(d: Date) | Other

  type Patch = map<string, PatchValue>

  /** A business rule looks at the current task and the proposed patch and may veto the update. */
  type BusinessRule = (Task, Patch) -> Option<ApiError>

  const CompletedMessage := "completed tasks cannot be edited"
  const StatusMessage := "invalid status, allowed: pending, in_progress, completed, cancelled"
  const PriorityMessage := "invalid priority, allowed: low, medium, high"
  const DateFormatMessage := "invalid date format, expected YYYY-MM-DD"
  const PastDateMessage := "date should be in the future"
  const DateTypeMessage := "due_date must be a YYYY-MM-DD string or date"
  const TitleLengthMessage := "invalid title length, it should be between 3 and 100"
  const NoFieldsMessage := "no fields to update"

  /** The built-in rule: a completed task is frozen, whatever the patch says. */
  function PreventCompletedTaskEdits(task: Task, patch: Patch): (r: Option<ApiError>)
    ensures r.Some? <==> task.status == "completed"
    ensures r.Some? ==> r.value.code == 409 && r.value.message == CompletedMessage
  {
    if IsCompletedTask(task.status) then Some(NewBusinessRuleError(CompletedMessage)) else None
  }

  // ---------------------------------------------------------------------------
  // Field validators. Each returns the patch with the normalised value written
  // under `fieldName`, or the error; on an error the patch is not touched.

  function ValidateStatusField(value: PatchValue, patch: Patch, fieldName: string): (r: Result<Patch, ApiError>)
    ensures r.Ok? <==> value.Str? && IsValidStatus(value.s)
    ensures r.Ok? ==> r.value == patch[fieldName := value]
    ensures r.Err? ==> r.error == NewValidationError(StatusMessage)
  {
    if value.Str? && IsValidStatus(value.s) then Ok(patch[fieldName := Str(value.s)])
    else Err(NewValidationError(StatusMessage))
  }

  function ValidatePriorityField(value: PatchValue, patch: Patch, fieldName: string): (r: Result<Patch, ApiError>)
    ensures r.Ok? <==> value.Str? && IsValidPriority(value.s)
    ensures r.Ok? ==> r.value == patch[fieldName := value]
    ensures r.Err? ==> r.error == NewValidationError(PriorityMessage)
  {
    if value.Str? && IsValidPriority(value.s) then Ok(patch[fieldName := Str(value.s)])
    else Err(NewValidationError(PriorityMessage))
  }

  /** The day a due-date value stands for: a string strictly in the YYYY-MM-DD layout, or a date. */
  function DueDateOf(value: PatchValue): Option<Date> {
    match value
    case Str(s) => if ParseDateOnly(s).Ok? then Some(ParseDateOnly(s).value) else None
    case DateValue(d) => Some(d)
    case Other => None
  }

  /**
   * The due-date validator: a string must parse as YYYY-MM-DD, and the day (parsed or
   * given) must not be before today; the parsed date replaces the string in the patch.
   */
  function ValidateDueDateField(value: PatchValue, patch: Patch, fieldName: string, now: Instant): (r: Result<Patch, ApiError>)
    ensures r.Ok? <==> DueDateOf(value).Some? && IsValidDate(AtMidnight(DueDateOf(value).value), now)
    ensures r.Ok? ==> r.value == patch[fieldName := DateValue(DueDateOf(value).value)]
    ensures r.Err? ==> r.error.code == 400
    ensures value.Str? && ParseDateOnly(value.s).Err? ==> r == Err(NewValidationError(DateFormatMessage))
    ensures DueDateOf(value).Some? && !IsValidDate(AtMidnight(DueDateOf(value).value), now) ==>
              r == Err(NewValidationError(PastDateMessage))
    ensures value.Other? ==> r == Err(NewValidationError(DateTypeMessage))
  {
    match value
    case Str(s) =>
      (match ParseDateOnly(s)
       case Err(_) => Err(NewValidationError(DateFormatMessage))
       case Ok(parsed) =>
         if !IsValidDate(AtMidnight(parsed), now) then Err(NewValidationError(PastDateMessage))
         else Ok(patch[fieldName := DateValue(parsed)]))
    case DateValue(d) =>
      if !IsValidDate(AtMidnight(d), now) then Err(NewValidationError(PastDateMessage))
      else Ok(patch[fieldName := DateValue(d)])
    case Other => Err(NewValidationError(DateTypeMessage))
  }

  /** The description validator: any string, written nowhere. */
  function ValidateStringField(value: PatchValue, patch: Patch, fieldName: string): (r: Result<Patch, ApiError>)
    ensures r.Ok? <==> value.Str?
    ensures r.Ok? ==> r.value == patch
    ensures r.Err? ==> r.error == NewValidationError(fieldName + " must be a string")
  {
    if value.Str? then Ok(patch) else Err(NewValidationError(fieldName + " must be a string"))
  }

  function ValidateTitleField(value: PatchValue, patch: Patch, fieldName: string): (r: Result<Patch, ApiError>)
    ensures r.Ok? <==> value.Str? && IsValidTitle(value.s)
    ensures r.Ok? ==> r.value == patch[fieldName := value]
    ensures !value.Str? ==> r == Err(NewValidationError(fieldName + " must be a string"))
    ensures value.Str? && !IsValidTitle(value.s) ==> r == Err(NewValidationError(TitleLengthMessage))
  {
    if !value.Str? then Err(NewValidationError(fieldName + " must be a string"))
    else if !IsValidTitle(value.s) then Err(NewValidationError(TitleLengthMessage))
    else Ok(patch[fieldName := Str(value.s)])
  }

  /** The field names that have a validator in the registry of field validators. */
  const ValidatedFields: set<string> := {"status", "priority", "due_date", "title", "description"}

  /** Looks up the validator registered for `field` and runs it; a field without one is left alone. */
  function RunFieldValidator(field: string, value: PatchValue, patch: Patch, now: Instant): (r: Result<Patch, ApiError>)
    ensures field !in ValidatedFields ==> r == Ok(patch)
    ensures r.Err? ==> field in ValidatedFields && r.error.code == 400
    ensures r.Ok? ==> r.value.Keys <= patch.Keys + {field}
    ensures r.Ok? ==> forall k :: k in patch && k != field ==> k in r.value && r.value[k] == patch[k]
  {
    if field == "status" then ValidateStatusField(value, patch, field)
    else if field == "priority" then ValidatePriorityField(value, patch, field)
    else if field == "due_date" then ValidateDueDateField(value, patch, field, now)
    else if field == "title" then ValidateTitleField(value, patch, field)
    else if field == "description" then ValidateStringField(value, patch, field)
    else Ok(patch)
  }

  // ---------------------------------------------------------------------------
  // Reference statement of what the validators accept and write back

  /** Whether the value proposed for a field is acceptable, field by field. */
  predicate FieldAccepts(field: string, value: PatchValue, now: Instant) {
    match field
    case "status" => value.Str? && IsValidStatus(value.s)
    case "priority" => value.Str? && IsValidPriority(value.s)
    case "title" => value.Str? && IsValidTitle(value.s)
    case "description" => value.Str?
    case "due_date" => DueDateOf(value).Some? && IsValidDate(AtMidnight(DueDateOf(value).value), now)
    case _ => true
  }

  /** The value a successful validator leaves in the patch: a due-date string becomes its date. */
  function Normalized(field: string, value: PatchValue): PatchValue {
    if field == "due_date" && DueDateOf(value).Some? then DateValue(DueDateOf(value).value) else value
  }

  /**
   * Every validator agrees with FieldAccepts, reports an error that depends only on the
   * field and the value, and on success leaves the patch with the normalised value
   * under the field and every other entry untouched.
   */
  lemma ValidatorMeaning(field: string, value: PatchValue, patch: Patch, other: Patch, now: Instant)
    requires field in patch && patch[field] == value
    ensures RunFieldValidator(field, value, patch, now).Ok? <==> FieldAccepts(field, value, now)
    ensures RunFieldValidator(field, value, patch, now).Ok? ==>
              RunFieldValidator(field, value, patch, now).value == patch[field := Normalized(field, value)]
    ensures RunFieldValidator(field, value, patch, now).Err? ==>
              RunFieldValidator(field, value, other, now) == RunFieldValidator(field, value, patch, now)
  {
    if field == "description" {
      assert patch[field := Normalized(field, value)] == patch;
    }
  }

  /** The allowed field names: the tag names of Task, without id, created_at and updated_at. */
  const AllowedUpdateFields: set<string> := {"title", "description", "status", "priority", "due_date"}

  /** The error a single patch entry yields, if any, whatever the rest of the patch holds. */
  function KeyError(key: string, value: PatchValue, now: Instant): (r: Option<ApiError>)
    ensures r.None? <==> key in AllowedUpdateFields && FieldAccepts(key, value, now)
    ensures key !in AllowedUpdateFields ==> r == Some(NewValidationError("unknown field: " + key))
    ensures r.Some? ==> r.value.code == 400
  {
    if key !in AllowedUpdateFields then Some(NewValidationError("unknown field: " + key))
    else
      ValidatorMeaning(key, value, map[key := value], map[key := value], now);
      match RunFieldValidator(key, value, map[key := value], now)
      case Ok(_) => None
      case Err(e) => Some(e)
  }

  // ---------------------------------------------------------------------------
  // The allowed update fields, read from Task's JSON tags

  /** The fields the system owns and a patch may never set. */
  const SystemFields: set<string> := {"id", "created_at", "updated_at"}

  /** The names declared by the non-empty tags among `tags`. */
  function DeclaredNames(tags: seq<string>): set<string> {
    set j | 0 <= j < |tags| && tags[j] != "" :: TagName(tags[j])
  }

  /**
   * getUpdateableFields: walk the fields' tags (Task's, read by reflection in the
   * source), take the name before the first comma of each non-empty tag, and keep it
   * unless the system owns it.
   */
  method GetUpdateableFields(tags: seq<string>) returns (fields: set<string>)
    ensures fields == DeclaredNames(tags) - SystemFields
    ensures tags == TaskJsonTags ==> fields == AllowedUpdateFields
  {
    fields := {};
    var i := 0;
    while i < |tags|
      invariant 0 <= i <= |tags|
      invariant fields == DeclaredNames(tags[..i]) - SystemFields
    {
      var jsonTag := tags[i];
      assert tags[..i + 1] == tags[..i] + [jsonTag];
      DeclaredNamesSnoc(tags[..i], jsonTag);
      if jsonTag != "" {
        var fieldName := TagName(jsonTag);
        if fieldName != "id" && fieldName != "created_at" && fieldName != "updated_at" {
          fields := fields + {fieldName};
        }
      }
      i := i + 1;
    }
    assert tags[..i] == tags;
    if tags == TaskJsonTags {
      TaskUpdateableFields();
    }
  }

  /** One more tag adds its name, if it has one. */
  lemma DeclaredNamesSnoc(tags: seq<string>, tag: string)
    ensures DeclaredNames(tags + [tag]) == DeclaredNames(tags) + (if tag != "" then {TagName(tag)} else {})
  {
    var all := tags + [tag];
    assert forall j :: 0 <= j < |tags| ==> all[j] == tags[j];
    assert all[|tags|] == tag;
  }

  /** Tags that are all non-empty and name `names` in order declare exactly those names. */
  lemma DeclaredNamesOf(tags: seq<string>, names: seq<string>)
    requires |tags| == |names|
    requires forall j :: 0 <= j < |tags| ==> tags[j] != "" && TagName(tags[j]) == names[j]
    ensures DeclaredNames(tags) == set x | x in names
  {
    forall x | x in names ensures x in DeclaredNames(tags) {
      var j :| 0 <= j < |names| && names[j] == x;
      assert TagName(tags[j]) == x;
    }
  }

  /** Task's tags declare its eight field names; without the system-owned ones, the five updatable fields remain. */
  lemma TaskUpdateableFields()
    ensures DeclaredNames(TaskJsonTags) == set x | x in TaskFieldNames
    ensures DeclaredNames(TaskJsonTags) - SystemFields == AllowedUpdateFields
  {
    forall j | 0 <= j < |TaskJsonTags| ensures TaskJsonTags[j] != "" && TagName(TaskJsonTags[j]) == TaskFieldNames[j] {
      TagNameAt(j);
      TaskTagNonEmpty(j);
    }
    DeclaredNamesOf(TaskJsonTags, TaskFieldNames);
    NonSystemFieldNames();
  }

  /** Removing the system-owned names from Task's field names leaves the five updatable fields. */
  lemma NonSystemFieldNames()
    ensures (set x | x in TaskFieldNames) - SystemFields == AllowedUpdateFields
  {
  }

  // ---------------------------------------------------------------------------
  // Business rules

  /** The first error among the rules, run in order; None when every rule passes. */
  function FirstRuleError(rules: seq<BusinessRule>, task: Task, patch: Patch): (r: Option<ApiError>)
    ensures r.None? <==> forall i :: 0 <= i < |rules| ==> rules[i](task, patch).None?
  {
    if rules == [] then None
    else
      match rules[0](task, patch)
      case Some(e) => Some(e)
      case None => FirstRuleError(rules[1..], task, patch)
  }

  /** An error reported by the rules is the verdict of the earliest failing rule. */
  lemma {:induction false} FirstRuleErrorIsEarliest(rules: seq<BusinessRule>, task: Task, patch: Patch)
    requires FirstRuleError(rules, task, patch).Some?
    ensures exists i :: 0 <= i < |rules| && rules[i](task, patch) == FirstRuleError(rules, task, patch)
                        && forall j :: 0 <= j < i ==> rules[j](task, patch).None?
  {
    if rules[0](task, patch).None? {
      FirstRuleErrorIsEarliest(rules[1..], task, patch);
      var i :| 0 <= i < |rules[1..]| && rules[1..][i](task, patch) == FirstRuleError(rules[1..], task, patch)
               && forall j :: 0 <= j < i ==> rules[1..][j](task, patch).None?;
      assert rules[i + 1](task, patch) == FirstRuleError(rules, task, patch);
      assert forall j :: 0 <= j < i + 1 ==> rules[j](task, patch).None? by {
        forall j | 0 <= j < i + 1 ensures rules[j](task, patch).None? {
          if j > 0 { assert rules[j] == rules[1..][j - 1]; }
        }
      }
    } else {
      assert rules[0](task, patch) == FirstRuleError(rules, task, patch);
    }
  }

  /** When rule i is the first to fail, its error is the rules' verdict. */
  lemma {:induction false} EarliestFailingRule(rules: seq<BusinessRule>, i: nat, task: Task, patch: Patch)
    requires i < |rules| && rules[i](task, patch).Some?
    requires forall j :: 0 <= j < i ==> rules[j](task, patch).None?
    ensures FirstRuleError(rules, task, patch) == rules[i](task, patch)
  {
    if i > 0 {
      assert rules[1..][i - 1] == rules[i];
      EarliestFailingRule(rules[1..], i - 1, task, patch);
    }
  }

  /** Appending a rule never changes an earlier rule's verdict; the new rule only speaks when all earlier ones pass. */
  lemma {:induction false} AppendedRuleRunsLast(rules: seq<BusinessRule>, rule: BusinessRule, task: Task, patch: Patch)
    ensures FirstRuleError(rules + [rule], task, patch) ==
            if FirstRuleError(rules, task, patch).Some? then FirstRuleError(rules, task, patch) else rule(task, patch)
  {
    if rules != [] {
      assert (rules + [rule])[1..] == rules[1..] + [rule];
      AppendedRuleRunsLast(rules[1..], rule, task, patch);
    }
  }

  /** With the built-in rule first, a completed task is refused with 409 whatever the patch, even an empty one. */
  lemma CompletedTaskIsFrozen(rules: seq<BusinessRule>, task: Task, patch: Patch)
    requires |rules| >= 1 && rules[0] == PreventCompletedTaskEdits
    requires IsCompletedTask(task.status)
    ensures FirstRuleError(rules, task, patch) == Some(ApiError(409, CompletedMessage))
  {
  }

  // ---------------------------------------------------------------------------
  // ValidateCreate

  /** What a new task must satisfy: the reference statement ValidateCreate is checked against. */
  predicate CreateAcceptable(t: Task, now: Instant) {
    && IsValidTitle(t.title)
    && IsValidStatus(t.status)
    && (t.priority == "" || IsValidPriority(t.priority))
    && (t.dueDate.None? || IsValidDate(AtMidnight(t.dueDate.value), now))
  }

  /**
   * ValidateCreate: the required title and status first, then the title, status,
   * priority (when set) and due-date (when set) validators, writing into a local
   * patch that is thrown away. The task itself is never changed.
   */
  function ValidateCreate(t: Task, now: Instant): (r: Option<ApiError>)
    ensures r.None? <==> CreateAcceptable(t, now)
    ensures r.Some? ==> r.value.code == 400
    ensures t.title == "" ==> r == Some(NewValidationError("title is required"))
    ensures t.title != "" && t.status == "" ==> r == Some(NewValidationError("status is required"))
    // Past the required fields, the first failing validator's message is the one returned.
    ensures t.title != "" && t.status != "" && !IsValidTitle(t.title) ==>
      r == Some(NewValidationError(TitleLengthMessage))
    ensures t.title != "" && t.status != "" && IsValidTitle(t.title) && !IsValidStatus(t.status) ==>
      r == Some(NewValidationError(StatusMessage))
    ensures (&& t.title != "" && t.status != "" && IsValidTitle(t.title) && IsValidStatus(t.status)
             && t.priority != "" && !IsValidPriority(t.priority)) ==>
      r == Some(NewValidationError(PriorityMessage))
    ensures (&& t.title != "" && t.status != "" && IsValidTitle(t.title) && IsValidStatus(t.status)
             && (t.priority == "" || IsValidPriority(t.priority))
             && t.dueDate.Some? && !IsValidDate(AtMidnight(t.dueDate.value), now)) ==>
      r == Some(NewValidationError(PastDateMessage))
  {
    if t.title == "" then Some(NewValidationError("title is required"))
    else if t.status == "" then Some(NewValidationError("status is required"))
    else
      var patch: Patch := map[];
      match ValidateTitleField(Str(t.title), patch, "title")
      case Err(e) => Some(e)
      case Ok(patch1) =>
        match ValidateStatusField(Str(t.status), patch1, "status")
        case Err(e) => Some(e)
        case Ok(patch2) =>
          var priorityCheck := if t.priority != "" then ValidatePriorityField(Str(t.priority), patch2, "priority") else Ok(patch2);
          match priorityCheck
          case Err(e) => Some(e)
          case Ok(patch3) =>
            if t.dueDate.Some? then
              match ValidateDueDateField(DateValue(t.dueDate.value), patch3, "due_date", now)
              case Err(e) => Some(e)
              case Ok(_) => None
            else None
  }

  // ---------------------------------------------------------------------------
  // ValidateUpdate

  /** The reference statement of ValidateUpdate's verdict. */
  predicate UpdateAccepted(rules: seq<BusinessRule>, task: Task, patch: Patch, now: Instant) {
    && FirstRuleError(rules, task, patch).None?
    && patch != map[]
    && forall k :: k in patch ==> k in AllowedUpdateFields && FieldAccepts(k, patch[k], now)
  }

  /** A patch naming any field outside the allowed set is refused, whatever its other entries. */
  lemma UnknownFieldRefused(rules: seq<BusinessRule>, task: Task, patch: Patch, now: Instant, key: string)
    requires key in patch && key !in AllowedUpdateFields
    ensures !UpdateAccepted(rules, task, patch, now)
    ensures key in SystemFields ==> KeyError(key, patch[key], now) == Some(ApiError(400, "unknown field: " + key))
  {
  }

  /** The entries of an accepted patch are allowed fields, each acceptable on its own. */
  lemma AcceptedPatchEntries(rules: seq<BusinessRule>, task: Task, patch: Patch, now: Instant)
    requires UpdateAccepted(rules, task, patch, now)
    ensures patch.Keys <= AllowedUpdateFields && |patch| >= 1
    ensures forall k :: k in patch ==> KeyError(k, patch[k], now).None?
  {
    var k :| k in patch;
  }

  /**
   * The key phase of ValidateUpdate: every entry of the patch, in an unspecified
   * order, is either an unknown field or checked by its validator, which writes the
   * normalised value back. The first failing entry's error is returned.
   */
  method ValidateEntries(patch: Patch, now: Instant) returns (err: Option<ApiError>, out: Patch)
    ensures err.None? <==> forall k :: k in patch ==> KeyError(k, patch[k], now).None?
    ensures err.Some? ==> exists k :: k in patch && KeyError(k, patch[k], now) == err
    ensures out.Keys == patch.Keys
    ensures forall k :: k in patch ==> out[k] == patch[k] || out[k] == Normalized(k, patch[k])
    ensures err.None? ==> forall k :: k in patch ==> out[k] == Normalized(k, patch[k])
  {
    out := patch;
    var pending := patch.Keys;
    while pending != {}
      invariant pending <= patch.Keys
      invariant out.Keys == patch.Keys
      invariant forall k :: k in pending ==> out[k] == patch[k]
      invariant forall k :: k in patch && k !in pending ==>
                  out[k] == Normalized(k, patch[k]) && KeyError(k, patch[k], now).None?
      decreases pending
    {
      var fieldName :| fieldName in pending;
      var value := out[fieldName];
      if fieldName !in AllowedUpdateFields {
        assert KeyError(fieldName, patch[fieldName], now) == Some(NewValidationError("unknown field: " + fieldName));
        return Some(NewValidationError("unknown field: " + fieldName)), out;
      }
      ValidatorMeaning(fieldName, value, out, map[fieldName := value], now);
      var checked := RunFieldValidator(fieldName, value, out, now);
      if checked.Err? {
        assert KeyError(fieldName, patch[fieldName], now) == Some(checked.error);
        return Some(checked.error), out;
      }
      out := checked.value;
      pending := pending - {fieldName};
    }
    err := None;
  }

  /**
   * The service's configuration: the ordered registry of update rules, which starts
   * with the built-in rule and to which AddUpdateRule appends.
   */
  class TaskService {
    var updateRules: seq<BusinessRule>

    ghost predicate Valid()
      reads this
    {
      |updateRules| >= 1 && updateRules[0] == PreventCompletedTaskEdits
    }

    constructor ()
      ensures Valid()
      ensures updateRules == [PreventCompletedTaskEdits]
    {
      updateRules := [PreventCompletedTaskEdits];
    }

    /** Registers a rule to run after every rule registered before it. */
    method AddUpdateRule(rule: BusinessRule)
      requires Valid()
      modifies this
      ensures Valid()
      ensures updateRules == old(updateRules) + [rule]
    {
      updateRules := updateRules + [rule];
    }

    /**
     * ValidateUpdate: the rules in order (the first error wins), then "no fields to
     * update" for an empty patch, then every entry in an unspecified order, each
     * either an unknown field or checked by its validator, which writes the
     * normalised value back. Returns the error, if any, and the patch as left.
     */
    method ValidateUpdate(task: Task, patch: Patch, now: Instant) returns (err: Option<ApiError>, out: Patch)
      requires Valid()
      ensures IsCompletedTask(task.status) ==> err == Some(NewBusinessRuleError(CompletedMessage))
      ensures err.None? <==> UpdateAccepted(updateRules, task, patch, now)
      ensures FirstRuleError(updateRules, task, patch).Some? ==>
                err == FirstRuleError(updateRules, task, patch) && out == patch
      ensures FirstRuleError(updateRules, task, patch).None? && patch == map[] ==>
                err == Some(NewValidationError(NoFieldsMessage))
      ensures FirstRuleError(updateRules, task, patch).None? && err.Some? ==>
                err.value.code == 400
                && (patch == map[] || exists k :: k in patch && KeyError(k, patch[k], now) == err)
      ensures out.Keys == patch.Keys
      ensures forall k :: k in patch ==> out[k] == patch[k] || out[k] == Normalized(k, patch[k])
      ensures err.None? ==> forall k :: k in patch ==> out[k] == Normalized(k, patch[k])
    {
      if IsCompletedTask(task.status) {
        CompletedTaskIsFrozen(updateRules, task, patch);
      }
      var rules := updateRules;
      var i := 0;
      while i < |rules|
        invariant 0 <= i <= |rules|
        invariant forall j :: 0 <= j < i ==> rules[j](task, patch).None?
      {
        var ruleErr := rules[i](task, patch);
        if ruleErr.Some? {
          EarliestFailingRule(rules, i, task, patch);
          return ruleErr, patch;
        }
        i := i + 1;
      }
      assert FirstRuleError(updateRules, task, patch).None?;

      if |patch| == 0 {
        return Some(NewValidationError(NoFieldsMessage)), patch;
      }

      err, out := ValidateEntries(patch, now);
    }
  }

  /** A task with only the given title, status and priority set, as the tests build them. */
  function SampleTask(title: string, status: string, priority: string): Task {
    Task("", title, "", status, priority, None, Instant(Zero, 0), None)
  }

  /** The create cases of the service tests. */
  lemma ValidateCreateExamples(now: Instant)
    ensures ValidateCreate(SampleTask("Valid Task", "pending", ""), now).None?
    ensures ValidateCreate(SampleTask("", "pending", ""), now) == Some(NewValidationError("title is required"))
    ensures ValidateCreate(SampleTask("Task", "invalid_status", ""), now) == Some(NewValidationError(StatusMessage))
    ensures ValidateCreate(SampleTask("Task", "pending", "urgent"), now) == Some(NewValidationError(PriorityMessage))
  {
  }

  /** The due-date validator on formatted days: a later day is accepted and written back as a date, an earlier day is refused. */
  lemma DueDateFieldOnFormattedDays(later: Date, earlier: Date, now: Instant)
    requires ValidDate(later) && 0 <= later.year <= 9999 && Before(now.date, later)
    requires ValidDate(earlier) && 0 <= earlier.year <= 9999 && Before(earlier, now.date)
    ensures ValidateDueDateField(Str(Format(later)), map[], "due_date", now) == Ok(map["due_date" := DateValue(later)])
    ensures ValidateDueDateField(DateValue(later), map[], "due_date", now).Ok?
    ensures ValidateDueDateField(Str(Format(earlier)), map[], "due_date", now) == Err(NewValidationError(PastDateMessage))
    ensures ValidateDueDateField(Str("invalid-date"), map[], "due_date", now) == Err(NewValidationError(DateFormatMessage))
  {
    FormatThenParse(later);
    FormatThenParse(earlier);
    assert ParseDateOnly("invalid-date").Err? by {
      assert !IsDigit("invalid-date"[0]);
    }
  }

  /** The accepted update of the service tests, run through a fresh service. */
  method AcceptedUpdateExample(now: Instant) returns (err: Option<ApiError>, out: Patch)
    ensures err.None? && out == map["title" := Str("Updated Title")]
  {
    var service := new TaskService();
    var pending := SampleTask("", "pending", "");
    var patch: Patch := map["title" := Str("Updated Title")];
    assert FirstRuleError(service.updateRules, pending, patch).None?;
    assert FieldAccepts("title", Str("Updated Title"), now);
    assert "title" in patch;
    err, out := service.ValidateUpdate(pending, patch, now);
  }

  /** A completed task is refused with 409 before its patch is looked at. */
  method CompletedTaskExample(now: Instant) returns (err: Option<ApiError>)
    ensures err == Some(ApiError(409, CompletedMessage))
  {
    var service := new TaskService();
    var completed := SampleTask("", "completed", "");
    var out;
    err, out := service.ValidateUpdate(completed, map["title" := Str("Try to Update")], now);
  }

  /** An empty patch for a pending task is "no fields to update". */
  method EmptyPatchExample(now: Instant) returns (err: Option<ApiError>)
    ensures err == Some(NewValidationError(NoFieldsMessage))
  {
    var service := new TaskService();
    var pending := SampleTask("", "pending", "");
    assert FirstRuleError(service.updateRules, pending, map[]).None?;
    var out;
    err, out := service.ValidateUpdate(pending, map[], now);
  }

  /** A patch naming one unknown field, such as "unknown_field", is refused with that field's name. */
  method UnknownFieldExample(key: string, now: Instant) returns (err: Option<ApiError>)
    requires key !in AllowedUpdateFields
    ensures err == Some(NewValidationError("unknown field: " + key))
  {
    var service := new TaskService();
    var pending := SampleTask("", "pending", "");
    var patch: Patch := map[key := Str("value")];
    assert FirstRuleError(service.updateRules, pending, patch).None?;
    assert patch.Keys == {key};
    var out;
    err, out := service.ValidateUpdate(pending, patch, now);
  }

  /** A patch with an invalid status is refused with the status message. */
  method InvalidStatusExample(now: Instant) returns (err: Option<ApiError>)
    ensures err == Some(NewValidationError(StatusMessage))
  {
    var service := new TaskService();
    var pending := SampleTask("", "pending", "");
    var patch: Patch := map["status" := Str("invalid")];
    assert FirstRuleError(service.updateRules, pending, patch).None?;
    assert patch.Keys == {"status"};
    var out;
    err, out := service.ValidateUpdate(pending, patch, now);
    assert KeyError("status", Str("invalid"), now) == Some(NewValidationError(StatusMessage));
  }
}
