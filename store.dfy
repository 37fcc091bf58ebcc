// The in-memory task store: a map from id to Task with create, list, get, update
// and delete. The fresh id and the current time are parameters; locking is not
// modelled (every operation runs alone).

module Store {
  import opened Wrappers
  import opened Dates
  import opened Validation
  import opened Tasks
  import opened Service

  /** The store's one error: the id names no stored task ("task not found"). */
  datatype StoreError = NotFound

  /** The record Create stores for `t`: fresh id, creation time `now`, never updated, and a zero due date dropped. */
  function Created(t: Task, id: string, now: Instant): (r: Task)
    ensures r.id == id && r.createdAt == now && r.updatedAt.None?
    ensures r.title == t.title && r.description == t.description
    ensures r.status == t.status && r.priority == t.priority
    ensures r.dueDate.Some? <==> t.dueDate.Some? && !IsZero(t.dueDate.value)
    ensures r.dueDate.Some? ==> r.dueDate == t.dueDate
  {
    var due := if t.dueDate.Some? && IsZero(t.dueDate.value) then None else t.dueDate;
    t.(id := id, dueDate := due, createdAt := now, updatedAt := None)
  }

  /** The patch value a well-typed entry for an updatable field carries: a string, or a date for due_date. */
  predicate WellTyped(field: string, value: PatchValue) {
    if field == "due_date" then value.DateValue? else value.Str?
  }

  /** The value of an updatable field of `t` in patch form; None for an absent due date or any other name. */
  function FieldValue(t: Task, field: string): Option<PatchValue> {
    match field
    case "title" => Some(Str(t.title))
    case "description" => Some(Str(t.description))
    case "status" => Some(Str(t.status))
    case "priority" => Some(Str(t.priority))
    case "due_date" => if t.dueDate.Some? then Some(DateValue(t.dueDate.value)) else None
    case _ => None
  }

  /** The entry of `patch` that Update writes into `field`, if any. */
  function AppliedEntry(patch: Patch, field: string): Option<PatchValue> {
    if field in patch && WellTyped(field, patch[field]) then Some(patch[field]) else None
  }

  /**
   * The task Update builds before stamping it: every updatable field whose key is
   * present with a well-typed value takes that value, and nothing else changes.
   */
  function ApplyPatch(t: Task, patch: Patch): (r: Task)
    ensures r.id == t.id && r.createdAt == t.createdAt && r.updatedAt == t.updatedAt
    ensures forall f :: f in AllowedUpdateFields && AppliedEntry(patch, f).Some? ==> FieldValue(r, f) == AppliedEntry(patch, f)
    ensures forall f :: f in AllowedUpdateFields && AppliedEntry(patch, f).None? ==> FieldValue(r, f) == FieldValue(t, f)
  {
    var title := if AppliedEntry(patch, "title").Some? then patch["title"].s else t.title;
    var description := if AppliedEntry(patch, "description").Some? then patch["description"].s else t.description;
    var status := if AppliedEntry(patch, "status").Some? then patch["status"].s else t.status;
    var priority := if AppliedEntry(patch, "priority").Some? then patch["priority"].s else t.priority;
    var due := if AppliedEntry(patch, "due_date").Some? then Some(patch["due_date"].d) else t.dueDate;
    t.(title := title, description := description, status := status, priority := priority, dueDate := due)
  }

  /** A patch with none of the updatable fields leaves the task as it was. */
  lemma ApplyEmptyPatch(t: Task, patch: Patch)
    requires forall f :: f in patch ==> f !in AllowedUpdateFields
    ensures ApplyPatch(t, patch) == t
  {
    assert ApplyPatch(t, patch).title == t.title;
  }

  /** What the validation layer guarantees of a stored task. */
  predicate WellFormed(t: Task) {
    && IsValidTitle(t.title)
    && IsValidStatus(t.status)
    && (t.priority == "" || IsValidPriority(t.priority))
  }

  /** A task that ValidateCreate accepted is stored well-formed, with a due date not before today. */
  lemma CreatedTaskWellFormed(t: Task, id: string, now: Instant)
    requires ValidateCreate(t, now).None?
    ensures WellFormed(Created(t, id, now))
    ensures Created(t, id, now).dueDate.Some? ==> IsValidDate(AtMidnight(Created(t, id, now).dueDate.value), now)
  {
  }

  /** An accepted entry, once normalised, is well-typed; only a due date changes in normalising. */
  lemma NormalizedWellTyped(f: string, value: PatchValue, now: Instant)
    requires f in AllowedUpdateFields && FieldAccepts(f, value, now)
    ensures WellTyped(f, Normalized(f, value))
    ensures f != "due_date" ==> Normalized(f, value) == value
    ensures f == "due_date" ==> IsValidDate(AtMidnight(Normalized(f, value).d), now)
  {
  }

  /**
   * Applying a patch that ValidateUpdate accepted, as it left it, to a well-formed
   * task gives a well-formed task; a patched due date is not before today.
   */
  lemma ValidatedPatchKeepsWellFormed(rules: seq<BusinessRule>, t: Task, patch: Patch, out: Patch, now: Instant)
    requires WellFormed(t)
    requires UpdateAccepted(rules, t, patch, now)
    requires out.Keys == patch.Keys && forall k :: k in patch ==> out[k] == Normalized(k, patch[k])
    ensures WellFormed(ApplyPatch(t, out))
    ensures "due_date" in patch ==> ApplyPatch(t, out).dueDate.Some? && IsValidDate(AtMidnight(ApplyPatch(t, out).dueDate.value), now)
  {
    var r := ApplyPatch(t, out);
    if "title" in patch {
      NormalizedWellTyped("title", patch["title"], now);
      assert r.title == patch["title"].s;
    }
    if "status" in patch {
      NormalizedWellTyped("status", patch["status"], now);
      assert r.status == patch["status"].s;
    }
    if "priority" in patch {
      NormalizedWellTyped("priority", patch["priority"], now);
      assert r.priority == patch["priority"].s;
    }
    if "due_date" in patch {
      NormalizedWellTyped("due_date", patch["due_date"], now);
      assert r.dueDate == Some(out["due_date"].d);
    }
  }

  /** Every entry of a patch that ValidateUpdate accepted, as it left it, is one Update applies. */
  lemma ValidatedEntriesApplied(rules: seq<BusinessRule>, t: Task, patch: Patch, out: Patch, now: Instant)
    requires UpdateAccepted(rules, t, patch, now)
    requires out.Keys == patch.Keys && forall k :: k in patch ==> out[k] == Normalized(k, patch[k])
    ensures forall f :: f in out ==> AppliedEntry(out, f) == Some(out[f])
  {
    forall f | f in out ensures AppliedEntry(out, f) == Some(out[f]) {
      NormalizedWellTyped(f, patch[f], now);
    }
  }

  /**
   * The progress of List: `out` holds the tasks of the keys already visited (all but
   * `rest`), each once, and has one element per visited key.
   */
  ghost predicate ListedSoFar(items: map<string, Task>, out: seq<Task>, rest: set<string>) {
    && rest <= items.Keys
    && |out| + |rest| == |items|
    && (forall i :: 0 <= i < |out| ==> out[i].id in items.Keys - rest && items[out[i].id] == out[i])
    && (forall i, j :: 0 <= i < j < |out| ==> out[i].id != out[j].id)
    && (forall id :: id in items.Keys - rest ==> exists i :: 0 <= i < |out| && out[i] == items[id])
  }

  /** Visiting one more key, whose task carries it as id, keeps ListedSoFar. */
  lemma ListStep(items: map<string, Task>, out: seq<Task>, rest: set<string>, id: string)
    requires ListedSoFar(items, out, rest) && id in rest && items[id].id == id
    ensures ListedSoFar(items, out + [items[id]], rest - {id})
  {
    var next := out + [items[id]];
    assert forall i :: 0 <= i < |out| ==> out[i].id != id;
    forall k | k in items.Keys - (rest - {id}) ensures exists i :: 0 <= i < |next| && next[i] == items[k] {
      if k == id {
        assert next[|out|] == items[k];
      } else {
        var i :| 0 <= i < |out| && out[i] == items[k];
        assert next[i] == items[k];
      }
    }
  }

  /** The store: every stored task sits under its own id. */
  class InMemoryStore {
    var items: map<string, Task>

    ghost predicate Valid()
      reads this
    {
      forall id :: id in items ==> items[id].id == id
    }

    constructor ()
      ensures Valid()
      ensures items == map[]
    {
      items := map[];
    }

    /** Get: the stored task, or NotFound. */
    function Get(id: string): (r: Result<Task, StoreError>)
      reads this
      ensures r.Ok? <==> id in items
      ensures r.Ok? ==> r.value == items[id]
      ensures Valid() && r.Ok? ==> r.value.id == id
    {
      if id in items then Ok(items[id]) else Err(NotFound)
    }

    /** Create: stores the prepared record under the fresh id and returns it. */
    method Create(t: Task, id: string, now: Instant) returns (r: Task)
      requires Valid()
      modifies this
      ensures Valid()
      ensures r == Created(t, id, now)
      ensures items == old(items)[id := r]
      ensures Get(id) == Ok(r)
      ensures forall other :: other != id ==> Get(other) == old(Get(other))
    {
      var stored := t.(id := id);
      if stored.dueDate.Some? && IsZero(stored.dueDate.value) {
        stored := stored.(dueDate := None);
      }
      stored := stored.(createdAt := now, updatedAt := None);
      items := items[id := stored];
      r := stored;
    }

    /** List: every stored task exactly once, in an unspecified order. */
    method List() returns (out: seq<Task>)
      requires Valid()
      ensures |out| == |items|
      ensures forall i :: 0 <= i < |out| ==> out[i].id in items && items[out[i].id] == out[i]
      ensures forall i, j :: 0 <= i < j < |out| ==> out[i].id != out[j].id
      ensures forall id :: id in items ==> exists i :: 0 <= i < |out| && out[i] == items[id]
    {
      out := [];
      var rest := items.Keys;
      while rest != {}
        invariant ListedSoFar(items, out, rest)
        decreases rest
      {
        var id :| id in rest;
        ListStep(items, out, rest, id);
        out := out + [items[id]];
        rest := rest - {id};
      }
    }

    /**
     * Update: on a copy of the stored task, each updatable field whose key is present
     * with a well-typed value is overwritten; then the copy is stamped with `now`,
     * stored back under the same id and returned. A missing id changes nothing.
     */
    method Update(id: string, patch: Patch, now: Instant) returns (r: Result<Task, StoreError>)
      requires Valid()
      modifies this
      ensures Valid()
      ensures id !in old(items) ==> r == Err(NotFound) && items == old(items)
      ensures id in old(items) ==>
                && r == Ok(ApplyPatch(old(items)[id], patch).(updatedAt := Some(now)))
                && items == old(items)[id := r.value]
    {
      if id !in items {
        return Err(NotFound);
      }
      var t := items[id];
      ghost var expected := ApplyPatch(t, patch);
      if "title" in patch && patch["title"].Str? {
        t := t.(title := patch["title"].s);
      }
      if "description" in patch && patch["description"].Str? {
        t := t.(description := patch["description"].s);
      }
      if "status" in patch && patch["status"].Str? {
        t := t.(status := patch["status"].s);
      }
      if "priority" in patch && patch["priority"].Str? {
        t := t.(priority := patch["priority"].s);
      }
      if "due_date" in patch && patch["due_date"].DateValue? {
        t := t.(dueDate := Some(patch["due_date"].d));
      }
      assert t == expected;
      t := t.(updatedAt := Some(now));
      items := items[id := t];
      r := Ok(t);
    }

    /** Delete: removes the id; a missing id is NotFound and changes nothing. */
    method Delete(id: string) returns (err: Option<StoreError>)
      requires Valid()
      modifies this
      ensures Valid()
      ensures id in old(items) ==> err.None? && items == old(items) - {id}
      ensures id !in old(items) ==> err == Some(NotFound) && items == old(items)
      ensures Get(id) == Err(NotFound)
      ensures forall other :: other != id ==> Get(other) == old(Get(other))
    {
      if id !in items {
        return Some(NotFound);
      }
      items := items - {id};
      err := None;
    }
  }

  /** Creating a task and reading it back gives the task; deleting it makes a second read fail. */
  method CreateGetDeleteScenario(newId: string, now: Instant) returns (got: Result<Task, StoreError>, deleted: Option<StoreError>, after: Result<Task, StoreError>)
    ensures got.Ok? && got.value.title == "Test" && got.value.status == "pending" && got.value.id == newId
    ensures deleted.None? && after == Err(NotFound)
  {
    var s := new InMemoryStore();
    var task := Task("", "Test", "", "pending", "", None, Instant(Zero, 0), None);
    var created := s.Create(task, newId, now);
    got := s.Get(created.id);
    deleted := s.Delete(created.id);
    after := s.Get(created.id);
  }
}
