/**
 * The Task record of models/task.go and what its JSON struct tags say:
 * the serialised name of each field and which fields are left out when empty.
 */
module Tasks {
  import opened Wrappers
  import opened Dates

  /**
   * A task. `dueDate` and `updatedAt` are pointers in the source and may be absent;
   * every other field always has a value (possibly the empty string).
   */
  datatype Task = Task(
    id: string,
    title: string,
    description: string,
    status: string,
    priority: string,
    dueDate: Option<Date>,
    createdAt: Instant,
    updatedAt: Option<Instant>)

  /** The `json` struct tags of Task's eight fields, in declaration order. */
  const TaskJsonTags: seq<string> :=
    ["id", "title", "description,omitempty", "status", "priority", "due_date", "created_at", "updated_at"]

  /** strings.Split(s, ","): the pieces between commas, at least one. */
  function SplitOnComma(s: string): (parts: seq<string>)
    ensures |parts| >= 1
    ensures forall i :: 0 <= i < |parts| ==> ',' !in parts[i]
  {
    if s == [] then [""]
    else
      var rest := SplitOnComma(s[1..]);
      if s[0] == ',' then [""] + rest
      else [[s[0]] + rest[0]] + rest[1..]
  }

  /** strings.Join(parts, ","). */
  function JoinWithComma(parts: seq<string>): string
    requires |parts| >= 1
  {
    if |parts| == 1 then parts[0] else parts[0] + "," + JoinWithComma(parts[1..])
  }

  /** Splitting loses nothing: joining the pieces with commas gives back the string. */
  lemma {:induction false} SplitJoin(s: string)
    ensures JoinWithComma(SplitOnComma(s)) == s
  {
    if s != [] {
      var rest := SplitOnComma(s[1..]);
      SplitJoin(s[1..]);
      if s[0] == ',' {
        assert ([""] + rest)[1..] == rest;
      } else {
        var parts := [[s[0]] + rest[0]] + rest[1..];
        assert parts[1..] == rest[1..];
        if |rest| > 1 {
          assert JoinWithComma(rest) == rest[0] + "," + JoinWithComma(rest[1..]);
        }
        assert s == [s[0]] + s[1..];
      }
    }
  }

  /** A string without commas is a single piece. */
  lemma {:induction false} SplitNoComma(a: string)
    requires ',' !in a
    ensures SplitOnComma(a) == [a]
  {
    if a != [] {
      assert ',' !in a[1..] by {
        forall i | 0 <= i < |a[1..]| ensures a[1..][i] != ',' { assert a[1..][i] == a[i + 1]; }
      }
      SplitNoComma(a[1..]);
      assert a == [a[0]] + a[1..];
    }
  }

  /** A first piece without commas, then a comma, then the rest. */
  lemma {:induction false} SplitAfterName(a: string, b: string)
    requires ',' !in a
    ensures SplitOnComma(a + "," + b) == [a] + SplitOnComma(b)
  {
    if a == [] {
      assert a + "," + b == [','] + b;
      assert ([','] + b)[1..] == b;
    } else {
      assert ',' !in a[1..] by {
        forall i | 0 <= i < |a[1..]| ensures a[1..][i] != ',' { assert a[1..][i] == a[i + 1]; }
      }
      SplitAfterName(a[1..], b);
      assert (a + "," + b)[1..] == a[1..] + "," + b;
      assert a == [a[0]] + a[1..];
    }
  }

  /** The serialised name in a tag: the text before its first comma. */
  function TagName(tag: string): string {
    SplitOnComma(tag)[0]
  }

  /** Whether a tag carries the `omitempty` option. */
  predicate HasOmitEmpty(tag: string) {
    "omitempty" in SplitOnComma(tag)[1..]
  }

  /** A tag without options names its field by its whole text. */
  lemma PlainTag(tag: string)
    requires ',' !in tag
    ensures TagName(tag) == tag && !HasOmitEmpty(tag)
  {
    SplitNoComma(tag);
  }

  /** A tag `name,option` names its field `name` and carries the one option `option`. */
  lemma TagWithOption(name: string, option: string)
    requires ',' !in name && ',' !in option
    ensures TagName(name + "," + option) == name
    ensures SplitOnComma(name + "," + option)[1..] == [option]
  {
    SplitNoComma(option);
    SplitAfterName(name, option);
  }

  /** The serialised names of Task's fields, in declaration order. */
  const TaskFieldNames: seq<string> :=
    ["id", "title", "description", "status", "priority", "due_date", "created_at", "updated_at"]

  /** The `i`-th tag names the `i`-th field name. */
  lemma TagNameAt(i: int)
    requires 0 <= i < |TaskJsonTags|
    ensures TagName(TaskJsonTags[i]) == TaskFieldNames[i]
  {
    if i == 2 {
      DescriptionTag();
    } else {
      PlainTag(TaskFieldNames[i]);
    }
  }

  /** Every field of Task has a `json` tag. */
  lemma TaskTagNonEmpty(i: int)
    requires 0 <= i < |TaskJsonTags|
    ensures TaskJsonTags[i] != ""
  {
    assert |TaskJsonTags[i]| >= 2;
  }

  /** Only the description's tag carries `omitempty`. */
  lemma OmitEmptyAt(i: int)
    requires 0 <= i < |TaskJsonTags|
    ensures HasOmitEmpty(TaskJsonTags[i]) <==> TaskFields[i] in OmitEmptyFields
  {
    if i == 2 {
      DescriptionTag();
    } else {
      PlainTag(TaskFieldNames[i]);
    }
  }

  /** The description's tag: the name "description" with the one option `omitempty`. */
  lemma DescriptionTag()
    ensures TagName(TaskJsonTags[2]) == "description" && HasOmitEmpty(TaskJsonTags[2])
  {
    TagWithOption("description", "omitempty");
    assert "description" + "," + "omitempty" == TaskJsonTags[2];
  }

  /** Task's fields, in declaration order: the `i`-th carries the tag TaskJsonTags[i]. */
  datatype TaskField = Id | Title | Description | Status | Priority | DueDate | CreatedAt | UpdatedAt

  const TaskFields: seq<TaskField> := [Id, Title, Description, Status, Priority, DueDate, CreatedAt, UpdatedAt]

  /** The fields whose tag carries `omitempty` (see TagNameAt). */
  const OmitEmptyFields: set<TaskField> := {Description}

  /** Go's notion of an empty value for `omitempty`: "" strings and nil pointers; a time.Time is never empty. */
  predicate FieldIsEmpty(t: Task, f: TaskField) {
    match f
    case Id => t.id == ""
    case Title => t.title == ""
    case Description => t.description == ""
    case Status => t.status == ""
    case Priority => t.priority == ""
    case DueDate => t.dueDate.None?
    case CreatedAt => false
    case UpdatedAt => t.updatedAt.None?
  }

  /** Whether encoding `t` writes field `f`: always, unless `f` is omitempty and empty. */
  predicate Written(t: Task, f: TaskField) {
    !(f in OmitEmptyFields && FieldIsEmpty(t, f))
  }

  /** The fields among `fields` that encoding `t` writes, in order. */
  function Encode(t: Task, fields: seq<TaskField>): seq<TaskField> {
    if fields == [] then []
    else (if Written(t, fields[0]) then [fields[0]] else []) + Encode(t, fields[1..])
  }

  /** The fields written when encoding `t` as JSON, in declaration order. */
  function EncodedFields(t: Task): seq<TaskField> {
    Encode(t, TaskFields)
  }

  /** Encoding keeps exactly the written fields of the list. */
  lemma {:induction false} EncodeMembers(t: Task, fields: seq<TaskField>, f: TaskField)
    ensures f in Encode(t, fields) <==> f in fields && Written(t, f)
  {
    if fields != [] {
      EncodeMembers(t, fields[1..], f);
      assert fields == [fields[0]] + fields[1..];
    }
  }

  /** Encoding a concatenation encodes each part. */
  lemma {:induction false} EncodeAppend(t: Task, a: seq<TaskField>, b: seq<TaskField>)
    ensures Encode(t, a + b) == Encode(t, a) + Encode(t, b)
  {
    if a != [] {
      assert (a + b)[0] == a[0];
      assert (a + b)[1..] == a[1..] + b;
      EncodeAppend(t, a[1..], b);
      var first: seq<TaskField> := if Written(t, a[0]) then [a[0]] else [];
      assert Encode(t, a + b) == first + (Encode(t, a[1..]) + Encode(t, b));
      assert first + (Encode(t, a[1..]) + Encode(t, b)) == (first + Encode(t, a[1..])) + Encode(t, b);
    } else {
      assert a + b == b;
    }
  }

  /** A list of fields that are always written is encoded whole. */
  lemma {:induction false} EncodeAllWritten(t: Task, fields: seq<TaskField>)
    requires forall i :: 0 <= i < |fields| ==> fields[i] !in OmitEmptyFields
    ensures Encode(t, fields) == fields
  {
    if fields != [] {
      EncodeAllWritten(t, fields[1..]);
    }
  }

  lemma EncodeDescription(t: Task)
    ensures Encode(t, [Description]) == if t.description == "" then [] else [Description]
  {
    assert [Description][1..] == [];
  }

  /**
   * The encoded record always has id, title, status, priority, due_date, created_at and
   * updated_at (absent optional values are written as null), and has description
   * exactly when the description is not empty.
   */
  lemma EncodedFieldsOfTask(t: Task)
    ensures EncodedFields(t) ==
      [Id, Title] + (if t.description == "" then [] else [Description])
      + [Status, Priority, DueDate, CreatedAt, UpdatedAt]
  {
    var head, rest := [Id, Title], [Status, Priority, DueDate, CreatedAt, UpdatedAt];
    var desc: seq<TaskField> := if t.description == "" then [] else [Description];
    assert TaskFields == (head + [Description]) + rest;
    EncodeAppend(t, head + [Description], rest);
    EncodeAppend(t, head, [Description]);
    EncodeAllWritten(t, head);
    EncodeAllWritten(t, rest);
    EncodeDescription(t);
    assert EncodedFields(t) == (head + desc) + rest;
  }

  /** An empty description is left out of the encoded record, and only then. */
  lemma DescriptionOmittedWhenEmpty(t: Task)
    ensures Description in EncodedFields(t) <==> t.description != ""
    ensures forall f :: f != Description ==> f in EncodedFields(t)
  {
    EncodeMembers(t, TaskFields, Description);
    forall f | f != Description ensures f in EncodedFields(t) {
      EncodeMembers(t, TaskFields, f);
    }
  }
}
