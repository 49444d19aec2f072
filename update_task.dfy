/**
 * The statement `update_task` builds from a request body: one `SET` clause
 * per field the body carries, in a fixed field order, then the
 * `updated_at` stamp; and the parameters for the `?` placeholders, in the
 * same order, then the task id for `WHERE id = ?`.
 */
module UpdateTask {
  import opened Json

  /** The task fields a body may change, in the order `update_task` tests them. */
  datatype Field = Name | Command | ScheduleType | ScheduleConfig | Enabled

  const FieldOrder: seq<Field> := [Name, Command, ScheduleType, ScheduleConfig, Enabled]

  /** The position of a field in `FieldOrder`. */
  function Rank(f: Field): nat {
    match f
    case Name => 0
    case Command => 1
    case ScheduleType => 2
    case ScheduleConfig => 3
    case Enabled => 4
  }

  /** The body key and the column of a field. */
  function Key(f: Field): string {
    match f
    case Name => "name"
    case Command => "command"
    case ScheduleType => "schedule_type"
    case ScheduleConfig => "schedule_config"
    case Enabled => "enabled"
  }

  function Clause(f: Field): string {
    Key(f) + " = ?"
  }

  const StampClause := "updated_at = CURRENT_TIMESTAMP"

  /**
   * A value bound to a placeholder: a body value as given, the text
   * `json.dumps` makes of one, the 0/1 of a truth value, or the task id.
   */
  datatype Param = Value(v: Json) | Dumped(v: Json) | Flag(bit: int) | RowId(id: nat)

  /** The parameter for a field whose body value is `v`. */
  function ParamOf(f: Field, v: Json): Param {
    match f
    case ScheduleConfig => Dumped(v)
    case Enabled => Flag(if Truthy(v) then 1 else 0)
    case _ => Value(v)
  }

  /** One field's share of the statement: the field when the body carries its key, nothing otherwise. */
  function Opt(data: map<string, Json>, f: Field): seq<Field> {
    if Key(f) in data then [f] else []
  }

  /** The fields of `fields` whose key the body has, in their order. */
  function Present(fields: seq<Field>, data: map<string, Json>): seq<Field> {
    if fields == [] then [] else Present(fields[..|fields| - 1], data) + Opt(data, fields[|fields| - 1])
  }

  /** The clauses for a list of fields, one per field. */
  function Clauses(fields: seq<Field>): (r: seq<string>)
    ensures |r| == |fields| && forall i :: 0 <= i < |fields| ==> r[i] == Clause(fields[i])
  {
    if fields == [] then [] else Clauses(fields[..|fields| - 1]) + [Clause(fields[|fields| - 1])]
  }

  /** The parameters for a list of fields, one per field, each from the body's value for it. */
  function Params(fields: seq<Field>, data: map<string, Json>): (r: seq<Param>)
    ensures |r| == |fields| && forall i :: 0 <= i < |fields| ==> r[i] == ParamOf(fields[i], Get(data, Key(fields[i])))
  {
    if fields == [] then []
    else Params(fields[..|fields| - 1], data) + [ParamOf(fields[|fields| - 1], Get(data, Key(fields[|fields| - 1])))]
  }

  /** The fields `update_task` sets for a body. */
  function Changed(data: map<string, Json>): seq<Field> {
    Present(FieldOrder, data)
  }

  /**
   * The `SET` clauses of the statement for a body, field by field in the
   * order `update_task` tests them, then the stamp.
   */
  function SetClauses(data: map<string, Json>): seq<string> {
    ClauseIf(data, Name) + ClauseIf(data, Command) + ClauseIf(data, ScheduleType)
    + ClauseIf(data, ScheduleConfig) + ClauseIf(data, Enabled) + [StampClause]
  }

  /** The parameters of the statement for a body and a task id, in the same order. */
  function SetParams(data: map<string, Json>, taskId: nat): seq<Param> {
    ParamIf(data, Name) + ParamIf(data, Command) + ParamIf(data, ScheduleType)
    + ParamIf(data, ScheduleConfig) + ParamIf(data, Enabled) + [RowId(taskId)]
  }

  /** `update_task(task_id)` up to the `UPDATE`: the two lists, built by appending. */
  method BuildUpdate(data: map<string, Json>, taskId: nat) returns (updates: seq<string>, params: seq<Param>)
    ensures updates == SetClauses(data)
    ensures params == SetParams(data, taskId)
  {
    ClauseTexts();
    updates, params := [], [];
    if "name" in data {
      updates := updates + ["name = ?"];
      params := params + [Value(data["name"])];
    }
    assert updates == ClauseIf(data, Name) && params == ParamIf(data, Name);
    if "command" in data {
      updates := updates + ["command = ?"];
      params := params + [Value(data["command"])];
    }
    assert updates == ClauseIf(data, Name) + ClauseIf(data, Command);
    assert params == ParamIf(data, Name) + ParamIf(data, Command);
    if "schedule_type" in data {
      updates := updates + ["schedule_type = ?"];
      params := params + [Value(data["schedule_type"])];
    }
    assert updates == ClauseIf(data, Name) + ClauseIf(data, Command) + ClauseIf(data, ScheduleType);
    assert params == ParamIf(data, Name) + ParamIf(data, Command) + ParamIf(data, ScheduleType);
    if "schedule_config" in data {
      updates := updates + ["schedule_config = ?"];
      params := params + [Dumped(data["schedule_config"])];
    }
    assert updates == ClauseIf(data, Name) + ClauseIf(data, Command) + ClauseIf(data, ScheduleType)
                      + ClauseIf(data, ScheduleConfig);
    assert params == ParamIf(data, Name) + ParamIf(data, Command) + ParamIf(data, ScheduleType)
                     + ParamIf(data, ScheduleConfig);
    if "enabled" in data {
      updates := updates + ["enabled = ?"];
      params := params + [Flag(if Truthy(data["enabled"]) then 1 else 0)];
    }
    updates := updates + [StampClause];
    params := params + [RowId(taskId)];
  }

  /** One field's clause, when the body carries the field. */
  function ClauseIf(data: map<string, Json>, f: Field): seq<string> {
    if Key(f) in data then [Clause(f)] else []
  }

  /** One field's parameter, when the body carries the field. */
  function ParamIf(data: map<string, Json>, f: Field): seq<Param> {
    if Key(f) in data then [ParamOf(f, data[Key(f)])] else []
  }

  lemma ClauseTexts()
    ensures Clause(Name) == "name = ?" && Clause(Command) == "command = ?"
    ensures Clause(ScheduleType) == "schedule_type = ?" && Clause(ScheduleConfig) == "schedule_config = ?"
    ensures Clause(Enabled) == "enabled = ?"
  {
    assert Key(Name) + " = ?" == "name = ?";
    assert Key(Command) + " = ?" == "command = ?";
    assert Key(ScheduleType) + " = ?" == "schedule_type = ?";
    assert Key(ScheduleConfig) + " = ?" == "schedule_config = ?";
    assert Key(Enabled) + " = ?" == "enabled = ?";
  }

  /** Clauses and parameters of the present fields, the last field split off. */
  lemma Distribute(fields: seq<Field>, data: map<string, Json>)
    requires fields != []
    ensures var init, last := fields[..|fields| - 1], fields[|fields| - 1];
      && Clauses(Present(fields, data)) == Clauses(Present(init, data)) + ClauseIf(data, last)
      && Params(Present(fields, data), data) == Params(Present(init, data), data) + ParamIf(data, last)
  {
    var init, last := fields[..|fields| - 1], fields[|fields| - 1];
    var p := Present(init, data);
    if Key(last) in data {
      assert (p + [last])[..|p|] == p;
    } else {
      assert p + [] == p;
    }
  }

  /** Clauses and parameters of the present fields of a five-field list, field by field. */
  lemma PresentOfFive(fs: seq<Field>, data: map<string, Json>)
    requires |fs| == 5
    ensures Clauses(Present(fs, data)) == ClauseIf(data, fs[0]) + ClauseIf(data, fs[1]) + ClauseIf(data, fs[2])
                                          + ClauseIf(data, fs[3]) + ClauseIf(data, fs[4])
    ensures Params(Present(fs, data), data) == ParamIf(data, fs[0]) + ParamIf(data, fs[1]) + ParamIf(data, fs[2])
                                               + ParamIf(data, fs[3]) + ParamIf(data, fs[4])
  {
    var p1, p2, p3, p4 := fs[..1], fs[..2], fs[..3], fs[..4];
    assert p1[..0] == [] && p2[..1] == p1 && p3[..2] == p2 && p4[..3] == p3 && fs[..4] == p4;
    Distribute(p1, data);
    assert [] + ClauseIf(data, fs[0]) == ClauseIf(data, fs[0]);
    assert [] + ParamIf(data, fs[0]) == ParamIf(data, fs[0]);
    Distribute(p2, data);
    Distribute(p3, data);
    Distribute(p4, data);
    Distribute(fs, data);
  }

  /** The statement's lists are the clauses and parameters of `Changed`, then the stamp and the id. */
  lemma SetListsChanged(data: map<string, Json>, taskId: nat)
    ensures SetClauses(data) == Clauses(Changed(data)) + [StampClause]
    ensures SetParams(data, taskId) == Params(Changed(data), data) + [RowId(taskId)]
  {
    PresentOfFive(FieldOrder, data);
  }

  /** `Present` keeps exactly the fields of the list whose key the body carries. */
  lemma {:induction false} PresentMembers(fields: seq<Field>, data: map<string, Json>)
    ensures forall f :: f in Present(fields, data) <==> f in fields && Key(f) in data
  {
    if fields != [] {
      var init, last := fields[..|fields| - 1], fields[|fields| - 1];
      PresentMembers(init, data);
      assert fields == init + [last];
    }
  }

  /** `Present` keeps the order of the list it filters. */
  lemma {:induction false} PresentOrdered(fields: seq<Field>, data: map<string, Json>)
    requires forall i, j :: 0 <= i < j < |fields| ==> Rank(fields[i]) < Rank(fields[j])
    ensures forall i, j :: 0 <= i < j < |Present(fields, data)| ==>
      Rank(Present(fields, data)[i]) < Rank(Present(fields, data)[j])
  {
    if fields != [] {
      var init, last := fields[..|fields| - 1], fields[|fields| - 1];
      PresentOrdered(init, data);
      PresentMembers(init, data);
      var p, r := Present(init, data), Present(fields, data);
      assert r == p + Opt(data, last);
      forall i | 0 <= i < |p| ensures Rank(p[i]) < Rank(last) {
        assert p[i] in p;
        var k :| 0 <= k < |init| && init[k] == p[i];
        assert fields[k] == p[i];
      }
      forall i, j | 0 <= i < j < |r| ensures Rank(r[i]) < Rank(r[j]) {
        assert r[i] == p[i];
        if j < |p| {
          assert r[j] == p[j];
        }
      }
    }
  }

  /** The fields set are exactly those the body carries, in field order. */
  lemma ChangedFields(data: map<string, Json>)
    ensures forall f :: f in Changed(data) <==> Key(f) in data
    ensures forall i, j :: 0 <= i < j < |Changed(data)| ==> Rank(Changed(data)[i]) < Rank(Changed(data)[j])
  {
    forall i | 0 <= i < |FieldOrder| ensures Rank(FieldOrder[i]) == i {
      if i == 0 {} else if i == 1 {} else if i == 2 {} else if i == 3 {} else {}
    }
    PresentMembers(FieldOrder, data);
    PresentOrdered(FieldOrder, data);
    forall f ensures f in FieldOrder {
      match f
      case Name => assert FieldOrder[0] == f;
      case Command => assert FieldOrder[1] == f;
      case ScheduleType => assert FieldOrder[2] == f;
      case ScheduleConfig => assert FieldOrder[3] == f;
      case Enabled => assert FieldOrder[4] == f;
    }
  }

  /**
   * One clause and one parameter per field set, at the same position, each
   * from that field's body value; `enabled` is bound as 1 or 0. With
   * `SetListsChanged`: as many parameters as clauses, the stamp and the task
   * id last.
   */
  lemma UpdateShape(data: map<string, Json>)
    ensures var changed := Changed(data);
      var cs, ps := Clauses(changed), Params(changed, data);
      && |cs| == |ps| == |changed|
      && (forall i :: 0 <= i < |changed| ==>
            Key(changed[i]) in data && cs[i] == Clause(changed[i]) && ps[i] == ParamOf(changed[i], data[Key(changed[i])]))
      && (forall i :: 0 <= i < |changed| && changed[i] == Enabled ==> ps[i].Flag? && 0 <= ps[i].bit <= 1)
  {
    ChangedFields(data);
    var changed := Changed(data);
    forall i | 0 <= i < |changed| ensures Key(changed[i]) in data {
      assert changed[i] in changed;
    }
  }
}
