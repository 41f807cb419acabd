/**
 What the runtime half comes to, said apart from the functions that compute it: what a condition demands, when a field
 shows, what an immutable field allows.
 */
module FieldDslMeaning {
  import opened Wrappers
  import opened Strings
  import opened JsValue
  import opened FieldDsl
  import opened FieldDslLint
  import opened VisibilityTheorems

  // ---- Comparisons ----

  /** A number, or a text that reads as one. */
  predicate Reads(js: Js, v: Value, r: real) {
    ToNumber(js, v) == Finite(r)
  }

  /** On numbers the four comparisons are the comparisons of numbers. */
  lemma ComparisonsOfNumbers(js: Js, v: Value, x: real, bound: real)
    requires Reads(js, v, x)
    ensures var b := Num(Finite(bound));
      (EvalCondition(js, v, Obj(map["gt" := b])) <==> x > bound) &&
      (EvalCondition(js, v, Obj(map["gte" := b])) <==> x >= bound) &&
      (EvalCondition(js, v, Obj(map["lt" := b])) <==> x < bound) &&
      (EvalCondition(js, v, Obj(map["lte" := b])) <==> x <= bound)
  {
    var b := Num(Finite(bound));
    assert "not" !in map["gt" := b] && "not" !in map["gte" := b] && "not" !in map["lt" := b] &&
      "not" !in map["lte" := b];
  }

  /** What does not read as a number meets no comparison, whatever the bound. */
  lemma NoComparisonOfNaN(js: Js, v: Value, key: string, bound: Value)
    requires ToNumber(js, v) == NaN && key in {"gt", "gte", "lt", "lte"}
    ensures !EvalCondition(js, v, Obj(map[key := bound]))
  {
    assert "not" !in map[key := bound];
  }

  /** An absent operand meets no comparison. */
  lemma NoComparisonOfAbsent(js: Js, key: string, bound: Value)
    requires key in {"gt", "gte", "lt", "lte"}
    ensures !EvalCondition(js, Undefined, Obj(map[key := bound]))
  {
    NoComparisonOfNaN(js, Undefined, key, bound);
  }

  /** A list demands one of its entries, `not` the contrary, a scalar loose equality. */
  lemma OneOfNotAndScalar(js: Js, v: Value, items: seq<Value>, c: Value)
    ensures EvalCondition(js, v, List(items)) <==> exists e :: e in items && LooseEqual(js, v, e)
    ensures EvalCondition(js, v, Obj(map["not" := c])) <==> !EvalCondition(js, v, c)
    ensures !c.List? && !c.Obj? ==> (EvalCondition(js, v, c) <==> LooseEqual(js, v, c))
  {
    if EvalCondition(js, v, List(items)) {
      var i :| 0 <= i < |items| && LooseEqual(js, v, items[i]);
      assert items[i] in items;
    }
  }

  // ---- Whole conditions ----

  /** All conditions of a plain map hold. */
  ghost predicate AllHold(js: Js, props: map<string, Value>, ctx: Context) {
    forall key :: key in props && key != "any" ==> EvalCondition(js, Lookup(ctx, key), props[key])
  }

  /** All conditions hold, and where there is `any`, all those of one of its maps. */
  ghost predicate Demands(js: Js, showIf: Value, ctx: Context) {
    showIf.Obj? && AllHold(js, showIf.props, ctx) &&
    ("any" in showIf.props ==>
      var any := showIf.props["any"];
      any.List? && exists m :: m in any.items && m.Obj? && AllHold(js, m.props, ctx))
  }

  lemma PlainMapHolds(js: Js, m: Value, ctx: Context)
    requires m.Obj? && "any" !in m.props
    ensures EvalShowIf(js, m, ctx) <==> AllHold(js, m.props, ctx)
  {
  }

  lemma AnyHolds(js: Js, maps: Value, operands: set<string>, ctx: Context)
    requires LegalAny(maps, operands)
    ensures EvalAny(js, maps, ctx) <==> exists m :: m in maps.items && m.Obj? && AllHold(js, m.props, ctx)
  {
    forall i | 0 <= i < |maps.items|
      ensures EvalShowIf(js, maps.items[i], ctx) <==> AllHold(js, maps.items[i].props, ctx)
    {
      PlainMapHolds(js, maps.items[i], ctx);
    }
    if EvalAny(js, maps, ctx) {
      var i :| 0 <= i < |maps.items| && EvalShowIf(js, maps.items[i], ctx);
      assert maps.items[i] in maps.items;
    }
    if m :| m in maps.items && m.Obj? && AllHold(js, m.props, ctx) {
      var i :| 0 <= i < |maps.items| && maps.items[i] == m;
      assert EvalShowIf(js, maps.items[i], ctx);
    }
  }

  /** A condition that lint lets through holds exactly when its demands are met. */
  lemma ConditionMeans(js: Js, showIf: Value, operands: set<string>, ctx: Context)
    requires LegalShowIf(showIf, operands)
    ensures EvalShowIf(js, showIf, ctx) <==> Demands(js, showIf, ctx)
  {
    if "any" in showIf.props {
      AnyHolds(js, showIf.props["any"], operands, ctx);
    }
  }

  // ---- When a field shows ----

  /** The group of that name demands nothing, or what it demands holds. */
  ghost predicate GroupOpen(js: Js, groups: seq<Item<Group>>, name: Value, ctx: Context) {
    exists i :: 0 <= i < |groups| && groups[i].Map? && groups[i].def.name == name &&
      (groups[i].def.showIf == Undefined || Demands(js, groups[i].def.showIf, ctx))
  }

  lemma {:induction false} GroupResultMeans(
    js: Js, groups: seq<Item<Group>>, operands: set<string>, fields: seq<Item<Field>>, ctx: Context, name: string)
    requires LegalGroups(groups, operands, fields) && name in GroupNames(groups)
    ensures name in GroupResults(js, groups, ctx)
    ensures GroupResults(js, groups, ctx)[name] <==> GroupOpen(js, groups, Str(name), ctx)
  {
    LegalGroupAt(groups, operands, fields, |groups| - 1);
    assert groups[..|groups| - 1] == Init(groups);
    if Last(groups).def.name.s == name {
      LastGroupMeans(js, groups, operands, fields, ctx);
    } else {
      GroupResultMeans(js, Init(groups), operands, fields, ctx, name);
      GroupOpenEarlier(js, groups, Str(name), ctx);
    }
  }

  lemma LastGroupMeans(
    js: Js, groups: seq<Item<Group>>, operands: set<string>, fields: seq<Item<Field>>, ctx: Context)
    requires |groups| > 0 && LegalGroup(Last(groups), GroupNames(Init(groups)), operands, fields)
    ensures var name := Last(groups).def.name;
      name.s in GroupResults(js, groups, ctx) &&
      (GroupResults(js, groups, ctx)[name.s] <==> GroupOpen(js, groups, name, ctx))
  {
    var last := Last(groups).def;
    if last.showIf != Undefined {
      ConditionMeans(js, last.showIf, operands + Outsiders(fields, last.name), ctx);
    }
    NoneBefore(groups);
    assert groups[|groups| - 1] == Last(groups);
  }

  lemma NoneBefore(groups: seq<Item<Group>>)
    requires |groups| > 0 && Last(groups).Map? && Last(groups).def.name.Str?
    requires Last(groups).def.name.s !in GroupNames(Init(groups))
    ensures forall i :: 0 <= i < |groups| - 1 ==> !(groups[i].Map? && groups[i].def.name == Last(groups).def.name)
  {
    forall i | 0 <= i < |groups| - 1 ensures !(groups[i].Map? && groups[i].def.name == Last(groups).def.name) {
      if groups[i].Map? && groups[i].def.name == Last(groups).def.name {
        GroupNameAt(Init(groups), i);
      }
    }
  }

  lemma GroupOpenEarlier(js: Js, groups: seq<Item<Group>>, name: Value, ctx: Context)
    requires |groups| > 0 && (Last(groups).Map? ==> Last(groups).def.name != name)
    ensures GroupOpen(js, groups, name, ctx) <==> GroupOpen(js, Init(groups), name, ctx)
  {
    var before := Init(groups);
    forall i | 0 <= i < |before| ensures before[i] == groups[i] {
    }
    if GroupOpen(js, before, name, ctx) {
      var i :| 0 <= i < |before| && before[i].Map? && before[i].def.name == name &&
        (before[i].def.showIf == Undefined || Demands(js, before[i].def.showIf, ctx));
      assert groups[i] == before[i];
    }
  }

  lemma {:induction false} GroupNameAt(groups: seq<Item<Group>>, i: nat)
    requires i < |groups| && groups[i].Map? && groups[i].def.name.Str?
    ensures groups[i].def.name.s in GroupNames(groups)
  {
    if i < |groups| - 1 {
      assert Init(groups)[i] == groups[i];
      GroupNameAt(Init(groups), i);
    }
  }

  /** Its group, if it has one, is open over the merged answers, and its own demands hold in the given context. */
  ghost predicate FieldOpen(js: Js, cfg: Configuration, field: Field, base: Context, ctx: Context) {
    (field.group == Undefined || GroupOpen(js, GroupsOf(cfg), field.group, base)) &&
    (field.showIf == Undefined || Demands(js, field.showIf, ctx))
  }

  lemma ShowsMeans(
    js: Js, cfg: Configuration, roles: seq<Value>, field: Field, earlier: set<string>, base: Context, ctx: Context)
    requires LintClean(js, cfg, roles)
    requires LegalField(js, field, earlier, RoleOperands(roles), GroupNames(GroupsOf(cfg)))
    ensures Shows(js, field, GroupResults(js, GroupsOf(cfg), base), ctx) <==> FieldOpen(js, cfg, field, base, ctx)
  {
    if field.group != Undefined {
      GroupResultMeans(js, GroupsOf(cfg), RoleOperands(roles), FieldsOf(cfg), base, field.group.s);
      GroupNameIsNotEmpty(GroupsOf(cfg), RoleOperands(roles), FieldsOf(cfg), field.group.s);
    }
    if field.showIf != Undefined {
      ConditionMeans(js, field.showIf, RoleOperands(roles) + earlier, ctx);
    }
  }

  lemma {:induction false} GroupNameIsNotEmpty(
    groups: seq<Item<Group>>, operands: set<string>, fields: seq<Item<Field>>, name: string)
    requires LegalGroups(groups, operands, fields) && name in GroupNames(groups)
    ensures name != ""
  {
    LegalGroupAt(groups, operands, fields, |groups| - 1);
    if Last(groups).def.name.s != name {
      GroupNameIsNotEmpty(Init(groups), operands, fields, name);
    }
  }

  /**
   The visible fields of a lint-clean manifest, spelt out: a field shows exactly when its group is open over the role
   flags and all merged answers, and its own demands hold over the role flags and the visible fields.
   */
  lemma VisibleMeans(
    js: Js, cfg: Configuration, roles: seq<Value>, answers: Context, roleFlags: Context, i: nat)
    requires LintClean(js, cfg, roles) && ReadsBack(cfg, roles) && i < |FieldsOf(cfg)|
    ensures var form := FormOf(js, cfg, answers, roleFlags);
      var V := VisibleNames(Visibility(js, cfg, answers, roleFlags));
      FieldsOf(cfg)[i].Map? &&
      (Name(FieldsOf(cfg), i) in V <==> FieldOpen(js, cfg, FieldsOf(cfg)[i].def, form.base, ContextOf(form, V)))
  {
    var form, V := FormOf(js, cfg, answers, roleFlags), VisibleNames(Visibility(js, cfg, answers, roleFlags));
    OnePassFindsTheOnlyConsistentSet(js, cfg, roles, answers, roleFlags);
    LegalFieldAt(js, FieldsOf(cfg), RoleOperands(roles), GroupNames(GroupsOf(cfg)), i);
    assert Consistent(form, V) && Named(form.fields[i]);
    ShowsMeans(js, cfg, roles, FieldsOf(cfg)[i].def, NamesOf(FieldsOf(cfg)[..i]), form.base, ContextOf(form, V));
  }

  // ---- What the validator reports about one visible field ----

  ghost predicate DistinctFields(fields: seq<Field>) {
    (forall f :: f in fields ==> f.name.Str?) &&
    forall i, j :: 0 <= i < j < |fields| ==> fields[i].name != fields[j].name
  }

  /** A field's entry in the error table is its own complaint, or else what was there before. */
  lemma {:induction false} ComplaintOf(
    js: Js, visible: seq<Field>, values: Context, opts: Provision, errors: map<string, Complaint>, i: nat)
    requires DistinctFields(visible) && i < |visible|
    ensures var k, out := visible[i].name.s, Complaints(js, visible, values, opts, errors);
      match FieldComplaint(js, visible[i], Lookup(values, k), opts)
      case Some(c) => k in out && out[k] == c
      case None => (k in out <==> k in errors) && (k in errors ==> out[k] == errors[k])
  {
    var n, before := |visible| - 1, Init(visible);
    assert DistinctFields(before) by {
      assert forall f :: f in before ==> f in visible;
    }
    if i < n {
      assert visible[i].name != visible[n].name && before[i] == visible[i];
      ComplaintOf(js, before, values, opts, errors, i);
    } else {
      NoComplaintOfOthers(js, before, values, opts, errors, visible[n].name.s);
    }
  }

  lemma {:induction false} NoComplaintOfOthers(
    js: Js, visible: seq<Field>, values: Context, opts: Provision, errors: map<string, Complaint>, k: string)
    requires forall f :: f in visible ==> f.name.Str? && f.name.s != k
    ensures var out := Complaints(js, visible, values, opts, errors);
      (k in out <==> k in errors) && (k in errors ==> out[k] == errors[k])
  {
    if |visible| > 0 {
      assert Last(visible) in visible && forall f :: f in Init(visible) ==> f in visible;
      NoComplaintOfOthers(js, Init(visible), values, opts, errors, k);
    }
  }

  lemma {:induction false} VisitsInOrder(
    js: Js, gv: map<string, bool>, fields: seq<Item<Field>>, st: Pass, operands: set<string>)
    requires Scoped(fields, operands) && st.visible == []
    ensures var visible := Visits(js, gv, fields, st).visible;
      DistinctFields(visible) && forall f :: f in visible ==> f.name.s in NamesOf(fields)
  {
    if |fields| > 0 {
      var n := |fields| - 1;
      ScopedInit(fields, operands);
      VisitsInOrder(js, gv, Init(fields), st, operands);
      assert Named(fields[n]) && Name(fields, n) !in NamesOf(fields[..n]);
    }
  }

  lemma ScopedInit(fields: seq<Item<Field>>, operands: set<string>)
    requires Scoped(fields, operands) && |fields| > 0
    ensures Scoped(Init(fields), operands)
  {
    forall i | 0 <= i < |fields| - 1
      ensures Init(fields)[i] == fields[i] && Init(fields)[..i] == fields[..i]
    {
    }
  }

  lemma VisibleAreDistinct(js: Js, cfg: Configuration, roles: seq<Value>, answers: Context, roleFlags: Context)
    requires LintClean(js, cfg, roles)
    ensures var p := Visibility(js, cfg, answers, roleFlags);
      DistinctFields(p.visible) && forall f :: f in p.visible ==> f.name.s in NamesOf(FieldsOf(cfg))
  {
    CleanIsScoped(js, cfg, roles);
    var base := roleFlags + Merged(cfg, answers);
    VisitsInOrder(js, GroupResults(js, GroupsOf(cfg), base), FieldsOf(cfg), Pass(Merged(cfg, answers), base, [], []),
      RoleOperands(roles));
  }

  lemma {:induction false} NameIsLegal(
    js: Js, fields: seq<Item<Field>>, operands: set<string>, groupNames: set<string>, k: string)
    requires LegalFields(js, fields, operands, groupNames) && k in NamesOf(fields)
    ensures k != ""
  {
    if Last(fields).def.name.s != k {
      NameIsLegal(js, Init(fields), operands, groupNames, k);
    }
  }

  /** In a lint-clean form a visible field is in the error table exactly with its own complaint. */
  lemma ErrorOf(
    js: Js, cfg: Configuration, roles: seq<Value>, answers: Context, roleFlags: Context, opts: Provision, f: Field)
    requires LintClean(js, cfg, roles) && f in Visibility(js, cfg, answers, roleFlags).visible
    ensures f.name.Str?
    ensures var p, errors := Visibility(js, cfg, answers, roleFlags), Errors(js, cfg, answers, roleFlags, opts);
      match FieldComplaint(js, f, Lookup(p.values, f.name.s), opts)
      case Some(c) => f.name.s in errors && errors[f.name.s] == c
      case None => f.name.s !in errors
  {
    var p := Visibility(js, cfg, answers, roleFlags);
    VisibleAreDistinct(js, cfg, roles, answers, roleFlags);
    var i :| 0 <= i < |p.visible| && p.visible[i] == f;
    ComplaintOf(js, p.visible, p.values, opts, Undeclared(FieldsOf(cfg), answers), i);
    NameIsLegal(js, FieldsOf(cfg), RoleOperands(roles), GroupNames(GroupsOf(cfg)), f.name.s);
  }

  /** An answer is reported as undeclared exactly when no field has its name. */
  lemma UndeclaredExactly(
    js: Js, cfg: Configuration, roles: seq<Value>, answers: Context, roleFlags: Context, opts: Provision, k: string)
    requires LintClean(js, cfg, roles)
    ensures var errors := Errors(js, cfg, answers, roleFlags, opts);
      (k in errors && errors[k] == NotDeclared) <==>
        k in answers &&
        forall i :: 0 <= i < |FieldsOf(cfg)| && Named(FieldsOf(cfg)[i]) ==> FieldsOf(cfg)[i].def.name != Str(k)
  {
    var p, fields := Visibility(js, cfg, answers, roleFlags), FieldsOf(cfg);
    VisibleAreDistinct(js, cfg, roles, answers, roleFlags);
    NamesByIndex(fields, k);
    if k in NamesOf(fields) {
      NameIsLegal(js, fields, RoleOperands(roles), GroupNames(GroupsOf(cfg)), k);
      NeverUndeclared(js, p.visible, p.values, opts, Undeclared(fields, answers), k);
    } else {
      NoComplaintOfOthers(js, p.visible, p.values, opts, Undeclared(fields, answers), k);
    }
  }

  lemma NamesByIndex(fields: seq<Item<Field>>, k: string)
    ensures k in NamesOf(fields) <==> exists i :: 0 <= i < |fields| && Named(fields[i]) && fields[i].def.name == Str(k)
  {
    assert fields[..|fields|] == fields;
    if k in NamesOf(fields) {
      var i := EarlierName(fields, |fields|, k);
    }
    if i :| 0 <= i < |fields| && Named(fields[i]) && fields[i].def.name == Str(k) {
      NameIsEarlier(fields, |fields|, i);
    }
  }

  lemma {:induction false} NeverUndeclared(
    js: Js, visible: seq<Field>, values: Context, opts: Provision, errors: map<string, Complaint>, k: string)
    requires (forall f :: f in visible ==> f.name.Str?) && k !in errors
    ensures var out := Complaints(js, visible, values, opts, errors);
      k in out ==> out[k] != NotDeclared
  {
    if |visible| > 0 {
      assert Last(visible) in visible && forall f :: f in Init(visible) ==> f in visible;
      NeverUndeclared(js, Init(visible), values, opts, errors, k);
    }
  }

  // ---- Immutable fields ----

  /** The answer recorded for a field by the first provision, where there was one. */
  predicate Recorded(opts: Provision, k: string) {
    opts.provisioned && opts.previousAnswers.Some? && k in opts.previousAnswers.value
  }

  function Record(opts: Provision, k: string): Value
    requires Recorded(opts, k)
  {
    opts.previousAnswers.value[k]
  }

  /** The type or rule complaint of a value is not one of the two about the field itself. */
  lemma OtherComplaints(js: Js, field: Field, value: Value)
    ensures TypeError(js, field, value) !in {Some(Complaint.Required), Some(Complaint.Immutable)}
    ensures ValidateRuleError(js, field.validate, value) !in {Some(Complaint.Required), Some(Complaint.Immutable)}
  {
  }

  /** A form is accepted only when every visible immutable field keeps the answer recorded for it. */
  lemma AcceptedKeepsRecords(
    js: Js, cfg: Configuration, answers: Context, roleFlags: Context, opts: Provision, f: Field)
    requires Accepted(js, cfg, answers, roleFlags, opts) && f in Visibility(js, cfg, answers, roleFlags).visible
    requires Guarded(f, opts)
    ensures StrictEq(Lookup(Visibility(js, cfg, answers, roleFlags).values, f.name.s), Record(opts, f.name.s))
  {
  }

  lemma ComplaintIsRequired(js: Js, f: Field, value: Value, opts: Provision)
    requires f.name.Str?
    ensures FieldComplaint(js, f, value, opts) == Some(Complaint.Required) <==>
      f.required == Bool(true) && value in {Undefined, Null, Str(""), List([])}
  {
    OtherComplaints(js, f, value);
  }

  /** A visible field is reported as required exactly when it is, and has no value or an empty one. */
  lemma RequiredExactly(
    js: Js, cfg: Configuration, roles: seq<Value>, answers: Context, roleFlags: Context, opts: Provision, f: Field)
    requires LintClean(js, cfg, roles) && f in Visibility(js, cfg, answers, roleFlags).visible
    ensures f.name.Str?
    ensures var values, errors :=
      Visibility(js, cfg, answers, roleFlags).values, Errors(js, cfg, answers, roleFlags, opts);
      var k := f.name.s;
      (k in errors && errors[k] == Complaint.Required) <==>
        f.required == Bool(true) && (k !in values || values[k] in {Undefined, Null, Str(""), List([])})
  {
    ErrorOf(js, cfg, roles, answers, roleFlags, opts, f);
    ComplaintIsRequired(js, f, Lookup(Visibility(js, cfg, answers, roleFlags).values, f.name.s), opts);
  }

  lemma ComplaintIsImmutable(js: Js, f: Field, value: Value, opts: Provision)
    requires f.name.Str?
    ensures var complaint := FieldComplaint(js, f, value, opts);
      complaint != Some(Complaint.Required) ==>
        (complaint == Some(Complaint.Immutable) <==>
          f.immutable == Bool(true) && Recorded(opts, f.name.s) && !StrictEq(value, Record(opts, f.name.s)))
  {
    OtherComplaints(js, f, value);
  }

  /** A visible immutable field that is not missing is reported exactly when it has a record it does not equal. */
  lemma ImmutableExactly(
    js: Js, cfg: Configuration, roles: seq<Value>, answers: Context, roleFlags: Context, opts: Provision, f: Field)
    requires LintClean(js, cfg, roles) && f in Visibility(js, cfg, answers, roleFlags).visible
    ensures f.name.Str?
    ensures var values, errors :=
      Visibility(js, cfg, answers, roleFlags).values, Errors(js, cfg, answers, roleFlags, opts);
      var k := f.name.s;
      !(k in errors && errors[k] == Complaint.Required) ==>
        ((k in errors && errors[k] == Complaint.Immutable) <==>
          f.immutable == Bool(true) && Recorded(opts, k) && !StrictEq(Lookup(values, k), Record(opts, k)))
  {
    ErrorOf(js, cfg, roles, answers, roleFlags, opts, f);
    ComplaintIsImmutable(js, f, Lookup(Visibility(js, cfg, answers, roleFlags).values, f.name.s), opts);
  }

  /** A value is strictly equal to itself exactly when it is no list, no map and not NaN. */
  predicate EqualsItself(v: Value) {
    !v.List? && !v.Obj? && v != Num(NaN)
  }

  lemma StrictEqualityOf(v: Value, w: Value)
    ensures StrictEq(v, w) <==> v == w && EqualsItself(v)
  {
  }

  /** An immutable field with an answer on record. */
  predicate Guarded(f: Field, opts: Provision) {
    f.immutable == Bool(true) && f.name.Str? && Recorded(opts, f.name.s)
  }

  /** What every visible immutable field has on record is what it has now. */
  ghost predicate Unchanged(visible: seq<Field>, values: Context, opts: Provision) {
    forall f :: f in visible && Guarded(f, opts) ==>
      Lookup(values, f.name.s) == Record(opts, f.name.s)
  }

  /**
   Submitting the recorded values unchanged is never refused as immutable exactly when no visible immutable field that
   is not missing has a list, a map or NaN on record: lists and maps are compared by identity, which no record keeps.
   */
  lemma UnchangedIsAccepted(
    js: Js, cfg: Configuration, roles: seq<Value>, answers: Context, roleFlags: Context, opts: Provision)
    requires LintClean(js, cfg, roles)
    requires var p := Visibility(js, cfg, answers, roleFlags); Unchanged(p.visible, p.values, opts)
    ensures var visible, errors :=
      Visibility(js, cfg, answers, roleFlags).visible, Errors(js, cfg, answers, roleFlags, opts);
      (forall k :: k in errors ==> errors[k] != Complaint.Immutable) <==>
      (forall f :: f in visible && Guarded(f, opts) ==>
         (f.name.s in errors && errors[f.name.s] == Complaint.Required) || EqualsItself(Record(opts, f.name.s)))
  {
    var p, errors := Visibility(js, cfg, answers, roleFlags), Errors(js, cfg, answers, roleFlags, opts);
    forall f | f in p.visible
      ensures f.name.Str?
      ensures !(f.name.s in errors && errors[f.name.s] == Complaint.Required) ==>
        ((f.name.s in errors && errors[f.name.s] == Complaint.Immutable) <==>
          f.immutable == Bool(true) && Recorded(opts, f.name.s) && !EqualsItself(Record(opts, f.name.s)))
    {
      ImmutableExactly(js, cfg, roles, answers, roleFlags, opts, f);
    }
    forall k | k in errors && errors[k] == Complaint.Immutable ensures exists f :: f in p.visible && f.name == Str(k) {
      AllVisibleAreNamed(js, cfg, answers, roleFlags);
      ImmutableIsOfAField(js, p.visible, p.values, opts, Undeclared(FieldsOf(cfg), answers), k);
    }
  }

  lemma {:induction false} ImmutableIsOfAField(
    js: Js, visible: seq<Field>, values: Context, opts: Provision, errors: map<string, Complaint>, k: string)
    requires forall f :: f in visible ==> f.name.Str?
    requires forall n :: n in errors ==> errors[n] != Complaint.Immutable
    requires k in Complaints(js, visible, values, opts, errors)
    requires Complaints(js, visible, values, opts, errors)[k] == Complaint.Immutable
    ensures exists f :: f in visible && f.name == Str(k)
  {
    if |visible| > 0 {
      assert Last(visible) in visible && forall f :: f in Init(visible) ==> f in visible;
      if Last(visible).name.s != k {
        ImmutableIsOfAField(js, Init(visible), values, opts, errors, k);
      }
    }
  }

  // ---- Which complaint ----

  /** A bound that is absent, or reads as r. */
  predicate BoundIs(js: Js, bound: Value, r: Option<real>) {
    match r
    case None => bound == Undefined
    case Some(x) => bound != Undefined && Reads(js, bound, x)
  }

  /** A finite number is too small below its minimum, and too large above its maximum if it is not too small. */
  lemma RangeComplaints(js: Js, rules: Rules, n: real, low: Option<real>, high: Option<real>)
    requires rules.Rules? && BoundIs(js, rules.min, low) && BoundIs(js, rules.max, high)
    ensures ValidateRuleError(js, rules, Num(Finite(n))) ==
      if low.Some? && n < low.value then Some(TooSmall)
      else if high.Some? && n > high.value then Some(TooLarge)
      else None
  {
  }

  /** A text is too short, else too long, else compared with the pattern; the empty text is never complained of. */
  lemma TextComplaints(js: Js, rules: Rules, s: string, low: Option<real>, high: Option<real>)
    requires rules.Rules? && BoundIs(js, rules.minLength, low) && BoundIs(js, rules.maxLength, high)
    ensures var complaint := ValidateRuleError(js, rules, Str(s));
      if s == "" then complaint == None
      else if low.Some? && |s| as real < low.value then complaint == Some(TooShort)
      else if high.Some? && |s| as real > high.value then complaint == Some(TooLong)
      else if rules.pattern != Undefined && !js.matches(Text(js, rules.pattern), s) then
        complaint == Some(PatternMismatch)
      else complaint == None
  {
  }

  /** Values that are no number and no text meet no rule. */
  lemma NoOtherRules(js: Js, rules: Rules, v: Value)
    requires !v.Num? && !v.Str?
    ensures ValidateRuleError(js, rules, v) == None
  {
  }

  /** Each complaint about a type is that of one type: a value, not blank, of another kind than the type asks for. */
  lemma TypeComplaints(js: Js, field: Field, v: Value)
    requires field.ftype.Str? && v !in {Undefined, Null, Str("")}
    ensures var t, complaint := field.ftype.s, TypeError(js, field, v);
      (complaint == Some(MustBeNumber) <==> t == "number" && !(v.Num? && v.n.Finite?)) &&
      (complaint == Some(MustBeBoolean) <==> t == "checkbox" && !v.Bool?) &&
      (complaint == Some(MustBeList) <==> t == "multiselect" && !v.List?) &&
      (complaint == Some(MustBeString) <==>
        t in {"text", "textarea", "password", "fqdn", "ipaddr", "cidr", "path"} && !v.Str?) &&
      (complaint == Some(NotFqdn) <==> t == "fqdn" && v.Str? && !js.isFqdn(v.s)) &&
      (complaint == Some(NotIp) <==> t == "ipaddr" && v.Str? && js.ipVersion(v.s) == 0) &&
      (complaint == Some(NotCidr) <==> t == "cidr" && v.Str? && !IsCidr(js, v.s))
  {
    TextTypes(field.ftype);
  }

  lemma TextTypes(t: Value)
    requires t.Str?
    ensures IsStringType(t) <==> t.s in {"text", "textarea", "password", "fqdn", "ipaddr", "cidr", "path"}
  {
  }

  /** A picker with options refuses what is none of their values. */
  lemma PickComplaints(js: Js, field: Field, v: Value)
    requires v !in {Undefined, Null, Str("")} && field.options.List?
    ensures field.ftype == Str("select") ==>
      (TypeError(js, field, v) == Some(NotAnOption) <==> !Picked(field.options.items, v))
    ensures field.ftype == Str("multiselect") && v.List? && Undefined !in v.items ==>
      (TypeError(js, field, v) == Some(NotAnOption) <==> exists e :: e in v.items && !Picked(field.options.items, e))
  {
    var legal := OptionValues(field.options.items);
    forall e | e != Undefined ensures Includes(legal, e) <==> Picked(field.options.items, e) {
      PickedExactly(field.options.items, e);
    }
    if v.List? && Undefined !in v.items {
      FirstIllegalExactly(v.items, legal);
    }
  }

  /** One of the options has that value: a scalar stands for itself, a map for its `value`. */
  ghost predicate Picked(options: seq<Value>, v: Value) {
    !v.List? && !v.Obj? &&
    exists o :: o in options && !o.List? && (if o.Obj? then v == Get(o, "value") else v == o)
  }

  lemma PickedExactly(options: seq<Value>, v: Value)
    requires v != Undefined
    ensures Includes(OptionValues(options), v) <==> Picked(options, v)
  {
    var legal := OptionValues(options);
    if Includes(legal, v) {
      var i :| 0 <= i < |legal| && legal[i] == v;
      assert options[i] in options;
    }
    if Picked(options, v) {
      var o :| o in options && !o.List? && (if o.Obj? then v == Get(o, "value") else v == o);
      var i :| 0 <= i < |options| && options[i] == o;
      assert legal[i] == v;
    }
  }

  lemma {:induction false} FirstIllegalExactly(items: seq<Value>, legal: seq<Value>)
    requires Undefined !in items
    ensures FirstIllegal(items, legal) == Undefined <==> forall e :: e in items ==> Includes(legal, e)
  {
    if |items| > 0 {
      assert items == [items[0]] + items[1..] && items[0] in items;
      FirstIllegalExactly(items[1..], legal);
    }
  }
}
