/** Two lint-clean manifests that show which hypotheses the visibility theorems cannot do without. */
module FieldDslCounterexamples {
  import opened Strings
  import opened JsValue
  import opened FieldDsl
  import opened FieldDslLint
  import opened VisibilityTheorems
  import opened Resubmission

  function Checkbox(name: string, group: Value, default: Value, showIf: Value): Item<Field> {
    Item.Map(Field(Str(name), Str("checkbox"), group, default, Undefined, Undefined, showIf, NoRules,
                   Undefined, Undefined, Undefined, Undefined, Undefined, {}))
  }

  function When(operand: string): Value {
    Obj(map[operand := Bool(true)])
  }

  lemma WhenReads(js: Js, operand: string, ctx: Context, operands: set<string>)
    requires operand != "any"
    ensures LegalShowIf(When(operand), operands) <==> operand in operands
    ensures EvalShowIf(js, When(operand), ctx) <==> LooseEqual(js, Lookup(ctx, operand), Bool(true))
  {
    var props := map[operand := Bool(true)];
    assert When(operand).props == props;
    assert operand in props;
  }

  lemma CheckboxIsLegal(
    js: Js, name: string, group: Value, default: Value, showIf: Value,
    earlier: set<string>, operands: set<string>, groupNames: set<string>)
    requires LegalName(Str(name)) && name !in earlier
    requires group != Undefined ==> group.Str? && group.s in groupNames
    requires showIf != Undefined ==> LegalShowIf(showIf, operands + earlier)
    ensures LegalField(js, Checkbox(name, group, default, showIf).def, earlier, operands, groupNames)
  {
    assert FIELD_TYPES[1] == "checkbox";
  }

  const A := "a"
  const FLAG := "d_enabled"

  /** Field a needs the role flag; a checkbox that happens to carry the flag's name needs a. */
  const COLLIDING := Config(Absent, Items([
    Checkbox(A, Undefined, Undefined, When(FLAG)),
    Checkbox(FLAG, Undefined, Bool(true), When(A))]), {})

  lemma FlagIsOperand()
    ensures RoleOperands([Str("d")]) == {FLAG} && LegalName(Str(FLAG))
  {
    assert "d" + "_enabled" == FLAG;
    assert [Str("d")][0] == Str("d");
  }

  lemma CollidingFieldsAreLegal(js: Js)
    ensures LegalFields(js, FieldsOf(COLLIDING), {FLAG}, {})
  {
    var fields := FieldsOf(COLLIDING);
    var one := [fields[0]];
    FlagIsOperand();
    assert Init(fields) == one && Init(one) == [];
    assert NamesOf([]) == {} && NamesOf(one) == {A};
    WhenReads(js, FLAG, map[], {FLAG} + {});
    WhenReads(js, A, map[], {FLAG} + {A});
    CheckboxIsLegal(js, A, Undefined, Undefined, When(FLAG), {}, {FLAG}, {});
    CheckboxIsLegal(js, FLAG, Undefined, Bool(true), When(A), {A}, {FLAG}, {});
    assert LegalFields(js, [], {FLAG}, {});
    assert LegalFields(js, one, {FLAG}, {});
  }

  lemma CollidingIsClean(js: Js)
    ensures LintClean(js, COLLIDING, [Str("d")])
  {
    FlagIsOperand();
    CollidingFieldsAreLegal(js);
    assert GroupNames([]) == {};
  }

  lemma CollidingBase(js: Js)
    ensures Merged(COLLIDING, map[]) == map[FLAG := Bool(true)]
    ensures FormOf(js, COLLIDING, map[], map[]).base == map[FLAG := Bool(true)]
    ensures NamesOf(FieldsOf(COLLIDING)) == {A, FLAG}
  {
    var fields := FieldsOf(COLLIDING);
    var one := [fields[0]];
    assert Init(fields) == one && Init(one) == [];
    assert NamesOf(one) == {A} && Defaults(one) == map[];
    assert Defaults(fields) == map[FLAG := Bool(true)];
    assert map[] + map[FLAG := Bool(true)] == map[FLAG := Bool(true)];
  }

  const FLAGGED: Context := map[FLAG := Bool(true)]

  lemma CollidingFirst(js: Js, st: Pass)
    requires st.ctx == FLAGGED
    ensures Visit(js, map[], FieldsOf(COLLIDING)[0], st) == st.(visible := st.visible + [FieldsOf(COLLIDING)[0].def])
  {
    WhenReads(js, FLAG, FLAGGED, {});
    assert Text(js, Bool(true)) == "true";
  }

  lemma CollidingSecond(js: Js, st: Pass)
    requires st.ctx == FLAGGED
    ensures Visit(js, map[], FieldsOf(COLLIDING)[1], st).visible == st.visible
  {
    WhenReads(js, A, FLAGGED, {});
    assert Text(js, Undefined) == "undefined" && Text(js, Bool(true)) == "true";
  }

  lemma CollidingVisibility(js: Js)
    ensures Visibility(js, COLLIDING, map[], map[]).visible == [FieldsOf(COLLIDING)[0].def]
  {
    var fields := FieldsOf(COLLIDING);
    var one := [fields[0]];
    CollidingBase(js);
    assert Init(fields) == one && Init(one) == [];
    assert map[] + FLAGGED == FLAGGED;
    var start := Pass(FLAGGED, FLAGGED, [], []);
    CollidingFirst(js, start);
    assert Visits(js, map[], [], start) == start;
    var s1 := Visits(js, map[], one, start);
    assert s1 == Visit(js, map[], fields[0], start);
    CollidingSecond(js, s1);
    assert Visits(js, map[], fields, start) == Visit(js, map[], fields[1], s1);
  }

  lemma CollidingVisibleNames(js: Js)
    ensures VisibleNames(Visibility(js, COLLIDING, map[], map[])) == {A}
  {
    CollidingVisibility(js);
    assert FieldsOf(COLLIDING)[0].def in Visibility(js, COLLIDING, map[], map[]).visible;
  }

  lemma CollidingInconsistent(js: Js, form: Form)
    requires form == FormOf(js, COLLIDING, map[], map[])
    ensures !Consistent(form, {A})
  {
    CollidingBase(js);
    var ctx := ContextOf(form, {A});
    assert FLAG !in ctx;
    WhenReads(js, FLAG, ctx, {});
    assert Text(js, Undefined) == "undefined" && Text(js, Bool(true)) == "true";
    assert Named(form.fields[0]) && Name(form.fields, 0) == A;
  }

  /**
   Lint does not refuse a field named like a role flag, and with one the single pass may settle on a set that is
   not self-consistent: field a shows because of a field that then hides.
   */
  lemma FlagNamedFieldBreaksConsistency(js: Js)
    ensures LintClean(js, COLLIDING, [Str("d")])
    ensures var form := FormOf(js, COLLIDING, map[], map[]);
      !Consistent(form, VisibleNames(Visibility(js, COLLIDING, map[], map[])))
  {
    CollidingIsClean(js);
    CollidingVisibleNames(js);
    CollidingInconsistent(js, FormOf(js, COLLIDING, map[], map[]));
  }

  const TOGGLE := "t"
  const DETAIL := "d"
  const TUNED := "u"
  const GROUP := "g"
  const TUNING := Item.Map(Group(Str(GROUP), Undefined, When(DETAIL), {}))
  const F0 := Checkbox(TOGGLE, Undefined, Undefined, Undefined)
  const F1 := Checkbox(DETAIL, Undefined, Undefined, When(TOGGLE))
  const F2 := Checkbox(TUNED, Str(GROUP), Undefined, Undefined)

  /** The group looks at detail, which itself hides when toggle is off. */
  const PEEKING := Config(Items([TUNING]), Items([F0, F1, F2]), {})

  lemma PeekingPrefixes()
    ensures Init([F0, F1, F2]) == [F0, F1] && Init([F0, F1]) == [F0] && Init([F0]) == [] && Init([TUNING]) == []
    ensures NamesOf([F0]) == {TOGGLE} && NamesOf([F0, F1]) == {TOGGLE, DETAIL}
  {
    assert Init([F0]) == [] && Init([F0, F1]) == [F0];
    assert NamesOf([F0]) == {TOGGLE};
  }

  lemma PeekingGroupIsLegal()
    ensures LegalGroups([TUNING], {}, [F0, F1, F2]) && GroupNames([TUNING]) == {GROUP}
  {
    var fields := [F0, F1, F2];
    PeekingPrefixes();
    assert fields[1].def.name.s in Outsiders(fields, Str(GROUP));
    assert LegalShowIf(When(DETAIL), {} + Outsiders(fields, Str(GROUP)));
    assert GroupNames([]) == {} && LegalGroups([], {}, fields);
    assert Last([TUNING]) == TUNING && LegalGroup(TUNING, {}, {}, fields);
  }

  lemma PeekingFieldsAreLegal(js: Js)
    ensures LegalFields(js, [F0, F1, F2], {}, {GROUP})
  {
    PeekingPrefixes();
    WhenReads(js, TOGGLE, map[], {} + {TOGGLE});
    CheckboxIsLegal(js, TOGGLE, Undefined, Undefined, Undefined, {}, {}, {GROUP});
    CheckboxIsLegal(js, DETAIL, Undefined, Undefined, When(TOGGLE), {TOGGLE}, {}, {GROUP});
    CheckboxIsLegal(js, TUNED, Str(GROUP), Undefined, Undefined, {TOGGLE, DETAIL}, {}, {GROUP});
    assert LegalFields(js, [], {}, {GROUP});
    assert LegalFields(js, [F0], {}, {GROUP});
    assert LegalFields(js, [F0, F1], {}, {GROUP});
  }

  lemma PeekingIsClean(js: Js)
    ensures LintClean(js, PEEKING, [])
  {
    PeekingGroupIsLegal();
    PeekingFieldsAreLegal(js);
    assert RoleOperands([]) == {};
  }

  lemma PeekingGroup(js: Js, answers: Context)
    requires DETAIL in answers ==> answers[DETAIL] == Bool(true)
    ensures GroupResults(js, [TUNING], answers) == map[GROUP := DETAIL in answers]
  {
    PeekingPrefixes();
    WhenReads(js, DETAIL, answers, {});
    assert Text(js, Undefined) == "undefined" && Text(js, Bool(true)) == "true";
    assert GroupResults(js, [], answers) == map[];
    assert Last([TUNING]) == TUNING && Truthy(When(DETAIL));
  }

  lemma PeekingPass(js: Js, answers: Context)
    requires TOGGLE !in answers
    ensures Visits(js, map[GROUP := DETAIL in answers], [F0, F1, F2], Pass(answers, answers, [], [])).hidden
         == (if DETAIL in answers then [DETAIL] else [DETAIL, TUNED])
  {
    PeekingPrefixes();
    var gv := map[GROUP := DETAIL in answers];
    var start := Pass(answers, answers, [], []);
    assert Visits(js, gv, [], start) == start;
    var s1 := Visits(js, gv, [F0], start);
    assert s1 == Visit(js, gv, F0, start) == start.(visible := [F0.def]);
    WhenReads(js, TOGGLE, s1.ctx, {});
    assert Text(js, Undefined) == "undefined" && Text(js, Bool(true)) == "true";
    var s2 := Visits(js, gv, [F0, F1], start);
    assert s2 == Visit(js, gv, F1, s1) && s2.hidden == [DETAIL];
    assert Text(js, Str(GROUP)) == GROUP;
    assert Visits(js, gv, [F0, F1, F2], start) == Visit(js, gv, F2, s2);
  }

  lemma {:induction false} NoDefaults(fields: seq<Item<Field>>)
    requires forall i :: 0 <= i < |fields| && Named(fields[i]) ==> fields[i].def.default == Undefined
    ensures Defaults(fields) == map[]
  {
    if |fields| > 0 {
      NoDefaults(Init(fields));
      assert Last(fields) == fields[|fields| - 1];
    }
  }

  lemma PeekingHidden(js: Js, answers: Context)
    requires TOGGLE !in answers && (DETAIL in answers ==> answers[DETAIL] == Bool(true))
    ensures Visibility(js, PEEKING, answers, map[]).hidden == (if DETAIL in answers then [DETAIL] else [DETAIL, TUNED])
  {
    PeekingMerged(answers);
    assert map[] + answers == answers;
    PeekingGroup(js, answers);
    PeekingPass(js, answers);
  }

  lemma PeekingMerged(answers: Context)
    ensures Merged(PEEKING, answers) == answers
  {
    PeekingPrefixes();
    NoDefaults([F0, F1, F2]);
    assert map[] + answers == answers;
  }

  lemma PeekingStripped(js: Js, answers: Context)
    ensures var p := Visibility(js, PEEKING, answers, map[]);
      p.values == answers - SetOf(p.hidden)
  {
    PeekingIsClean(js);
    CleanIsScoped(js, PEEKING, []);
    StrippedValues(js, PEEKING, answers, map[], RoleOperands([]));
    PeekingMerged(answers);
  }

  /** The first pass drops the answer to detail and adds none to toggle. */
  lemma PeekingValues(js: Js, answers: Context)
    requires TOGGLE !in answers && DETAIL in answers && answers[DETAIL] == Bool(true)
    ensures var p := Visibility(js, PEEKING, answers, map[]);
      p.hidden == [DETAIL] && TOGGLE !in p.values && DETAIL !in p.values
  {
    PeekingHidden(js, answers);
    PeekingStripped(js, answers);
    assert DETAIL in SetOf([DETAIL]);
  }

  /**
   A group may read a field that hides: its answer still counts in the first pass and is gone in the second,
   so resubmitting hides one more field.
   */
  lemma PeekingGroupBreaksResubmission(js: Js)
    ensures LintClean(js, PEEKING, [])
    ensures var p := Visibility(js, PEEKING, map[DETAIL := Bool(true)], map[]);
      Visibility(js, PEEKING, p.values, map[]).hidden != p.hidden
  {
    PeekingIsClean(js);
    var answers := map[DETAIL := Bool(true)];
    PeekingValues(js, answers);
    PeekingHidden(js, Visibility(js, PEEKING, answers, map[]).values);
    assert |[DETAIL]| != |[DETAIL, TUNED]|;
  }
}
