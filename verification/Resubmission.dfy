/** Handing the stripped values back as answers changes nothing, unless a group looks at a field that can hide. */
module Resubmission {
  import opened Strings
  import opened JsValue
  import opened FieldDsl
  import opened FieldDslLint
  import opened VisibilityTheorems

  predicate IsUnconditionalGroup(item: Item<Group>, name: Value) {
    item.Map? && item.def.name == name && item.def.showIf == Undefined
  }

  /** A field with no condition of its own, in no group or in a group without one. */
  predicate Unconditional(groups: seq<Item<Group>>, field: Field) {
    field.showIf == Undefined
    && (field.group == Undefined
        || exists i :: 0 <= i < |groups| && IsUnconditionalGroup(groups[i], field.group))
  }

  function UnconditionalNames(groups: seq<Item<Group>>, fields: seq<Item<Field>>): set<string> {
    if |fields| == 0 then {}
    else
      var last := Last(fields);
      UnconditionalNames(groups, Init(fields))
      + if Named(last) && Unconditional(groups, last.def) then {last.def.name.s} else {}
  }

  /** Every group condition reads only role flags and unconditionally visible fields. */
  predicate GroupsReadFixedNames(cfg: Configuration, roles: seq<Value>) {
    forall i | 0 <= i < |GroupsOf(cfg)| ::
      GroupsOf(cfg)[i].Map? && GroupsOf(cfg)[i].def.showIf != Undefined ==>
        LegalShowIf(GroupsOf(cfg)[i].def.showIf, RoleOperands(roles) + UnconditionalNames(GroupsOf(cfg), FieldsOf(cfg)))
  }

  lemma {:induction false} GroupResultAt(
    js: Js, groups: seq<Item<Group>>, operands: set<string>, fields: seq<Item<Field>>, ctx: Context, i: nat)
    requires LegalGroups(groups, operands, fields) && i < |groups|
    ensures groups[i].Map? && groups[i].def.name.Str? && groups[i].def.name.s in GroupResults(js, groups, ctx)
    ensures groups[i].def.showIf == Undefined ==> GroupResults(js, groups, ctx)[groups[i].def.name.s]
    ensures GroupResults(js, groups, ctx).Keys == GroupNames(groups)
  {
    LegalGroupAt(groups, operands, fields, |groups| - 1);
    assert Init(groups) == groups[..|groups| - 1];
    if i < |groups| - 1 {
      GroupResultAt(js, Init(groups), operands, fields, ctx, i);
    } else if |groups| > 1 {
      GroupResultAt(js, Init(groups), operands, fields, ctx, 0);
    }
  }

  lemma UnconditionalShows(
    js: Js, groups: seq<Item<Group>>, operands: set<string>, fields: seq<Item<Field>>, field: Field,
    base: Context, ctx: Context)
    requires LegalGroups(groups, operands, fields) && Unconditional(groups, field)
    ensures Shows(js, field, GroupResults(js, groups, base), ctx)
  {
    if field.group != Undefined {
      var i :| 0 <= i < |groups| && IsUnconditionalGroup(groups[i], field.group);
      GroupResultAt(js, groups, operands, fields, base, i);
    }
  }

  lemma {:induction false} GroupsReadOperands(
    js: Js, groups: seq<Item<Group>>, operands: set<string>, a: Context, b: Context)
    requires forall i | 0 <= i < |groups| ::
      groups[i].Map? && groups[i].def.showIf != Undefined ==> LegalShowIf(groups[i].def.showIf, operands)
    requires Agree(a, b, operands)
    ensures GroupResults(js, groups, a) == GroupResults(js, groups, b)
  {
    if |groups| > 0 {
      GroupsReadOperands(js, Init(groups), operands, a, b);
      var last := Last(groups);
      if last.Map? && Truthy(last.def.showIf) {
        assert groups[|groups| - 1] == last;
        ShowIfReadsOperands(js, last.def.showIf, operands, a, b);
      }
    }
  }

  lemma {:induction false} UnconditionalIndex(
    groups: seq<Item<Group>>, fields: seq<Item<Field>>, k: string) returns (j: nat)
    requires k in UnconditionalNames(groups, fields)
    ensures j < |fields| && Named(fields[j]) && fields[j].def.name.s == k && Unconditional(groups, fields[j].def)
  {
    var last := Last(fields);
    if Named(last) && Unconditional(groups, last.def) && last.def.name.s == k {
      j := |fields| - 1;
    } else {
      j := UnconditionalIndex(groups, Init(fields), k);
    }
  }

  lemma UnconditionalNeverHides(
    js: Js, cfg: Configuration, roles: seq<Value>, answers: Context, roleFlags: Context, k: string)
    requires LintClean(js, cfg, roles) && k in UnconditionalNames(GroupsOf(cfg), FieldsOf(cfg))
    ensures k !in Visibility(js, cfg, answers, roleFlags).hidden
  {
    var form, operands := FormOf(js, cfg, answers, roleFlags), RoleOperands(roles);
    CleanIsScoped(js, cfg, roles);
    PassOfForm(js, cfg, answers, roleFlags, operands);
    var j := UnconditionalIndex(GroupsOf(cfg), FieldsOf(cfg), k);
    UnconditionalShows(js, GroupsOf(cfg), operands, FieldsOf(cfg), FieldsOf(cfg)[j].def, form.base, After(form, j).ctx);
    HiddenSoFar(form, operands, |form.fields|);
    assert Name(form.fields, j) == k;
  }

  lemma StrippedValues(js: Js, cfg: Configuration, answers: Context, roleFlags: Context, operands: set<string>)
    requires Scoped(FieldsOf(cfg), operands)
    ensures var p := Visibility(js, cfg, answers, roleFlags);
      p.values == Merged(cfg, answers) - SetOf(p.hidden)
  {
    PassOfForm(js, cfg, answers, roleFlags, operands);
    PassOnlySubtracts(FormOf(js, cfg, answers, roleFlags), |FieldsOf(cfg)|);
  }

  lemma MergingBack(defaults: Context, answers: Context, hidden: set<string>)
    ensures var stripped := (defaults + answers) - hidden;
      && (defaults + stripped) - hidden == stripped
      && forall k :: k !in hidden ==>
        (k in defaults + stripped <==> k in defaults + answers) &&
        Lookup(defaults + stripped, k) == Lookup(defaults + answers, k)
  {
  }

  /** What resubmission changes is only what the first pass has hidden. */
  lemma ResubmittedValues(js: Js, cfg: Configuration, answers: Context, roleFlags: Context, operands: set<string>)
    requires Scoped(FieldsOf(cfg), operands)
    ensures var p := Visibility(js, cfg, answers, roleFlags);
      && Merged(cfg, p.values) - SetOf(p.hidden) == p.values
      && (forall k :: k !in p.hidden ==>
            Lookup(roleFlags + Merged(cfg, p.values), k) == Lookup(roleFlags + Merged(cfg, answers), k))
  {
    var p := Visibility(js, cfg, answers, roleFlags);
    StrippedValues(js, cfg, answers, roleFlags, operands);
    MergingBack(Defaults(FieldsOf(cfg)), answers, SetOf(p.hidden));
  }

  /** The field's own condition, at its turn in the pass. */
  ghost predicate OwnShows(form: Form, i: nat)
    requires i < |form.fields|
  {
    Named(form.fields[i]) &&
    (!Truthy(form.fields[i].def.showIf) || EvalShowIf(form.js, form.fields[i].def.showIf, After(form, i).ctx))
  }

  /** The two forms' groups agree on every field whose own condition holds in the first. */
  ghost predicate GroupsAgree(f: Form, g: Form, n: nat)
    requires f.fields == g.fields && n <= |f.fields|
  {
    forall i :: 0 <= i < n ==> GroupAgrees(f, g, i)
  }

  ghost predicate GroupAgrees(f: Form, g: Form, i: nat)
    requires i < |f.fields|
  {
    OwnShows(f, i) ==> GroupShows(f.js, f.fields[i].def, f.gv) == GroupShows(f.js, f.fields[i].def, g.gv)
  }

  lemma OwnOrGroup(form: Form, i: nat)
    requires i < |form.fields| && Named(form.fields[i])
    ensures Hides(form, i) <==> !(GroupShows(form.js, form.fields[i].def, form.gv) && OwnShows(form, i))
  {
  }

  lemma SameContextSameOwn(f: Form, g: Form, operands: set<string>, m: nat)
    requires Siblings(f, g, operands) && m < |f.fields|
    requires Agree(After(f, m).ctx, After(g, m).ctx, operands + NamesOf(f.fields[..m]))
    ensures OwnShows(f, m) == OwnShows(g, m)
  {
    var field := f.fields[m].def;
    assert Named(f.fields[m]);
    if Truthy(field.showIf) {
      ShowIfReadsOperands(f.js, field.showIf, operands + NamesOf(f.fields[..m]), After(f, m).ctx, After(g, m).ctx);
    }
  }

  /** What the first pass leaves shown reads the same in both bases. */
  ghost predicate AlikeWhereShown(f: Form, g: Form) {
    forall k :: k !in After(f, |f.fields|).hidden ==> Lookup(f.base, k) == Lookup(g.base, k)
  }

  lemma SameSoFarSameOwn(f: Form, g: Form, operands: set<string>, m: nat)
    requires Siblings(f, g, operands) && m < |f.fields| && AlikeWhereShown(f, g) && SameChoices(f, g, m)
    ensures OwnShows(f, m) == OwnShows(g, m)
  {
    forall k | k in operands + NamesOf(f.fields[..m]) && k !in SetOf(After(f, m).hidden)
      ensures Lookup(f.base, k) == Lookup(g.base, k)
    {
      StaysShown(f, operands, m, k);
    }
    SameHiddenSameContext(f, g, operands, m);
    SameContextSameOwn(f, g, operands, m);
  }

  lemma SameSoFarChoice(f: Form, g: Form, operands: set<string>, m: nat)
    requires Siblings(f, g, operands) && m < |f.fields| && AlikeWhereShown(f, g) && SameChoices(f, g, m)
    ensures Hides(f, m) == Hides(g, m) <==> GroupAgrees(f, g, m)
  {
    SameSoFarSameOwn(f, g, operands, m);
    assert Named(f.fields[m]);
    OwnOrGroup(f, m);
    OwnOrGroup(g, m);
  }

  lemma SameChoicesPush(f: Form, g: Form, m: nat)
    requires m < |f.fields| && m < |g.fields|
    ensures SameChoices(f, g, m + 1) <==> SameChoices(f, g, m) && Hides(f, m) == Hides(g, m)
  {
  }

  lemma GroupsAgreePush(f: Form, g: Form, m: nat)
    requires f.fields == g.fields && m < |f.fields|
    ensures GroupsAgree(f, g, m + 1) <==> GroupsAgree(f, g, m) && GroupAgrees(f, g, m)
  {
  }

  /** Both passes choose alike exactly when their groups agree wherever it matters. */
  lemma {:induction false} ChoiceIsGroups(f: Form, g: Form, operands: set<string>, n: nat)
    requires Siblings(f, g, operands) && n <= |f.fields| && AlikeWhereShown(f, g)
    ensures SameChoices(f, g, n) <==> GroupsAgree(f, g, n)
  {
    if n > 0 {
      ChoiceIsGroups(f, g, operands, n - 1);
      SameChoicesPush(f, g, n - 1);
      GroupsAgreePush(f, g, n - 1);
      if SameChoices(f, g, n - 1) {
        SameSoFarChoice(f, g, operands, n - 1);
      }
    }
  }

  /** A name in scope that is not hidden yet is not hidden later. */
  lemma StaysShown(f: Form, operands: set<string>, m: nat, k: string)
    requires Scoped(f.fields, operands) && operands !! NamesOf(f.fields) && m <= |f.fields|
    requires k in operands + NamesOf(f.fields[..m]) && k !in After(f, m).hidden
    ensures k !in After(f, |f.fields|).hidden
  {
    HiddenSoFar(f, operands, m);
    HiddenSoFar(f, operands, |f.fields|);
    assert f.fields[..|f.fields|] == f.fields;
    if k in NamesOf(f.fields[..m]) {
      var j := EarlierName(f.fields, m, k);
      assert Name(f.fields, j) == k;
    }
  }

  lemma {:induction false} SameChoicesSameLists(f: Form, g: Form, operands: set<string>, n: nat)
    requires Siblings(f, g, operands) && n <= |f.fields| && SameChoices(f, g, n)
    ensures After(f, n).hidden == After(g, n).hidden && After(f, n).visible == After(g, n).visible
  {
    if n > 0 {
      var m := n - 1;
      assert SameChoices(f, g, m) && Hides(f, m) == Hides(g, m) && Named(f.fields[m]);
      SameChoicesSameLists(f, g, operands, m);
      AfterNext(f, m);
      AfterNext(g, m);
    }
  }

  lemma SameHiddenSameChoices(f: Form, g: Form, operands: set<string>)
    requires Siblings(f, g, operands) && After(f, |f.fields|).hidden == After(g, |g.fields|).hidden
    ensures SameChoices(f, g, |f.fields|)
  {
    HiddenSoFar(f, operands, |f.fields|);
    HiddenSoFar(g, operands, |g.fields|);
    forall j | 0 <= j < |f.fields| ensures Hides(f, j) == Hides(g, j) {
      assert Name(f.fields, j) in After(f, |f.fields|).hidden <==> Hides(f, j);
    }
  }

  lemma ResubmissionTwins(js: Js, cfg: Configuration, roles: seq<Value>, answers: Context, roleFlags: Context)
    requires LintClean(js, cfg, roles) && RoleOperands(roles) !! NamesOf(FieldsOf(cfg))
    requires GroupsReadFixedNames(cfg, roles)
    ensures var p := Visibility(js, cfg, answers, roleFlags);
      Twins(FormOf(js, cfg, answers, roleFlags), FormOf(js, cfg, p.values, roleFlags), RoleOperands(roles))
  {
    var p, operands := Visibility(js, cfg, answers, roleFlags), RoleOperands(roles);
    var a, b := roleFlags + Merged(cfg, answers), roleFlags + Merged(cfg, p.values);
    var fixed := operands + UnconditionalNames(GroupsOf(cfg), FieldsOf(cfg));
    CleanIsScoped(js, cfg, roles);
    ResubmittedValues(js, cfg, answers, roleFlags, operands);
    forall k | k in fixed ensures Lookup(a, k) == Lookup(b, k) {
      if k in operands {
        NothingElseHides(js, cfg, answers, roleFlags, operands);
      } else {
        UnconditionalNeverHides(js, cfg, roles, answers, roleFlags, k);
      }
    }
    GroupsReadOperands(js, GroupsOf(cfg), fixed, a, b);
  }

  lemma NothingElseHides(js: Js, cfg: Configuration, answers: Context, roleFlags: Context, operands: set<string>)
    requires Scoped(FieldsOf(cfg), operands)
    ensures SetOf(Visibility(js, cfg, answers, roleFlags).hidden) <= NamesOf(FieldsOf(cfg))
  {
    var form := FormOf(js, cfg, answers, roleFlags);
    PassOfForm(js, cfg, answers, roleFlags, operands);
    HiddenSoFar(form, operands, |form.fields|);
    assert form.fields[..|form.fields|] == form.fields;
  }

  ghost predicate SamePass(p: Pass, q: Pass) {
    q.values == p.values && q.hidden == p.hidden && q.visible == p.visible
  }

  /**
   Exactly when resubmitting changes nothing: although the hidden fields' defaults are merged back in first, the second
   pass returns the same values, hidden list and visible fields if and only if the groups, evaluated over the merged
   answers and over the merged stripped values, agree on every field whose own condition holds.
   */
  lemma ResubmissionExactly(js: Js, cfg: Configuration, roles: seq<Value>, answers: Context, roleFlags: Context)
    requires LintClean(js, cfg, roles) && ReadsBack(cfg, roles)
    ensures var p := Visibility(js, cfg, answers, roleFlags);
      SamePass(p, Visibility(js, cfg, p.values, roleFlags)) <==>
        GroupsAgree(FormOf(js, cfg, answers, roleFlags), FormOf(js, cfg, p.values, roleFlags), |FieldsOf(cfg)|)
  {
    var p, operands := Visibility(js, cfg, answers, roleFlags), FreeFlags(cfg, roles);
    var f, g := FormOf(js, cfg, answers, roleFlags), FormOf(js, cfg, p.values, roleFlags);
    CleanReadsBack(js, cfg, roles);
    PassOfForm(js, cfg, answers, roleFlags, operands);
    PassOfForm(js, cfg, p.values, roleFlags, operands);
    ResubmittedValues(js, cfg, answers, roleFlags, operands);
    ChoiceIsGroups(f, g, operands, |f.fields|);
    if SameChoices(f, g, |f.fields|) {
      SameChoicesSameLists(f, g, operands, |f.fields|);
      PassOnlySubtracts(g, |g.fields|);
    }
    if After(f, |f.fields|).hidden == After(g, |g.fields|).hidden {
      SameHiddenSameChoices(f, g, operands);
    }
  }

  /** So it is stable for every form whose group conditions read only role flags and unconditionally visible fields. */
  lemma ResubmissionIsStable(js: Js, cfg: Configuration, roles: seq<Value>, answers: Context, roleFlags: Context)
    requires LintClean(js, cfg, roles) && RoleOperands(roles) !! NamesOf(FieldsOf(cfg))
    requires GroupsReadFixedNames(cfg, roles)
    ensures var p := Visibility(js, cfg, answers, roleFlags);
      SamePass(p, Visibility(js, cfg, p.values, roleFlags))
  {
    NoFlagNamesReadsBack(js, cfg, roles);
    ResubmissionTwins(js, cfg, roles, answers, roleFlags);
    ResubmissionExactly(js, cfg, roles, answers, roleFlags);
  }
}
