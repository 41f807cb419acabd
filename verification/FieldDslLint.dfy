/** Import-time lint: the loops that push errors, and the grammar they accept. */
module FieldDslLint {
  import opened Strings
  import opened JsValue
  import opened FieldDsl

  const OPTIONS_SOURCES := ["networks", "datastores", "hosts", "images"]
  const LEGACY_KEYS := ["basicFields", "advancedFields"]

  datatype Fault =
    | ConfigNotMap | LegacyShape | UnknownConfigKey | GroupsNotList | FieldsNotList
    | GroupNotMap | UnknownGroupKey | GroupNameRequired | DuplicateGroup | AdvancedNotBoolean
    | FieldNotMap | UnknownFieldKey | IllegalName | DuplicateField | UnknownType | UndeclaredGroup | FlagNotBoolean
    | ShowIfNotMap | AnyNotList | AnyEntryNotPlain | UnknownOperand | IllegalCondition | BoundNotNumber
    | ValidateNotMap | UnknownRule | RangeOnNonNumber | LengthOnNonString | PatternErrorMissing
    | BadRegex | NonPortableRegex
    | RowsMisplaced | RowsNotPositive | VersionMisplaced | VersionNotFourOrSix
    | OptionsMisplaced | OptionsAndSource | OptionsMissing | OptionsNotList | BadOption | UnknownSource
    | GenerateMisplaced | PasswordDefault | BadGenerate

  type Faults = seq<Fault>

  // ---- The accepted grammar ----

  predicate IsComparator(key: string) {
    key == "gt" || key == "gte" || key == "lt" || key == "lte"
  }

  predicate LegalCondition(condition: Value) {
    condition.Obj? ==>
      && |condition.props| == 1
      && forall key :: key in condition.props ==>
           key == "not" || (IsComparator(key) && condition.props[key].Num?)
  }

  predicate LegalShowIf(showIf: Value, operands: set<string>)
    decreases showIf
  {
    showIf.Obj? && forall key | key in showIf.props ::
      if key == "any" then LegalAny(showIf.props[key], operands)
      else key in operands && LegalCondition(showIf.props[key])
  }

  predicate LegalAny(maps: Value, operands: set<string>)
    decreases maps
  {
    maps.List? && |maps.items| > 0
    && forall i | 0 <= i < |maps.items| ::
         maps.items[i].Obj? && "any" !in maps.items[i].props && LegalShowIf(maps.items[i], operands)
  }

  predicate LegalPattern(js: Js, rules: Rules)
    requires rules.Rules?
  {
    rules.pattern != Undefined ==>
      && rules.patternError.Str? && rules.patternError.s != ""
      && js.compiles(Text(js, rules.pattern))
      && js.portable(Text(js, rules.pattern))
  }

  predicate LegalValidate(js: Js, field: Field) {
    match field.validate
    case NoRules => true
    case BadRules => false
    case Rules(min, max, minLength, maxLength, pattern, _, otherKeys) =>
      && otherKeys == {}
      && (min != Undefined || max != Undefined ==> field.ftype == Str("number"))
      && (minLength != Undefined || maxLength != Undefined || pattern != Undefined ==> IsStringType(field.ftype))
      && LegalPattern(js, field.validate)
  }

  predicate IsPositiveInteger(v: Value) {
    v.Num? && IsInteger(v.n) && v.n.r >= 1.0
  }

  predicate LegalScalarKeys(js: Js, field: Field) {
    && (field.rows != Undefined ==> field.ftype == Str("textarea") && IsPositiveInteger(field.rows))
    && (field.version != Undefined ==>
          field.ftype == Str("ipaddr") && ToNumber(js, field.version) in {Finite(4.0), Finite(6.0)})
  }

  predicate Selectish(field: Field) {
    field.ftype == Str("select") || field.ftype == Str("multiselect")
  }

  predicate LegalOption(option: Value) {
    option.Obj? || option.List? ==> Get(option, "value") != Undefined && Get(option, "label").Str?
  }

  predicate LegalSelectKeys(field: Field) {
    if !Selectish(field) then field.options == Undefined && field.optionsSource == Undefined
    else if field.optionsSource == Undefined then
      field.options.List? && forall i :: 0 <= i < |field.options.items| ==> LegalOption(field.options.items[i])
    else
      field.options == Undefined && field.optionsSource.Str? && field.optionsSource.s in OPTIONS_SOURCES
  }

  /** `generate?.length`: a list has a length too, so it passes for a map here. */
  function GenerateLength(generate: Value): Value {
    if generate.List? then Num(Finite(|generate.items| as real)) else Get(generate, "length")
  }

  predicate LegalPasswordKeys(field: Field) {
    if field.ftype == Str("password") then
      field.default == Undefined
      && (field.generate != Undefined ==>
        (field.generate.Obj? || field.generate.List?) && IsPositiveInteger(GenerateLength(field.generate)))
    else field.generate == Undefined
  }

  predicate OptionalBoolean(v: Value) {
    v == Undefined || v.Bool?
  }

  predicate IsNameStart(c: char) {
    'A' <= c <= 'Z' || 'a' <= c <= 'z' || c == '_'
  }

  predicate LegalName(name: Value) {
    name.Str? && name.s != "" && IsNameStart(name.s[0])
    && forall i :: 0 <= i < |name.s| ==> IsNameStart(name.s[i]) || '0' <= name.s[i] <= '9'
  }

  predicate LegalType(ftype: Value) {
    ftype.Str? && ftype.s in FIELD_TYPES
  }

  /** The role-enable flags: the exact spelling of the role's name plus `_enabled`. */
  function RoleOperands(roles: seq<Value>): set<string> {
    set i | 0 <= i < |roles| && roles[i].Str? :: roles[i].s + "_enabled"
  }

  function GroupNames(groups: seq<Item<Group>>): set<string> {
    if |groups| == 0 then {}
    else
      var last := Last(groups);
      GroupNames(Init(groups)) + if last.Map? && last.def.name.Str? then {last.def.name.s} else {}
  }

  /** The fields a group's condition may mention: those outside the group. */
  function Outsiders(fields: seq<Item<Field>>, group: Value): set<string> {
    set i | 0 <= i < |fields| && Named(fields[i]) && !StrictEq(fields[i].def.group, group) :: fields[i].def.name.s
  }

  predicate LegalGroup(
    group: Item<Group>, earlier: set<string>, operands: set<string>, fields: seq<Item<Field>>)
  {
    && group.Map?
    && group.def.otherKeys == {}
    && group.def.name.Str? && group.def.name.s != "" && group.def.name.s !in earlier
    && OptionalBoolean(group.def.advanced)
    && (group.def.showIf != Undefined ==>
          LegalShowIf(group.def.showIf, operands + Outsiders(fields, group.def.name)))
  }

  predicate LegalField(
    js: Js, field: Field, earlier: set<string>, operands: set<string>, groupNames: set<string>)
  {
    && field.otherKeys == {}
    && LegalName(field.name) && field.name.s !in earlier
    && LegalType(field.ftype)
    && (field.group != Undefined ==> field.group.Str? && field.group.s in groupNames)
    && OptionalBoolean(field.required) && OptionalBoolean(field.immutable)
    && (field.showIf != Undefined ==> LegalShowIf(field.showIf, operands + earlier))
    && LegalScalarKeys(js, field) && LegalSelectKeys(field) && LegalPasswordKeys(field)
    && LegalValidate(js, field)
  }

  predicate LegalGroups(groups: seq<Item<Group>>, operands: set<string>, fields: seq<Item<Field>>) {
    |groups| == 0
    || (LegalGroups(Init(groups), operands, fields)
        && LegalGroup(Last(groups), GroupNames(Init(groups)), operands, fields))
  }

  /** Each field is legal after the ones declared before it: only their names and the role flags are in scope. */
  predicate LegalFields(
    js: Js, fields: seq<Item<Field>>, operands: set<string>, groupNames: set<string>)
  {
    |fields| == 0
    || (LegalFields(js, Init(fields), operands, groupNames)
        && Last(fields).Map? && LegalField(js, Last(fields).def, NamesOf(Init(fields)), operands, groupNames))
  }

  /** The manifests that import lets through. */
  predicate LintClean(js: Js, cfg: Configuration, roles: seq<Value>) {
    match cfg
    case Missing => true
    case Malformed => false
    case Config(groups, fields, otherKeys) =>
      && otherKeys == {} && !groups.NotList? && !fields.NotList?
      && LegalGroups(GroupsOf(cfg), RoleOperands(roles), FieldsOf(cfg))
      && LegalFields(js, FieldsOf(cfg), RoleOperands(roles), GroupNames(GroupsOf(cfg)))
  }

  // ---- The linters: each pushes onto the errors it is handed, and pushes nothing exactly on its grammar ----

  ghost predicate Pushes(before: Faults, after: Faults, clean: bool) {
    before <= after && (after == before <==> clean)
  }

  method LintShowIf(showIf: Value, operands: set<string>, errors: Faults) returns (out: Faults)
    ensures Pushes(errors, out, LegalShowIf(showIf, operands))
    decreases showIf
  {
    out := errors;
    if !showIf.Obj? {
      return out + [ShowIfNotMap];
    }
    var keys := showIf.props.Keys;
    while keys != {}
      invariant keys <= showIf.props.Keys
      invariant Pushes(errors, out, forall key | key in showIf.props && key !in keys ::
                  if key == "any" then LegalAny(showIf.props[key], operands)
                  else key in operands && LegalCondition(showIf.props[key]))
    {
      var key :| key in keys;
      keys := keys - {key};
      var condition := showIf.props[key];
      if key == "any" {
        if !condition.List? || |condition.items| == 0 {
          out := out + [AnyNotList];
          continue;
        }
        ghost var before := out;
        for i := 0 to |condition.items|
          invariant Pushes(before, out, forall j | 0 <= j < i ::
                      condition.items[j].Obj? && "any" !in condition.items[j].props &&
                        LegalShowIf(condition.items[j], operands))
        {
          if !condition.items[i].Obj? || "any" in condition.items[i].props {
            out := out + [AnyEntryNotPlain];
          } else {
            out := LintShowIf(condition.items[i], operands, out);
          }
        }
        continue;
      }
      if key !in operands {
        out := out + [UnknownOperand];
      }
      out := LintCondition(condition, out);
    }
  }

  method LintCondition(condition: Value, errors: Faults) returns (out: Faults)
    ensures Pushes(errors, out, LegalCondition(condition))
  {
    out := errors;
    if condition.Obj? {
      if |condition.props| != 1 {
        return out + [IllegalCondition];
      }
      var only :| only in condition.props.Keys;
      assert condition.props.Keys == {only} by {
        assert |condition.props.Keys - {only}| == 0;
      }
      if only != "not" && !IsComparator(only) {
        out := out + [IllegalCondition];
      } else if IsComparator(only) && !condition.props[only].Num? {
        out := out + [BoundNotNumber];
      }
    }
  }

  method LintValidate(js: Js, field: Field, errors: Faults) returns (out: Faults)
    ensures Pushes(errors, out, LegalValidate(js, field))
  {
    out := errors;
    var rules := field.validate;
    if rules.NoRules? {
      return;
    }
    if rules.BadRules? {
      return out + [ValidateNotMap];
    }
    out := LintKeys(rules.otherKeys, UnknownRule, out);
    if (rules.min != Undefined || rules.max != Undefined) && field.ftype != Str("number") {
      out := out + [RangeOnNonNumber];
    }
    if (rules.minLength != Undefined || rules.maxLength != Undefined || rules.pattern != Undefined)
       && !IsStringType(field.ftype) {
      out := out + [LengthOnNonString];
    }
    if rules.pattern != Undefined {
      if !rules.patternError.Str? || rules.patternError.s == "" {
        out := out + [PatternErrorMissing];
      }
      if !js.compiles(Text(js, rules.pattern)) {
        out := out + [BadRegex];
      }
      if !js.portable(Text(js, rules.pattern)) {
        out := out + [NonPortableRegex];
      }
    }
  }

  /** One error per key outside the closed set. */
  method LintKeys(otherKeys: set<string>, fault: Fault, errors: Faults) returns (out: Faults)
    ensures Pushes(errors, out, otherKeys == {})
    ensures |out| == |errors| + |otherKeys|
    ensures forall i :: |errors| <= i < |out| ==> out[i] == fault
  {
    out := errors;
    var keys := otherKeys;
    while keys != {}
      invariant keys <= otherKeys
      invariant errors <= out && |out| + |keys| == |errors| + |otherKeys|
      invariant forall i :: |errors| <= i < |out| ==> out[i] == fault
    {
      var key :| key in keys;
      keys := keys - {key};
      out := out + [fault];
    }
  }

  method LintScalarTypeKeys(js: Js, field: Field, errors: Faults) returns (out: Faults)
    ensures Pushes(errors, out, LegalScalarKeys(js, field))
  {
    out := errors;
    if field.rows != Undefined && field.ftype != Str("textarea") {
      out := out + [RowsMisplaced];
    }
    if field.rows != Undefined && !IsPositiveInteger(field.rows) {
      out := out + [RowsNotPositive];
    }
    if field.version != Undefined && field.ftype != Str("ipaddr") {
      out := out + [VersionMisplaced];
    }
    if field.version != Undefined && ToNumber(js, field.version) !in {Finite(4.0), Finite(6.0)} {
      out := out + [VersionNotFourOrSix];
    }
  }

  method LintSelectKeys(field: Field, errors: Faults) returns (out: Faults)
    ensures Pushes(errors, out, LegalSelectKeys(field))
  {
    out := errors;
    if (field.options != Undefined || field.optionsSource != Undefined) && !Selectish(field) {
      out := out + [OptionsMisplaced];
    }
    if !Selectish(field) {
      return;
    }
    if field.options != Undefined && field.optionsSource != Undefined {
      out := out + [OptionsAndSource];
    }
    if field.options == Undefined && field.optionsSource == Undefined {
      out := out + [OptionsMissing];
    }
    if field.options != Undefined && !field.options.List? {
      out := out + [OptionsNotList];
    }
    if field.options.List? {
      ghost var before := out;
      for i := 0 to |field.options.items|
        invariant Pushes(before, out, forall j | 0 <= j < i :: LegalOption(field.options.items[j]))
      {
        if !LegalOption(field.options.items[i]) {
          out := out + [BadOption];
        }
      }
    }
    if field.optionsSource != Undefined && (!field.optionsSource.Str? || field.optionsSource.s !in OPTIONS_SOURCES) {
      out := out + [UnknownSource];
    }
  }

  method LintPasswordKeys(field: Field, errors: Faults) returns (out: Faults)
    ensures Pushes(errors, out, LegalPasswordKeys(field))
  {
    out := errors;
    if field.ftype != Str("password") {
      if field.generate != Undefined {
        out := out + [GenerateMisplaced];
      }
      return;
    }
    if field.default != Undefined {
      out := out + [PasswordDefault];
    }
    if field.generate != Undefined {
      if (!field.generate.Obj? && !field.generate.List?) || !IsPositiveInteger(GenerateLength(field.generate)) {
        out := out + [BadGenerate];
      }
    }
  }

  method LintGroup(
    group: Item<Group>, groupNames: set<string>, operands: set<string>, fields: seq<Item<Field>>, errors: Faults)
    returns (out: Faults, names: set<string>)
    ensures Pushes(errors, out, LegalGroup(group, groupNames, operands, fields))
    ensures out == errors ==> names == groupNames + {group.def.name.s}
  {
    out, names := errors, groupNames;
    if !group.Map? {
      return out + [GroupNotMap], names;
    }
    var def := group.def;
    out := LintKeys(def.otherKeys, UnknownGroupKey, out);
    if !def.name.Str? || def.name.s == "" {
      out := out + [GroupNameRequired];
    } else if def.name.s in names {
      out := out + [DuplicateGroup];
    } else {
      names := names + {def.name.s};
    }
    if !OptionalBoolean(def.advanced) {
      out := out + [AdvancedNotBoolean];
    }
    if def.showIf != Undefined {
      out := LintShowIf(def.showIf, operands + Outsiders(fields, def.name), out);
    }
  }

  /** The keys and the name: legal, and not seen before. */
  method LintFieldName(field: Field, seen: set<string>, errors: Faults) returns (out: Faults)
    ensures Pushes(errors, out, field.otherKeys == {} && LegalName(field.name) && field.name.s !in seen)
  {
    out := LintKeys(field.otherKeys, UnknownFieldKey, errors);
    if !LegalName(field.name) {
      out := out + [IllegalName];
    } else if field.name.s in seen {
      out := out + [DuplicateField];
    }
  }

  method LintFieldFlags(field: Field, groupNames: set<string>, errors: Faults) returns (out: Faults)
    ensures Pushes(errors, out,
      && (field.group != Undefined ==> field.group.Str? && field.group.s in groupNames)
      && OptionalBoolean(field.required) && OptionalBoolean(field.immutable))
  {
    out := errors;
    if field.group != Undefined && (!field.group.Str? || field.group.s !in groupNames) {
      out := out + [UndeclaredGroup];
    }
    if !OptionalBoolean(field.required) {
      out := out + [FlagNotBoolean];
    }
    if !OptionalBoolean(field.immutable) {
      out := out + [FlagNotBoolean];
    }
  }

  method LintField(
    js: Js, field: Field, seen: set<string>, operands: set<string>, groupNames: set<string>, errors: Faults)
    returns (out: Faults)
    ensures Pushes(errors, out, LegalField(js, field, seen, operands, groupNames))
  {
    out := LintFieldName(field, seen, errors);
    if !LegalType(field.ftype) {
      return out + [UnknownType];
    }
    out := LintFieldFlags(field, groupNames, out);
    if field.showIf != Undefined {
      out := LintShowIf(field.showIf, operands + seen, out);
    }
    out := LintScalarTypeKeys(js, field, out);
    out := LintSelectKeys(field, out);
    out := LintPasswordKeys(field, out);
    out := LintValidate(js, field, out);
  }

  /** An empty error list means exactly that the manifest is in the grammar. */
  method LintConfiguration(js: Js, cfg: Configuration, roles: seq<Value>) returns (errors: Faults)
    ensures errors == [] <==> LintClean(js, cfg, roles)
  {
    errors := [];
    if cfg.Missing? {
      return;
    }
    if cfg.Malformed? {
      return [ConfigNotMap];
    }
    for i := 0 to |LEGACY_KEYS|
      invariant errors == [] <==> forall j :: 0 <= j < i ==> LEGACY_KEYS[j] !in cfg.otherKeys
    {
      if LEGACY_KEYS[i] in cfg.otherKeys {
        errors := errors + [LegacyShape];
      }
    }
    var unknown := cfg.otherKeys - set i | 0 <= i < |LEGACY_KEYS| :: LEGACY_KEYS[i];
    errors := LintKeys(unknown, UnknownConfigKey, errors);
    var operands := RoleOperands(roles);
    if cfg.groups.NotList? {
      errors := errors + [GroupsNotList];
    }
    if cfg.fields.NotList? {
      return errors + [FieldsNotList];
    }
    var groups, fields := GroupsOf(cfg), FieldsOf(cfg);

    var groupNames;
    errors, groupNames := LintGroups(groups, operands, fields, errors);
    errors := LintFields(js, fields, operands, groupNames, errors);
  }

  /** The loop over the groups; with no error it has collected every group's name. */
  method LintGroups(groups: seq<Item<Group>>, operands: set<string>, fields: seq<Item<Field>>, errors: Faults)
    returns (out: Faults, groupNames: set<string>)
    ensures Pushes(errors, out, LegalGroups(groups, operands, fields))
    ensures out == errors ==> groupNames == GroupNames(groups)
  {
    out, groupNames := errors, {};
    for i := 0 to |groups|
      invariant Pushes(errors, out, LegalGroups(groups[..i], operands, fields))
      invariant out == errors ==> groupNames == GroupNames(groups[..i])
    {
      assert Init(groups[..i + 1]) == groups[..i];
      out, groupNames := LintGroup(groups[i], groupNames, operands, fields, out);
    }
    assert groups[..|groups|] == groups;
  }

  /** The loop over the fields, in declaration order: a condition may mention the names seen so far. */
  method LintFields(
    js: Js, fields: seq<Item<Field>>, operands: set<string>, groupNames: set<string>, errors: Faults)
    returns (out: Faults)
    ensures Pushes(errors, out, LegalFields(js, fields, operands, groupNames))
  {
    out := errors;
    var seen: set<string> := {};
    for i := 0 to |fields|
      invariant Pushes(errors, out, LegalFields(js, fields[..i], operands, groupNames))
      invariant out == errors ==> seen == NamesOf(fields[..i])
    {
      assert Init(fields[..i + 1]) == fields[..i];
      if !fields[i].Map? {
        out := out + [FieldNotMap];
        continue;
      }
      out := LintField(js, fields[i].def, seen, operands, groupNames, out);
      if fields[i].def.name.Str? && LegalType(fields[i].def.ftype) {
        seen := seen + {fields[i].def.name.s};
      }
    }
    assert fields[..|fields|] == fields;
  }

  lemma {:induction false} LegalFieldAt(
    js: Js, fields: seq<Item<Field>>, operands: set<string>, groupNames: set<string>, i: nat)
    requires LegalFields(js, fields, operands, groupNames) && i < |fields|
    ensures fields[i].Map? && LegalField(js, fields[i].def, NamesOf(fields[..i]), operands, groupNames)
  {
    assert Init(fields) == fields[..|fields| - 1];
    if i < |fields| - 1 {
      LegalFieldAt(js, Init(fields), operands, groupNames, i);
      assert Init(fields)[..i] == fields[..i];
    }
  }

  lemma {:induction false} LegalGroupAt(
    groups: seq<Item<Group>>, operands: set<string>, fields: seq<Item<Field>>, i: nat)
    requires LegalGroups(groups, operands, fields) && i < |groups|
    ensures LegalGroup(groups[i], GroupNames(groups[..i]), operands, fields)
  {
    assert Init(groups) == groups[..|groups| - 1];
    if i < |groups| - 1 {
      LegalGroupAt(Init(groups), operands, fields, i);
      assert Init(groups)[..i] == groups[..i];
    }
  }
}
