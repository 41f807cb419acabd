/**
 The manifests lint lets through, declaration by declaration: what may stand at each place, said apart from the grammar
 the linters are proved against.
 */
module FieldDslLintMeaning {
  import opened Strings
  import opened JsValue
  import opened FieldDsl
  import opened FieldDslLint
  import opened VisibilityTheorems
  import FieldDslMeaning

  // ---- Conditions ----

  predicate Single(c: Value, key: string, v: Value) {
    c == Obj(map[key := v])
  }

  /** One value, a list of values, a negation, or one comparison with a number. */
  ghost predicate OneCondition(c: Value) {
    !c.Obj? ||
    exists key, v :: Single(c, key, v) && (key == "not" || (key in {"gt", "gte", "lt", "lte"} && v.Num?))
  }

  /** Every key but `any` is an operand in scope, with one condition. */
  ghost predicate PlainConditions(props: map<string, Value>, scope: string -> bool) {
    forall key :: key in props && key != "any" ==> scope(key) && OneCondition(props[key])
  }

  /** A map of conditions, and where there is `any`, a list of at least one plain map. */
  ghost predicate Conditions(showIf: Value, scope: string -> bool) {
    showIf.Obj? && PlainConditions(showIf.props, scope) &&
    ("any" in showIf.props ==>
      var any := showIf.props["any"];
      any.List? && any.items != [] &&
      forall m :: m in any.items ==> m.Obj? && "any" !in m.props && PlainConditions(m.props, scope))
  }

  lemma OneConditionExactly(c: Value)
    ensures LegalCondition(c) <==> OneCondition(c)
  {
    if c.Obj? && LegalCondition(c) {
      var key :| key in c.props;
      assert c.props.Keys == {key} by {
        assert |c.props.Keys - {key}| == 0;
      }
      assert c.props == map[key := c.props[key]];
      assert Single(c, key, c.props[key]);
    }
  }

  lemma PlainExactly(m: Value, operands: set<string>, scope: string -> bool)
    requires m.Obj? && "any" !in m.props && forall o :: o in operands <==> scope(o)
    ensures LegalShowIf(m, operands) <==> PlainConditions(m.props, scope)
  {
    forall key | key in m.props ensures LegalCondition(m.props[key]) <==> OneCondition(m.props[key]) {
      OneConditionExactly(m.props[key]);
    }
  }

  lemma AnyExactly(any: Value, operands: set<string>, scope: string -> bool)
    requires forall o :: o in operands <==> scope(o)
    ensures LegalAny(any, operands) <==>
      any.List? && any.items != [] &&
      forall m :: m in any.items ==> m.Obj? && "any" !in m.props && PlainConditions(m.props, scope)
  {
    if any.List? {
      forall m | m in any.items && m.Obj? && "any" !in m.props
        ensures LegalShowIf(m, operands) <==> PlainConditions(m.props, scope)
      {
        PlainExactly(m, operands, scope);
      }
    }
  }

  lemma ConditionsExactly(showIf: Value, operands: set<string>, scope: string -> bool)
    requires forall o :: o in operands <==> scope(o)
    ensures LegalShowIf(showIf, operands) <==> Conditions(showIf, scope)
  {
    if showIf.Obj? {
      forall key | key in showIf.props && key != "any"
        ensures LegalCondition(showIf.props[key]) <==> OneCondition(showIf.props[key])
      {
        OneConditionExactly(showIf.props[key]);
      }
      if "any" in showIf.props {
        AnyExactly(showIf.props["any"], operands, scope);
      }
    }
  }

  // ---- What a field of each type may carry ----

  predicate IsWhole(v: Value, n: nat) {
    v == Num(Finite(n as real))
  }

  ghost predicate WholeFromOne(v: Value) {
    exists n: nat :: n >= 1 && IsWhole(v, n)
  }

  /** The length a `generate` asks for; a list passes with as many items. */
  ghost predicate Generates(generate: Value) {
    match generate
    case Obj(props) => "length" in props && WholeFromOne(props["length"])
    case List(items) => items != []
    case _ => false
  }

  /** An option is a scalar, or a map with a value and a label that is a text. */
  predicate OptionFits(option: Value) {
    match option
    case Obj(props) => "value" in props && props["value"] != Undefined && "label" in props && props["label"].Str?
    case List(_) => false
    case _ => true
  }

  ghost predicate TypeKeysFit(js: Js, f: Field, t: string) {
    (f.rows == Undefined || (t == "textarea" && WholeFromOne(f.rows))) &&
    (f.version == Undefined || (t == "ipaddr" && (ToNumber(js, f.version) == Finite(4.0) ||
      ToNumber(js, f.version) == Finite(6.0)))) &&
    (f.generate == Undefined || (t == "password" && Generates(f.generate))) &&
    (t == "password" ==> f.default == Undefined)
  }

  /** A picker has a list of options or one of the four sources; no other field has either. */
  predicate PickerFits(f: Field, t: string) {
    if t == "select" || t == "multiselect" then
      if f.optionsSource == Undefined then f.options.List? && forall o :: o in f.options.items ==> OptionFits(o)
      else (
        f.options == Undefined &&
        f.optionsSource in {Str("networks"), Str("datastores"), Str("hosts"), Str("images")}
      )
    else f.options == Undefined && f.optionsSource == Undefined
  }

  predicate IsTextual(t: string) {
    t in {"text", "textarea", "password", "fqdn", "ipaddr", "cidr", "path"}
  }

  /** Ranges on numbers, lengths and patterns on texts, and a pattern with its message, compiling and portable. */
  predicate RulesFit(js: Js, f: Field, t: string) {
    match f.validate
    case NoRules => true
    case BadRules => false
    case Rules(min, max, minLength, maxLength, pattern, patternError, otherKeys) =>
      otherKeys == {} &&
      (t != "number" ==> min == Undefined && max == Undefined) &&
      (!IsTextual(t) ==> minLength == Undefined && maxLength == Undefined && pattern == Undefined) &&
      (pattern == Undefined || (patternError.Str? && patternError != Str("") &&
        js.compiles(Text(js, pattern)) && js.portable(Text(js, pattern))))
  }

  lemma WholeExactly(v: Value)
    ensures IsPositiveInteger(v) <==> WholeFromOne(v)
  {
    if IsPositiveInteger(v) {
      var n := v.n.r.Floor;
      assert IsWhole(v, n);
    }
    if n: nat :| n >= 1 && IsWhole(v, n) {
      assert (n as real).Floor == n;
    }
  }

  lemma GeneratesExactly(generate: Value)
    ensures (generate.Obj? || generate.List?) && IsPositiveInteger(GenerateLength(generate)) <==> Generates(generate)
  {
    WholeExactly(GenerateLength(generate));
    if generate.List? {
      var n := |generate.items|;
      assert IsWhole(GenerateLength(generate), n);
      assert n >= 1 <==> n as real >= 1.0;
    }
  }

  lemma TypeKeysExactly(js: Js, f: Field)
    requires f.ftype.Str?
    ensures LegalScalarKeys(js, f) && LegalPasswordKeys(f) <==> TypeKeysFit(js, f, f.ftype.s)
  {
    WholeExactly(f.rows);
    GeneratesExactly(f.generate);
  }

  lemma PickerExactly(f: Field)
    requires f.ftype.Str?
    ensures LegalSelectKeys(f) <==> PickerFits(f, f.ftype.s)
  {
    SourcesAreFour(f.optionsSource);
    if f.options.List? {
      var items := f.options.items;
      assert (forall o :: o in items ==> OptionFits(o)) <==>
        (forall i :: 0 <= i < |items| ==> LegalOption(items[i])) by {
        if forall o :: o in items ==> OptionFits(o) {
          forall i | 0 <= i < |items| ensures LegalOption(items[i]) {
            assert items[i] in items;
          }
        }
      }
    }
  }

  lemma SourcesAreFour(v: Value)
    ensures v.Str? && v.s in OPTIONS_SOURCES <==>
      v in {Str("networks"), Str("datastores"), Str("hosts"), Str("images")}
  {
  }

  lemma TextualExactly(v: Value)
    requires v.Str?
    ensures IsStringType(v) <==> IsTextual(v.s)
  {
  }

  lemma RulesExactly(js: Js, f: Field)
    requires f.ftype.Str?
    ensures LegalValidate(js, f) <==> RulesFit(js, f, f.ftype.s)
  {
    TextualExactly(f.ftype);
  }

  // ---- Names, types and scope ----

  predicate WordChar(c: char) {
    'a' <= c <= 'z' || 'A' <= c <= 'Z' || '0' <= c <= '9' || c == '_'
  }

  /** Letters, digits and underscores, and a first character that is no digit. */
  predicate Identifier(v: Value) {
    v.Str? && v.s != "" && !('0' <= v.s[0] <= '9') && forall c :: c in v.s ==> WordChar(c)
  }

  lemma IdentifierExactly(v: Value)
    ensures LegalName(v) <==> Identifier(v)
  {
    if v.Str? && v.s != "" {
      assert v.s[0] in v.s;
      assert (forall c :: c in v.s ==> WordChar(c)) <==>
        (forall i :: 0 <= i < |v.s| ==> IsNameStart(v.s[i]) || '0' <= v.s[i] <= '9') by {
        if forall c :: c in v.s ==> WordChar(c) {
          forall i | 0 <= i < |v.s| ensures WordChar(v.s[i]) {
            assert v.s[i] in v.s;
          }
        }
      }
    }
  }

  predicate KnownType(t: Value) {
    t.Str? && (t.s in {"number", "checkbox", "select", "multiselect"} || IsTextual(t.s))
  }

  lemma KnownTypeExactly(t: Value)
    ensures LegalType(t) <==> KnownType(t)
  {
    if t.Str? {
      TextualExactly(t);
      assert FIELD_TYPES == ["number", "checkbox", "select", "multiselect"] + STRING_TYPES;
      assert t.s in FIELD_TYPES <==> t.s in ["number", "checkbox", "select", "multiselect"] || t.s in STRING_TYPES;
    }
  }

  ghost predicate RoleFlag(roles: seq<Value>, o: string) {
    exists name :: Str(name) in roles && o == name + "_enabled"
  }

  lemma RoleFlagExactly(roles: seq<Value>, o: string)
    ensures o in RoleOperands(roles) <==> RoleFlag(roles, o)
  {
    if o in RoleOperands(roles) {
      var i :| 0 <= i < |roles| && roles[i].Str? && o == roles[i].s + "_enabled";
      assert Str(roles[i].s) in roles;
    }
  }

  /** A condition of a field may ask for a role, or for a field declared before it. */
  ghost predicate FieldScope(roles: seq<Value>, fields: seq<Item<Field>>, i: nat, o: string)
    requires i <= |fields|
  {
    RoleFlag(roles, o) || exists j :: 0 <= j < i && fields[j].Map? && fields[j].def.name == Str(o)
  }

  lemma FieldScopeExactly(roles: seq<Value>, fields: seq<Item<Field>>, i: nat, o: string)
    requires i <= |fields|
    ensures o in RoleOperands(roles) + NamesOf(fields[..i]) <==> FieldScope(roles, fields, i, o)
  {
    RoleFlagExactly(roles, o);
    FieldDslMeaning.NamesByIndex(fields[..i], o);
    if j :| 0 <= j < i && fields[j].Map? && fields[j].def.name == Str(o) {
      assert fields[..i][j] == fields[j];
    }
  }

  /** A condition of a group may ask for a role, or for a field of another group or of none. */
  ghost predicate GroupScope(roles: seq<Value>, fields: seq<Item<Field>>, name: Value, o: string) {
    RoleFlag(roles, o) ||
    exists j :: 0 <= j < |fields| && fields[j].Map? && fields[j].def.name == Str(o) && fields[j].def.group != name
  }

  lemma GroupScopeExactly(roles: seq<Value>, fields: seq<Item<Field>>, name: Value, o: string)
    requires name.Str?
    ensures o in RoleOperands(roles) + Outsiders(fields, name) <==> GroupScope(roles, fields, name, o)
  {
    RoleFlagExactly(roles, o);
  }

  predicate Flag(v: Value) {
    v == Undefined || v == Bool(true) || v == Bool(false)
  }

  // ---- Whole manifests ----

  ghost predicate GroupStands(roles: seq<Value>, groups: seq<Item<Group>>, fields: seq<Item<Field>>, i: nat)
    requires i < |groups|
  {
    groups[i].Map? &&
    var g := groups[i].def;
    g.otherKeys == {} && g.name.Str? && g.name != Str("") && Flag(g.advanced) &&
    (forall j :: 0 <= j < i ==> groups[j].Map? && groups[j].def.name != g.name) &&
    (g.showIf == Undefined || Conditions(g.showIf, o => GroupScope(roles, fields, g.name, o)))
  }

  ghost predicate DeclaresGroup(groups: seq<Item<Group>>, name: Value) {
    name.Str? && exists j :: 0 <= j < |groups| && groups[j].Map? && groups[j].def.name == name
  }

  ghost predicate FieldStands(
    js: Js, roles: seq<Value>, groups: seq<Item<Group>>, fields: seq<Item<Field>>, i: nat)
    requires i < |fields|
  {
    fields[i].Map? &&
    var f := fields[i].def;
    f.otherKeys == {} && Identifier(f.name) && KnownType(f.ftype) && Flag(f.required) && Flag(f.immutable) &&
    (forall j :: 0 <= j < i ==> fields[j].Map? && fields[j].def.name != f.name) &&
    (f.group == Undefined || DeclaresGroup(groups, f.group)) &&
    (f.showIf == Undefined || Conditions(f.showIf, o => FieldScope(roles, fields, i, o))) &&
    TypeKeysFit(js, f, f.ftype.s) && PickerFits(f, f.ftype.s) && RulesFit(js, f, f.ftype.s)
  }

  ghost predicate AllGroupsStand(roles: seq<Value>, groups: seq<Item<Group>>, fields: seq<Item<Field>>) {
    forall i :: 0 <= i < |groups| ==> GroupStands(roles, groups, fields, i)
  }

  ghost predicate AllFieldsStand(js: Js, roles: seq<Value>, groups: seq<Item<Group>>, fields: seq<Item<Field>>) {
    forall i :: 0 <= i < |fields| ==> FieldStands(js, roles, groups, fields, i)
  }

  lemma {:induction false} GroupNamesByIndex(groups: seq<Item<Group>>, k: string)
    ensures k in GroupNames(groups) <==>
      exists i :: 0 <= i < |groups| && groups[i].Map? && groups[i].def.name == Str(k)
  {
    if |groups| > 0 {
      var n, before := |groups| - 1, Init(groups);
      GroupNamesByIndex(before, k);
      if i :| 0 <= i < |before| && before[i].Map? && before[i].def.name == Str(k) {
        assert groups[i] == before[i];
      }
      if i :| 0 <= i < |groups| && groups[i].Map? && groups[i].def.name == Str(k) {
        assert i < n ==> before[i] == groups[i];
      }
      if Last(groups).Map? && Last(groups).def.name == Str(k) {
        assert groups[n] == Last(groups);
      }
    }
  }

  lemma {:induction false} GroupsExactly(roles: seq<Value>, groups: seq<Item<Group>>, fields: seq<Item<Field>>)
    ensures LegalGroups(groups, RoleOperands(roles), fields) <==> AllGroupsStand(roles, groups, fields)
  {
    if |groups| > 0 {
      var n, before := |groups| - 1, Init(groups);
      GroupsExactly(roles, before, fields);
      assert AllGroupsStand(roles, groups, fields) <==>
        AllGroupsStand(roles, before, fields) && GroupStands(roles, groups, fields, n) by {
        forall i | 0 <= i < n
          ensures GroupStands(roles, groups, fields, i) <==> GroupStands(roles, before, fields, i)
        {
          GroupStandsEarlier(roles, groups, fields, i);
        }
      }
      if AllGroupsStand(roles, before, fields) {
        forall j | 0 <= j < n ensures before[j].Map? {
          assert GroupStands(roles, before, fields, j);
        }
        GroupExactly(roles, groups, fields, n);
      }
    }
  }

  lemma GroupStandsEarlier(roles: seq<Value>, groups: seq<Item<Group>>, fields: seq<Item<Field>>, i: nat)
    requires i < |groups| - 1
    ensures GroupStands(roles, groups, fields, i) <==> GroupStands(roles, Init(groups), fields, i)
  {
    forall j | 0 <= j <= i ensures groups[j] == Init(groups)[j] {
    }
  }

  /** One group after others that are maps. */
  lemma GroupExactly(roles: seq<Value>, groups: seq<Item<Group>>, fields: seq<Item<Field>>, n: nat)
    requires |groups| == n + 1 && forall j :: 0 <= j < n ==> groups[j].Map?
    ensures LegalGroup(groups[n], GroupNames(Init(groups)), RoleOperands(roles), fields) <==>
      GroupStands(roles, groups, fields, n)
  {
    if groups[n].Map? && groups[n].def.name.Str? {
      var g := groups[n].def;
      GroupNamesByIndex(Init(groups), g.name.s);
      forall o ensures o in RoleOperands(roles) + Outsiders(fields, g.name) <==> GroupScope(roles, fields, g.name, o) {
        GroupScopeExactly(roles, fields, g.name, o);
      }
      ConditionsExactly(g.showIf, RoleOperands(roles) + Outsiders(fields, g.name),
        o => GroupScope(roles, fields, g.name, o));
    }
  }

  lemma {:induction false} FieldsExactly(
    js: Js, roles: seq<Value>, groups: seq<Item<Group>>, fields: seq<Item<Field>>)
    ensures LegalFields(js, fields, RoleOperands(roles), GroupNames(groups)) <==>
      AllFieldsStand(js, roles, groups, fields)
  {
    if |fields| > 0 {
      var n, before := |fields| - 1, Init(fields);
      FieldsExactly(js, roles, groups, before);
      AllFieldsNext(js, roles, groups, fields);
      if AllFieldsStand(js, roles, groups, before) {
        forall j | 0 <= j < n ensures before[j].Map? {
          assert FieldStands(js, roles, groups, before, j);
        }
        FieldExactly(js, roles, groups, fields, n);
      }
    }
  }

  lemma AllFieldsNext(js: Js, roles: seq<Value>, groups: seq<Item<Group>>, fields: seq<Item<Field>>)
    requires |fields| > 0
    ensures AllFieldsStand(js, roles, groups, fields) <==>
      AllFieldsStand(js, roles, groups, Init(fields)) && FieldStands(js, roles, groups, fields, |fields| - 1)
  {
    forall i | 0 <= i < |fields| - 1
      ensures FieldStands(js, roles, groups, fields, i) <==> FieldStands(js, roles, groups, Init(fields), i)
    {
      FieldStandsEarlier(js, roles, groups, fields, i);
    }
  }

  lemma FieldStandsEarlier(
    js: Js, roles: seq<Value>, groups: seq<Item<Group>>, fields: seq<Item<Field>>, i: nat)
    requires i < |fields| - 1
    ensures FieldStands(js, roles, groups, fields, i) <==> FieldStands(js, roles, groups, Init(fields), i)
  {
    var before := Init(fields);
    forall j | 0 <= j <= i ensures fields[j] == before[j] {
    }
    if fields[i].Map? {
      forall o ensures FieldScope(roles, fields, i, o) <==> FieldScope(roles, before, i, o) {
      }
      SameScope(fields[i].def.showIf, o => FieldScope(roles, fields, i, o), o => FieldScope(roles, before, i, o));
    }
  }

  lemma SameScope(showIf: Value, a: string -> bool, b: string -> bool)
    requires forall o :: a(o) <==> b(o)
    ensures Conditions(showIf, a) <==> Conditions(showIf, b)
  {
    forall props ensures PlainConditions(props, a) <==> PlainConditions(props, b) {
    }
  }

  /** One field after others that are maps. */
  lemma FieldExactly(
    js: Js, roles: seq<Value>, groups: seq<Item<Group>>, fields: seq<Item<Field>>, n: nat)
    requires |fields| == n + 1 && forall j :: 0 <= j < n ==> fields[j].Map?
    ensures fields[n].Map? && LegalField(
      js, fields[n].def, NamesOf(Init(fields)), RoleOperands(roles), GroupNames(groups)) <==>
      FieldStands(js, roles, groups, fields, n)
  {
    if fields[n].Map? && fields[n].def.name.Str? && fields[n].def.ftype.Str? {
      var f := fields[n].def;
      NameExactly(fields, n);
      KnownTypeExactly(f.ftype);
      if f.group.Str? {
        GroupNamesByIndex(groups, f.group.s);
      }
      assert Init(fields) == fields[..n];
      forall o ensures o in RoleOperands(roles) + NamesOf(fields[..n]) <==> FieldScope(roles, fields, n, o) {
        FieldScopeExactly(roles, fields, n, o);
      }
      ConditionsExactly(f.showIf, RoleOperands(roles) + NamesOf(fields[..n]), o => FieldScope(roles, fields, n, o));
      TypeKeysExactly(js, f);
      PickerExactly(f);
      RulesExactly(js, f);
    }
  }

  lemma NameExactly(fields: seq<Item<Field>>, n: nat)
    requires |fields| == n + 1 && forall j :: 0 <= j < n ==> fields[j].Map?
    requires fields[n].Map? && fields[n].def.name.Str?
    ensures LegalName(fields[n].def.name) && fields[n].def.name.s !in NamesOf(Init(fields)) <==>
      Identifier(fields[n].def.name) && forall j :: 0 <= j < n ==> fields[j].def.name != fields[n].def.name
  {
    IdentifierExactly(fields[n].def.name);
    FieldDslMeaning.NamesByIndex(Init(fields), fields[n].def.name.s);
    assert forall j :: 0 <= j < n ==> Init(fields)[j] == fields[j];
  }

  /** A manifest is clean exactly when it has no unknown key and all its groups and all its fields stand. */
  lemma CleanExactly(js: Js, cfg: Configuration, roles: seq<Value>)
    ensures LintClean(js, cfg, roles) <==>
      cfg == Missing ||
      (cfg.Config? && cfg.otherKeys == {} && cfg.groups != NotList && cfg.fields != NotList &&
      AllGroupsStand(roles, GroupsOf(cfg), FieldsOf(cfg)) && AllFieldsStand(js, roles, GroupsOf(cfg), FieldsOf(cfg)))
  {
    GroupsExactly(roles, GroupsOf(cfg), FieldsOf(cfg));
    FieldsExactly(js, roles, GroupsOf(cfg), FieldsOf(cfg));
  }

  /** The form of a clean manifest never holds a password that the user did not give. */
  lemma PasswordsAreGiven(
    js: Js, cfg: Configuration, roles: seq<Value>, answers: Context, values: Context, hidden: seq<string>, i: nat)
    requires LintClean(js, cfg, roles) && EffectiveValues(FieldsOf(cfg), answers, values, hidden)
    requires i < |FieldsOf(cfg)| && FieldsOf(cfg)[i].Map? && FieldsOf(cfg)[i].def.ftype == Str("password")
    requires FieldsOf(cfg)[i].def.name.Str?
    ensures var k := FieldsOf(cfg)[i].def.name.s; k in values ==> k in answers && values[k] == answers[k]
  {
    var fields, k := FieldsOf(cfg), FieldsOf(cfg)[i].def.name.s;
    CleanExactly(js, cfg, roles);
    assert FieldStands(js, roles, GroupsOf(cfg), fields, i);
    forall j | 0 <= j < |fields| ensures !HasDefault(fields[j], k) {
      assert FieldStands(js, roles, GroupsOf(cfg), fields, j);
    }
  }
}
