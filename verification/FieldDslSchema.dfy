/** The JSON Schema (draft 2020-12) derived from a manifest, and what it says of the answers the validator accepts. */
module FieldDslSchema {
  import opened Wrappers
  import opened Strings
  import opened JsValue
  import opened FieldDsl
  import opened FieldDslLint
  import opened VisibilityTheorems
  import opened Resubmission

  datatype SchemaType = NumberType | BooleanType | ArrayType | StringType
  datatype ItemSchema = EnumItems(legal: seq<Value>) | StringItems

  /** A property schema: a keyword that holds a raw value is absent when it is Undefined. */
  datatype Schema = Schema(
    default: Value, stype: Option<SchemaType>, enumeration: Option<seq<Value>>, items: Option<ItemSchema>,
    minimum: Value, maximum: Value, minLength: Value, maxLength: Value, pattern: Value,
    format: Option<string>, writeOnly: bool)

  datatype Document = Document(properties: map<string, Schema>, required: seq<string>)

  const EMPTY_SCHEMA := Schema(
    Undefined, None, None, None, Undefined, Undefined, Undefined, Undefined, Undefined, None, false)

  // ---- What the standard says (JSON Schema Validation draft 2020-12, sections 6.1 to 6.5) ----

  predicate HasType(t: SchemaType, v: Value) {
    match t
    case NumberType => v.Num? && v.n.Finite?
    case BooleanType => v.Bool?
    case ArrayType => v.List?
    case StringType => v.Str?
  }

  predicate ItemSatisfies(s: ItemSchema, v: Value) {
    match s
    case EnumItems(legal) => v in legal
    case StringItems => v.Str?
  }

  predicate Satisfies(js: Js, s: Schema, v: Value) {
    && (s.stype.Some? ==> HasType(s.stype.value, v))
    && (s.enumeration.Some? ==> v in s.enumeration.value)
    && (s.items.Some? && v.List? ==> forall i :: 0 <= i < |v.items| ==> ItemSatisfies(s.items.value, v.items[i]))
    && (s.minimum.Num? && v.Num? ==> AtMost(s.minimum.n, v.n))
    && (s.maximum.Num? && v.Num? ==> AtMost(v.n, s.maximum.n))
    && (s.minLength.Num? && v.Str? ==> AtMost(s.minLength.n, Length(v.s)))
    && (s.maxLength.Num? && v.Str? ==> AtMost(Length(v.s), s.maxLength.n))
    && (s.pattern.Str? && v.Str? ==> js.matches(s.pattern.s, v.s))
  }

  predicate DocumentSatisfies(js: Js, doc: Document, instance: Context) {
    && (forall k :: k in instance ==> k in doc.properties && Satisfies(js, doc.properties[k], instance[k]))
    && (forall k :: k in doc.required ==> k in instance)
  }

  predicate IsBound(v: Value) {
    v == Undefined || (v.Num? && v.n.Finite?)
  }

  predicate IsCount(v: Value) {
    v == Undefined || (v.Num? && IsInteger(v.n) && v.n.r >= 0.0)
  }

  /** The keywords hold the kinds of value the standard demands of them. */
  predicate WellFormed(s: Schema) {
    && IsBound(s.minimum) && IsBound(s.maximum)
    && IsCount(s.minLength) && IsCount(s.maxLength)
    && (s.pattern == Undefined || s.pattern.Str?)
  }

  // ---- Deriving ----

  function LengthRules(rules: Rules, s: Schema): Schema {
    if rules.Rules? then
      s.(minLength := rules.minLength, maxLength := rules.maxLength, pattern := rules.pattern)
    else s
  }

  function FieldSchema(js: Js, field: Field): Schema {
    var s := EMPTY_SCHEMA.(default := field.default);
    if field.ftype == Str("number") then
      var n := s.(stype := Some(NumberType));
      if field.validate.Rules? then n.(minimum := field.validate.min, maximum := field.validate.max) else n
    else if field.ftype == Str("checkbox") then s.(stype := Some(BooleanType))
    else if field.ftype == Str("multiselect") then
      s.(stype := Some(ArrayType),
         items := Some(if field.options.List? then EnumItems(OptionValues(field.options.items)) else StringItems))
    else if field.ftype == Str("select") && field.options.List? then
      s.(enumeration := Some(OptionValues(field.options.items)))
    else
      LengthRules(field.validate, s.(
        stype := Some(StringType),
        writeOnly := field.ftype == Str("password"),
        format := if field.ftype == Str("fqdn") then Some("hostname")
                  else if field.ftype == Str("ipaddr") then
                    Some(if ToNumber(js, field.version) == Finite(6.0) then "ipv6" else "ipv4")
                  else None))
  }

  method SchemaForField(js: Js, field: Field) returns (schema: Schema)
    ensures schema == FieldSchema(js, field)
  {
    schema := EMPTY_SCHEMA;
    var rules := field.validate;
    if field.default != Undefined {
      schema := schema.(default := field.default);
    }
    if field.ftype == Str("number") {
      schema := schema.(stype := Some(NumberType));
      if rules.Rules? && rules.min != Undefined {
        schema := schema.(minimum := rules.min);
      }
      if rules.Rules? && rules.max != Undefined {
        schema := schema.(maximum := rules.max);
      }
      return;
    }
    if field.ftype == Str("checkbox") {
      schema := schema.(stype := Some(BooleanType));
      return;
    }
    if field.ftype == Str("multiselect") {
      schema := schema.(stype := Some(ArrayType));
      if field.options.List? {
        schema := schema.(items := Some(EnumItems(OptionValues(field.options.items))));
      } else {
        schema := schema.(items := Some(StringItems));
      }
      return;
    }
    if field.ftype == Str("select") && field.options.List? {
      schema := schema.(enumeration := Some(OptionValues(field.options.items)));
      return;
    }
    schema := schema.(stype := Some(StringType));
    if field.ftype == Str("password") {
      schema := schema.(writeOnly := true);
    }
    if field.ftype == Str("fqdn") {
      schema := schema.(format := Some("hostname"));
    }
    if field.ftype == Str("ipaddr") {
      schema := schema.(format := Some(if ToNumber(js, field.version) == Finite(6.0) then "ipv6" else "ipv4"));
    }
    if rules.Rules? && rules.minLength != Undefined {
      schema := schema.(minLength := rules.minLength);
    }
    if rules.Rules? && rules.maxLength != Undefined {
      schema := schema.(maxLength := rules.maxLength);
    }
    if rules.Rules? && rules.pattern != Undefined {
      schema := schema.(pattern := rules.pattern);
    }
  }

  predicate IsConditionalGroup(groups: seq<Item<Group>>, name: Value) {
    exists i :: 0 <= i < |groups| && groups[i].Map? && groups[i].def.showIf != Undefined && groups[i].def.name == name
  }

  predicate IsConditional(groups: seq<Item<Group>>, field: Field) {
    field.showIf != Undefined || IsConditionalGroup(groups, field.group)
  }

  predicate HasSchema(item: Item<Field>) {
    Named(item) && LegalType(item.def.ftype)
  }

  function DerivedFrom(js: Js, groups: seq<Item<Group>>, fields: seq<Item<Field>>): Document {
    if |fields| == 0 then Document(map[], [])
    else
      var before, item := DerivedFrom(js, groups, Init(fields)), Last(fields);
      if !HasSchema(item) then before
      else
        Document(before.properties[item.def.name.s := FieldSchema(js, item.def)],
                 before.required + if item.def.required == Bool(true) && !IsConditional(groups, item.def)
                                   then [item.def.name.s] else [])
  }

  method DeriveJsonSchema(js: Js, cfg: Configuration) returns (doc: Document)
    ensures doc == DerivedFrom(js, GroupsOf(cfg), FieldsOf(cfg))
  {
    var groups, fields := GroupsOf(cfg), FieldsOf(cfg);
    var properties, required := map[], [];
    for i := 0 to |fields|
      invariant Document(properties, required) == DerivedFrom(js, groups, fields[..i])
    {
      assert Init(fields[..i + 1]) == fields[..i];
      if !HasSchema(fields[i]) {
        continue;
      }
      var field := fields[i].def;
      var schema := SchemaForField(js, field);
      properties := properties[field.name.s := schema];
      var conditional := field.showIf != Undefined || IsConditionalGroup(groups, field.group);
      if field.required == Bool(true) && !conditional {
        required := required + [field.name.s];
      }
    }
    assert fields[..|fields|] == fields;
    doc := Document(properties, required);
  }

  // ---- One field: an accepted answer satisfies the field's schema ----

  /** The rules are of the kinds the schema keywords demand; lint does not look. */
  predicate TypedRules(rules: Rules) {
    rules.Rules? ==>
      && IsBound(rules.min) && IsBound(rules.max)
      && IsCount(rules.minLength) && IsCount(rules.maxLength)
      && (rules.pattern == Undefined || rules.pattern.Str?)
  }

  /** A list without holes, as every list in JSON is. */
  predicate NoHoles(v: Value) {
    v.List? ==> Undefined !in v.items
  }

  /** A live picker takes what the schema calls a string, and the validator also lets numbers through. */
  predicate StrayPick(field: Field, value: Value) {
    field.optionsSource != Undefined
    && if field.ftype == Str("multiselect")
      then value.List? && exists i :: 0 <= i < |value.items| && !value.items[i].Str?
       else !value.Str?
  }

  /** The derived schema of a legal field is a schema exactly when its rules are typed. */
  lemma FieldSchemaWellFormed(js: Js, field: Field)
    requires LegalType(field.ftype) && LegalValidate(js, field)
    ensures WellFormed(FieldSchema(js, field)) <==> TypedRules(field.validate)
  {
  }

  lemma {:induction false} NoIllegalEntry(items: seq<Value>, legal: seq<Value>)
    requires Undefined !in items && FirstIllegal(items, legal) == Undefined
    ensures forall i :: 0 <= i < |items| ==> items[i] in legal
  {
    if |items| > 0 {
      NoIllegalEntry(items[1..], legal);
      assert items == [items[0]] + items[1..];
    }
  }

  /** Where the field's schema is a schema at all, the validator refines it, up to the picks it lets stray. */
  lemma AcceptedAnswerFitsSchema(js: Js, field: Field, value: Value)
    requires LegalType(field.ftype) && LegalSelectKeys(field) && LegalValidate(js, field)
    requires !IsEmpty(value) && NoHoles(value)
    requires TypeError(js, field, value) == None && ValidateRuleError(js, field.validate, value) == None
    ensures WellFormed(FieldSchema(js, field)) ==>
      (Satisfies(js, FieldSchema(js, field), value) <==> !StrayPick(field, value))
  {
    FieldSchemaWellFormed(js, field);
    if Selectish(field) {
      if field.options.List? {
        if field.ftype == Str("multiselect") {
          NoIllegalEntry(value.items, OptionValues(field.options.items));
        }
      } else {
        assert field.optionsSource != Undefined;
      }
    }
  }

  // ---- The whole document ----

  /** Every field gets a property of its own. */
  ghost predicate OwnProperties(fields: seq<Item<Field>>) {
    forall i {:trigger fields[i]} :: 0 <= i < |fields| ==>
      HasSchema(fields[i]) && NameOf(fields[i]) !in NamesOf(fields[..i])
  }

  lemma CleanFieldsOwnProperties(js: Js, fields: seq<Item<Field>>, operands: set<string>, groupNames: set<string>)
    requires LegalFields(js, fields, operands, groupNames)
    ensures OwnProperties(fields)
  {
    forall i | 0 <= i < |fields| ensures HasSchema(fields[i]) && NameOf(fields[i]) !in NamesOf(fields[..i]) {
      LegalFieldAt(js, fields, operands, groupNames, i);
    }
  }

  lemma DerivedNext(js: Js, groups: seq<Item<Group>>, fields: seq<Item<Field>>, m: nat)
    requires m < |fields| && HasSchema(fields[m])
    ensures DerivedFrom(js, groups, fields[..m + 1]).properties
         == DerivedFrom(js, groups, fields[..m]).properties[NameOf(fields[m]) := FieldSchema(js, fields[m].def)]
  {
    assert Init(fields[..m + 1]) == fields[..m];
  }

  lemma LaterNameDiffers(fields: seq<Item<Field>>, i: nat, m: nat)
    requires OwnProperties(fields) && i < m < |fields|
    ensures HasSchema(fields[i]) && HasSchema(fields[m]) && NameOf(fields[i]) != NameOf(fields[m])
  {
    assert HasSchema(fields[i]);
    NameIsEarlier(fields, m, i);
    assert NameOf(fields[m]) !in NamesOf(fields[..m]);
  }

  lemma {:induction false} PropertyAt(js: Js, groups: seq<Item<Group>>, fields: seq<Item<Field>>, i: nat, n: nat)
    requires OwnProperties(fields) && i < n <= |fields|
    ensures Named(fields[i])
    ensures NameOf(fields[i]) in DerivedFrom(js, groups, fields[..n]).properties
    ensures DerivedFrom(js, groups, fields[..n]).properties[NameOf(fields[i])] == FieldSchema(js, fields[i].def)
  {
    if i < n - 1 {
      PropertyAt(js, groups, fields, i, n - 1);
      LaterNameDiffers(fields, i, n - 1);
    }
    assert HasSchema(fields[n - 1]);
    DerivedNext(js, groups, fields, n - 1);
  }

  lemma {:induction false} RequiredAt(
    js: Js, groups: seq<Item<Group>>, fields: seq<Item<Field>>, k: string) returns (i: nat)
    requires k in DerivedFrom(js, groups, fields).required
    ensures i < |fields| && Named(fields[i]) && fields[i].def.name.s == k
    ensures fields[i].def.required == Bool(true) && !IsConditional(groups, fields[i].def)
  {
    if k in DerivedFrom(js, groups, Init(fields)).required {
      i := RequiredAt(js, groups, Init(fields), k);
    } else {
      i := |fields| - 1;
    }
  }

  lemma {:induction false} GroupIndex(groups: seq<Item<Group>>, name: string) returns (i: nat)
    requires name in GroupNames(groups)
    ensures i < |groups| && groups[i].Map? && groups[i].def.name == Str(name)
  {
    var last := Last(groups);
    if last.Map? && last.def.name == Str(name) {
      i := |groups| - 1;
    } else {
      i := GroupIndex(Init(groups), name);
    }
  }

  /** A field the schema lists as required is one that never hides. */
  lemma RequiredIsUnconditional(js: Js, cfg: Configuration, roles: seq<Value>, i: nat)
    requires LintClean(js, cfg, roles) && i < |FieldsOf(cfg)|
    requires FieldsOf(cfg)[i].Map? && !IsConditional(GroupsOf(cfg), FieldsOf(cfg)[i].def)
    ensures Unconditional(GroupsOf(cfg), FieldsOf(cfg)[i].def)
  {
    var field := FieldsOf(cfg)[i].def;
    LegalFieldAt(js, FieldsOf(cfg), RoleOperands(roles), GroupNames(GroupsOf(cfg)), i);
    if field.group != Undefined {
      var g := GroupIndex(GroupsOf(cfg), field.group.s);
      assert GroupsOf(cfg)[g].def.showIf == Undefined;
    }
  }

  function NonEmpty(values: Context): Context {
    map k | k in values && !IsEmpty(values[k]) :: values[k]
  }

  predicate AllRulesTyped(fields: seq<Item<Field>>) {
    forall i :: 0 <= i < |fields| && fields[i].Map? ==> TypedRules(fields[i].def.validate)
  }

  predicate HolesNowhere(values: Context) {
    forall k :: k in values ==> NoHoles(values[k])
  }

  /** No effective answer to a live picker is anything but text. */
  predicate NoStrayPicks(fields: seq<Item<Field>>, values: Context) {
    forall i :: 0 <= i < |fields| && Named(fields[i]) ==>
      NameOf(fields[i]) in NonEmpty(values) ==> !StrayPick(fields[i].def, values[NameOf(fields[i])])
  }

  function NameOf(item: Item<Field>): string
    requires Named(item)
  {
    item.def.name.s
  }

  /** An accepted value belongs to one legal, visible field. */
  lemma ValueHasField(
    js: Js, cfg: Configuration, roles: seq<Value>, answers: Context, roleFlags: Context, opts: Provision, k: string)
    returns (i: nat)
    requires LintClean(js, cfg, roles) && Accepted(js, cfg, answers, roleFlags, opts)
    requires k in Visibility(js, cfg, answers, roleFlags).values
    ensures i < |FieldsOf(cfg)| && Named(FieldsOf(cfg)[i]) && Name(FieldsOf(cfg), i) == k
    ensures k in VisibleNames(Visibility(js, cfg, answers, roleFlags))
  {
    var p, fields := Visibility(js, cfg, answers, roleFlags), FieldsOf(cfg);
    var form := FormOf(js, cfg, answers, roleFlags);
    CleanIsScoped(js, cfg, roles);
    PassOfForm(js, cfg, answers, roleFlags, RoleOperands(roles));
    PassOnlySubtracts(form, |fields|);
    DefaultsAreNamed(fields);
    assert fields[..|fields|] == fields;
    i := EarlierName(fields, |fields|, k);
  }

  lemma VisibleFieldAccepted(
    js: Js, cfg: Configuration, roles: seq<Value>, answers: Context, roleFlags: Context, opts: Provision, i: nat)
    requires LintClean(js, cfg, roles) && Accepted(js, cfg, answers, roleFlags, opts)
    requires i < |FieldsOf(cfg)| && Name(FieldsOf(cfg), i) in VisibleNames(Visibility(js, cfg, answers, roleFlags))
    ensures Named(FieldsOf(cfg)[i])
    ensures FieldComplaint(js, FieldsOf(cfg)[i].def,
              Lookup(Visibility(js, cfg, answers, roleFlags).values, Name(FieldsOf(cfg), i)), opts) == None
  {
    var form := FormOf(js, cfg, answers, roleFlags);
    CleanIsScoped(js, cfg, roles);
    PassOfForm(js, cfg, answers, roleFlags, RoleOperands(roles));
    VisibleByIndex(form, RoleOperands(roles), i);
    VisibleFieldListed(form, i, |form.fields|);
    assert Named(form.fields[i]);
  }

  lemma {:induction false} VisibleFieldListed(form: Form, i: nat, n: nat)
    requires i < n <= |form.fields| && Named(form.fields[i]) && !Hides(form, i)
    ensures form.fields[i].def in After(form, n).visible
  {
    AfterNext(form, n - 1);
    if i < n - 1 {
      VisibleFieldListed(form, i, n - 1);
    }
  }

  lemma AcceptedValueFits(
    js: Js, cfg: Configuration, roles: seq<Value>, answers: Context, roleFlags: Context, opts: Provision, k: string)
    returns (i: nat)
    requires LintClean(js, cfg, roles) && Accepted(js, cfg, answers, roleFlags, opts)
    requires k in NonEmpty(Visibility(js, cfg, answers, roleFlags).values)
    requires NoHoles(Visibility(js, cfg, answers, roleFlags).values[k])
    ensures i < |FieldsOf(cfg)| && Named(FieldsOf(cfg)[i]) && Name(FieldsOf(cfg), i) == k
    ensures var doc := DerivedFrom(js, GroupsOf(cfg), FieldsOf(cfg));
      k in doc.properties &&
      (WellFormed(doc.properties[k]) ==>
        (Satisfies(js, doc.properties[k], Visibility(js, cfg, answers, roleFlags).values[k]) <==>
         !StrayPick(FieldsOf(cfg)[i].def, Visibility(js, cfg, answers, roleFlags).values[k])))
  {
    var fields, operands, groupNames := FieldsOf(cfg), RoleOperands(roles), GroupNames(GroupsOf(cfg));
    i := ValueHasField(js, cfg, roles, answers, roleFlags, opts, k);
    CleanFieldsOwnProperties(js, fields, operands, groupNames);
    PropertyAt(js, GroupsOf(cfg), fields, i, |fields|);
    assert fields[..|fields|] == fields;
    LegalFieldAt(js, fields, operands, groupNames, i);
    VisibleFieldAccepted(js, cfg, roles, answers, roleFlags, opts, i);
    AcceptedAnswerFitsSchema(js, fields[i].def, Visibility(js, cfg, answers, roleFlags).values[k]);
  }

  lemma RequiredIsAnswered(
    js: Js, cfg: Configuration, roles: seq<Value>, answers: Context, roleFlags: Context, opts: Provision, k: string)
    requires LintClean(js, cfg, roles) && Accepted(js, cfg, answers, roleFlags, opts)
    requires k in DerivedFrom(js, GroupsOf(cfg), FieldsOf(cfg)).required
    ensures k in NonEmpty(Visibility(js, cfg, answers, roleFlags).values)
  {
    var form, operands := FormOf(js, cfg, answers, roleFlags), RoleOperands(roles);
    var i := RequiredAt(js, GroupsOf(cfg), FieldsOf(cfg), k);
    RequiredIsUnconditional(js, cfg, roles, i);
    UnconditionalShows(js, GroupsOf(cfg), operands, FieldsOf(cfg), FieldsOf(cfg)[i].def, form.base, After(form, i).ctx);
    CleanIsScoped(js, cfg, roles);
    PassOfForm(js, cfg, answers, roleFlags, operands);
    VisibleByIndex(form, operands, i);
    assert Name(FieldsOf(cfg), i) == k;
    VisibleFieldAccepted(js, cfg, roles, answers, roleFlags, opts, i);
  }

  /** Every property of the document is a schema. */
  predicate IsSchema(doc: Document) {
    forall k :: k in doc.properties ==> WellFormed(doc.properties[k])
  }

  lemma {:induction false} PropertiesAreFields(js: Js, groups: seq<Item<Group>>, fields: seq<Item<Field>>)
    ensures DerivedFrom(js, groups, fields).properties.Keys <= NamesOf(fields)
  {
    if |fields| > 0 {
      PropertiesAreFields(js, groups, Init(fields));
    }
  }

  /** What lint lets through derives a schema exactly when all rules are of the kinds the keywords take. */
  lemma DerivedIsSchema(js: Js, cfg: Configuration, roles: seq<Value>)
    requires LintClean(js, cfg, roles)
    ensures IsSchema(DerivedFrom(js, GroupsOf(cfg), FieldsOf(cfg))) <==> AllRulesTyped(FieldsOf(cfg))
  {
    var fields, operands, groupNames := FieldsOf(cfg), RoleOperands(roles), GroupNames(GroupsOf(cfg));
    var doc := DerivedFrom(js, GroupsOf(cfg), fields);
    CleanFieldsOwnProperties(js, fields, operands, groupNames);
    assert fields[..|fields|] == fields;
    forall i | 0 <= i < |fields|
      ensures Named(fields[i]) && NameOf(fields[i]) in doc.properties
      ensures WellFormed(doc.properties[NameOf(fields[i])]) <==> TypedRules(fields[i].def.validate)
    {
      PropertyAt(js, GroupsOf(cfg), fields, i, |fields|);
      LegalFieldAt(js, fields, operands, groupNames, i);
      FieldSchemaWellFormed(js, fields[i].def);
    }
    PropertiesAreFields(js, GroupsOf(cfg), fields);
    if AllRulesTyped(fields) {
      forall k | k in doc.properties ensures WellFormed(doc.properties[k]) {
        var i := EarlierName(fields, |fields|, k);
        assert NameOf(fields[i]) == k;
      }
    }
  }

  /**
   For every lint-clean manifest whose derived document is a schema and every accepted form, the effective values
   without their empty entries satisfy the schema, exactly when no live picker was answered with something other than
   text.
   */
  lemma ValidatorRefinesSchema(
    js: Js, cfg: Configuration, roles: seq<Value>, answers: Context, roleFlags: Context, opts: Provision)
    requires LintClean(js, cfg, roles) && Accepted(js, cfg, answers, roleFlags, opts)
    requires HolesNowhere(Visibility(js, cfg, answers, roleFlags).values)
    ensures var values := Visibility(js, cfg, answers, roleFlags).values;
      var doc := DerivedFrom(js, GroupsOf(cfg), FieldsOf(cfg));
      IsSchema(doc) ==> (DocumentSatisfies(js, doc, NonEmpty(values)) <==> NoStrayPicks(FieldsOf(cfg), values))
  {
    var values, fields := Visibility(js, cfg, answers, roleFlags).values, FieldsOf(cfg);
    var doc := DerivedFrom(js, GroupsOf(cfg), fields);
    forall k | k in doc.required ensures k in NonEmpty(values) {
      RequiredIsAnswered(js, cfg, roles, answers, roleFlags, opts, k);
    }
    if IsSchema(doc) && NoStrayPicks(fields, values) {
      forall k | k in NonEmpty(values) ensures k in doc.properties && Satisfies(js, doc.properties[k], values[k]) {
        var i := AcceptedValueFits(js, cfg, roles, answers, roleFlags, opts, k);
        assert NameOf(fields[i]) == k;
      }
    }
    if IsSchema(doc) && DocumentSatisfies(js, doc, NonEmpty(values)) {
      forall i | 0 <= i < |fields| && Named(fields[i]) && NameOf(fields[i]) in NonEmpty(values)
        ensures !StrayPick(fields[i].def, values[NameOf(fields[i])])
      {
        var k := NameOf(fields[i]);
        var j := AcceptedValueFits(js, cfg, roles, answers, roleFlags, opts, k);
        CleanIsScoped(js, cfg, roles);
        NamesAreDistinct(fields, RoleOperands(roles), i, j);
      }
    }
  }

  lemma NamesAreDistinct(fields: seq<Item<Field>>, operands: set<string>, i: nat, j: nat)
    requires Scoped(fields, operands) && i < |fields| && j < |fields| && Name(fields, i) == Name(fields, j)
    ensures i == j
  {
    assert Named(fields[i]) && Named(fields[j]);
    if i < j {
      NameIsEarlier(fields, j, i);
    } else if j < i {
      NameIsEarlier(fields, i, j);
    }
  }

  const UNTYPED := Field(
    Str("n"), Str("number"), Undefined, Undefined, Undefined, Undefined, Undefined,
    Rules(Str("low"), Undefined, Undefined, Undefined, Undefined, Undefined, {}),
    Undefined, Undefined, Undefined, Undefined, Undefined, {})

  /** Lint takes a minimum of any kind: the schema derived from one that is text is not a schema. */
  lemma LintAcceptsUntypedMinimum(js: Js)
    ensures LintClean(js, Config(Absent, Items([Item.Map(UNTYPED)]), {}), [])
    ensures !WellFormed(FieldSchema(js, UNTYPED))
  {
    var items := [Item.Map(UNTYPED)];
    assert FIELD_TYPES[0] == "number";
    assert LegalField(js, UNTYPED, {}, {}, {});
    assert Init(items) == [] && Last(items).def == UNTYPED && RoleOperands([]) == {} && GroupNames([]) == {};
    assert LegalFields(js, [], {}, {});
    assert LegalFields(js, items, {}, {});
  }
}
