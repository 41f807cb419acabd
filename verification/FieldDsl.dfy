/** The runtime half of the field DSL: condition evaluation, visibility and answer validation. */
module FieldDsl {
  import opened Wrappers
  import opened Strings
  import opened JsValue

  // ---- Manifest data model: every known key holds a raw value, Undefined when absent ----

  datatype Group = Group(
    name: Value, advanced: Value, showIf: Value, otherKeys: set<string>)

  /** A `validate` block: absent, not a map, or a map of rules. */
  datatype Rules =
    | NoRules
    | BadRules
    | Rules(min: Value, max: Value, minLength: Value, maxLength: Value,
            pattern: Value, patternError: Value, otherKeys: set<string>)

  datatype Field = Field(
    name: Value, ftype: Value, group: Value, default: Value,
    required: Value, immutable: Value, showIf: Value, validate: Rules,
    options: Value, optionsSource: Value, rows: Value, version: Value,
    generate: Value, otherKeys: set<string>)

  datatype Item<+T> = Map(def: T) | NotMap

  datatype Listing<+T> = Absent | NotList | Items(items: seq<Item<T>>)

  datatype Configuration =
    | Missing
    | Malformed
    | Config(groups: Listing<Group>, fields: Listing<Field>, otherKeys: set<string>)

  type Context = map<string, Value>

  const STRING_TYPES := ["text", "textarea", "password", "fqdn", "ipaddr", "cidr", "path"]
  const FIELD_TYPES := ["number", "checkbox", "select", "multiselect"] + STRING_TYPES

  function ItemsOf<T>(listing: Listing<T>): seq<Item<T>> {
    if listing.Items? then listing.items else []
  }

  function FieldsOf(cfg: Configuration): seq<Item<Field>> {
    if cfg.Config? then ItemsOf(cfg.fields) else []
  }

  function GroupsOf(cfg: Configuration): seq<Item<Group>> {
    if cfg.Config? then ItemsOf(cfg.groups) else []
  }

  /** An entry the runtime looks at: a map whose name is a string. */
  predicate Named(item: Item<Field>) {
    item.Map? && item.def.name.Str?
  }

  function NamesOf(fields: seq<Item<Field>>): set<string> {
    if |fields| == 0 then {}
    else NamesOf(Init(fields)) + if Named(Last(fields)) then {Last(fields).def.name.s} else {}
  }

  // ---- Conditions ----

  predicate LooseEqual(js: Js, a: Value, b: Value) {
    if !a.Bool? && !b.Bool? && a != Str("") && b != Str("")
       && ToNumber(js, a) != NaN && ToNumber(js, b) != NaN
    then ToNumber(js, a) == ToNumber(js, b)
    else Text(js, a) == Text(js, b)
  }

  predicate EvalCondition(js: Js, value: Value, condition: Value)
    decreases condition
  {
    match condition
    case List(items) => exists i :: 0 <= i < |items| && LooseEqual(js, value, items[i])
    case Obj(props) =>
      if "not" in props then !EvalCondition(js, value, props["not"])
      else
        var operand := ToNumber(js, value);
        if "gt" in props then Less(ToNumber(js, props["gt"]), operand)
        else if "gte" in props then AtMost(ToNumber(js, props["gte"]), operand)
        else if "lt" in props then Less(operand, ToNumber(js, props["lt"]))
        else if "lte" in props then AtMost(operand, ToNumber(js, props["lte"]))
        else false
    case _ => LooseEqual(js, value, condition)
  }

  predicate EvalShowIf(js: Js, showIf: Value, ctx: Context)
    decreases showIf
  {
    match showIf
    case Obj(props) =>
      forall key | key in props ::
        if key == "any" then EvalAny(js, props[key], ctx)
        else EvalCondition(js, Lookup(ctx, key), props[key])
    case List(items) =>
      forall i | 0 <= i < |items| :: EvalCondition(js, Lookup(ctx, Decimal(i)), items[i])
    case _ => true
  }

  predicate EvalAny(js: Js, maps: Value, ctx: Context)
    decreases maps
  {
    maps.List? && exists i :: 0 <= i < |maps.items| && EvalShowIf(js, maps.items[i], ctx)
  }

  // ---- Visibility ----

  function Defaults(fields: seq<Item<Field>>): Context {
    if |fields| == 0 then map[]
    else
      var before := Defaults(Init(fields));
      var item := Last(fields);
      if Named(item) && item.def.default != Undefined then before[item.def.name.s := item.def.default] else before
  }

  function GroupResults(js: Js, groups: seq<Item<Group>>, ctx: Context): map<string, bool> {
    if |groups| == 0 then map[]
    else
      var before := GroupResults(js, Init(groups), ctx);
      var item := Last(groups);
      if item.Map? && item.def.name.Str? then
        before[item.def.name.s := if Truthy(item.def.showIf) then EvalShowIf(js, item.def.showIf, ctx) else true]
      else before
  }

  predicate GroupShows(js: Js, field: Field, groupVisible: map<string, bool>) {
    if Truthy(field.group) && Text(js, field.group) in groupVisible
    then groupVisible[Text(js, field.group)]
    else true
  }

  predicate Shows(js: Js, field: Field, groupVisible: map<string, bool>, ctx: Context) {
    GroupShows(js, field, groupVisible)
    && if Truthy(field.showIf) then EvalShowIf(js, field.showIf, ctx) else true
  }

  /** What the pass over the fields carries along. */
  datatype Pass = Pass(values: Context, ctx: Context, hidden: seq<string>, visible: seq<Field>)

  function Visit(js: Js, groupVisible: map<string, bool>, item: Item<Field>, st: Pass): Pass {
    if !Named(item) then st
    else if Shows(js, item.def, groupVisible, st.ctx) then st.(visible := st.visible + [item.def])
    else
      var name := item.def.name.s;
      Pass(st.values - {name}, st.ctx - {name}, st.hidden + [name], st.visible)
  }

  function Visits(js: Js, groupVisible: map<string, bool>, fields: seq<Item<Field>>, st: Pass): Pass {
    if |fields| == 0 then st
    else Visit(js, groupVisible, Last(fields), Visits(js, groupVisible, Init(fields), st))
  }

  function Merged(cfg: Configuration, answers: Context): Context {
    Defaults(FieldsOf(cfg)) + answers
  }

  /** The one-pass visibility computation as a function. */
  function Visibility(js: Js, cfg: Configuration, answers: Context, roleFlags: Context): Pass {
    var values := Merged(cfg, answers);
    var ctx := roleFlags + values;
    Visits(js, GroupResults(js, GroupsOf(cfg), ctx), FieldsOf(cfg), Pass(values, ctx, [], []))
  }

  /** The field of that name that sets the default: the last one that has any. */
  ghost predicate SetsDefault(fields: seq<Item<Field>>, i: nat, k: string)
    requires i < |fields|
  {
    HasDefault(fields[i], k) && forall j :: i < j < |fields| ==> !HasDefault(fields[j], k)
  }

  predicate HasDefault(item: Item<Field>, k: string) {
    item.Map? && item.def.name == Str(k) && item.def.default != Undefined
  }

  /**
   The effective values: the answers, and the defaults of what is not answered, except for what is hidden. An answer
   stands against a default.
   */
  ghost predicate EffectiveValues(fields: seq<Item<Field>>, answers: Context, values: Context, hidden: seq<string>) {
    && (forall k :: k in values <==>
          k !in hidden && (k in answers || exists i :: 0 <= i < |fields| && HasDefault(fields[i], k)))
    && (forall k :: k in values && k in answers ==> values[k] == answers[k])
    && (forall k :: k in values && k !in answers ==>
          exists i :: 0 <= i < |fields| && SetsDefault(fields, i, k) && values[k] == fields[i].def.default)
  }

  lemma {:induction false} DefaultsExactly(fields: seq<Item<Field>>, k: string)
    ensures k in Defaults(fields) <==> exists i :: 0 <= i < |fields| && HasDefault(fields[i], k)
    ensures k in Defaults(fields) ==>
      exists i :: 0 <= i < |fields| && SetsDefault(fields, i, k) && Defaults(fields)[k] == fields[i].def.default
  {
    if |fields| > 0 {
      var n, before := |fields| - 1, Init(fields);
      DefaultsExactly(before, k);
      if HasDefault(fields[n], k) {
        assert SetsDefault(fields, n, k);
      } else if k in Defaults(before) {
        var i :| 0 <= i < n && SetsDefault(before, i, k) && Defaults(before)[k] == before[i].def.default;
        assert SetsDefault(fields, i, k);
      }
    }
  }

  /** The pass takes the hidden names away and nothing else. */
  lemma {:induction false} VisitsSubtract(js: Js, gv: map<string, bool>, fields: seq<Item<Field>>, st: Pass)
    ensures var p := Visits(js, gv, fields, st);
      st.hidden <= p.hidden && p.values == st.values - set k | k in p.hidden[|st.hidden|..]
  {
    if |fields| == 0 {
      assert st.values - {} == st.values && st.hidden[|st.hidden|..] == [];
    } else {
      VisitsSubtract(js, gv, Init(fields), st);
      VisitSubtracts(js, gv, Last(fields), Visits(js, gv, Init(fields), st), st);
    }
  }

  lemma VisitSubtracts(js: Js, gv: map<string, bool>, item: Item<Field>, p: Pass, st: Pass)
    requires st.hidden <= p.hidden && p.values == st.values - set k | k in p.hidden[|st.hidden|..]
    ensures var q := Visit(js, gv, item, p);
      st.hidden <= q.hidden && q.values == st.values - set k | k in q.hidden[|st.hidden|..]
  {
    var q, n := Visit(js, gv, item, p), |st.hidden|;
    if q.hidden != p.hidden {
      assert q.hidden[n..] == p.hidden[n..] + [item.def.name.s];
    }
  }

  lemma EffectiveValuesOf(js: Js, cfg: Configuration, answers: Context, roleFlags: Context)
    ensures var p := Visibility(js, cfg, answers, roleFlags);
      EffectiveValues(FieldsOf(cfg), answers, p.values, p.hidden)
  {
    var p, fields := Visibility(js, cfg, answers, roleFlags), FieldsOf(cfg);
    var values := Merged(cfg, answers);
    var start := Pass(values, roleFlags + values, [], []);
    VisitsSubtract(js, GroupResults(js, GroupsOf(cfg), start.ctx), fields, start);
    assert p.hidden[0..] == p.hidden;
    forall k
      ensures k in Defaults(fields) <==> exists i :: 0 <= i < |fields| && HasDefault(fields[i], k)
      ensures k in Defaults(fields) ==>
        exists i :: 0 <= i < |fields| && SetsDefault(fields, i, k) && Defaults(fields)[k] == fields[i].def.default
    {
      DefaultsExactly(fields, k);
    }
  }

  method ComputeVisibility(js: Js, cfg: Configuration, answers: Context, roleFlags: Context)
    returns (values: Context, hidden: seq<string>, visible: seq<Field>)
    ensures var p := Visibility(js, cfg, answers, roleFlags);
      values == p.values && hidden == p.hidden && visible == p.visible
    ensures EffectiveValues(FieldsOf(cfg), answers, values, hidden)
  {
    var groups, fields := GroupsOf(cfg), FieldsOf(cfg);
    values := map[];
    for i := 0 to |fields|
      invariant values == Defaults(fields[..i])
    {
      assert Init(fields[..i + 1]) == fields[..i];
      if Named(fields[i]) && fields[i].def.default != Undefined {
        values := values[fields[i].def.name.s := fields[i].def.default];
      }
    }
    assert fields[..|fields|] == fields;
    values := values + answers;

    var ctx := roleFlags + values;
    var groupVisible := map[];
    for i := 0 to |groups|
      invariant groupVisible == GroupResults(js, groups[..i], ctx)
    {
      assert Init(groups[..i + 1]) == groups[..i];
      if groups[i].Map? && groups[i].def.name.Str? {
        var shows := true;
        if Truthy(groups[i].def.showIf) {
          shows := EvalShowIf(js, groups[i].def.showIf, ctx);
        }
        groupVisible := groupVisible[groups[i].def.name.s := shows];
      }
    }
    assert groups[..|groups|] == groups;

    hidden, visible := [], [];
    ghost var start := Pass(values, ctx, [], []);
    for i := 0 to |fields|
      invariant Pass(values, ctx, hidden, visible) == Visits(js, groupVisible, fields[..i], start)
    {
      assert Init(fields[..i + 1]) == fields[..i];
      if Named(fields[i]) {
        var field := fields[i].def;
        if Shows(js, field, groupVisible, ctx) {
          visible := visible + [field];
        } else {
          hidden := hidden + [field.name.s];
          ctx := ctx - {field.name.s};
          values := values - {field.name.s};
        }
      }
    }
    EffectiveValuesOf(js, cfg, answers, roleFlags);
  }

  // ---- Answer validation ----

  datatype Complaint =
    | NotDeclared | Required | MustBeNumber | MustBeBoolean | MustBeList | MustBeScalar
    | MustBeString | NotAnOption | NotFqdn | NotIp | WrongIpVersion | NotCidr
    | TooSmall | TooLarge | TooShort | TooLong | PatternMismatch | Immutable

  function OptionValue(option: Value): Value {
    match option
    case Obj(_) => Get(option, "value")
    case List(_) => Undefined
    case _ => option
  }

  function OptionValues(options: seq<Value>): (legal: seq<Value>)
    ensures |legal| == |options|
    ensures forall i :: 0 <= i < |options| ==> legal[i] == OptionValue(options[i])
  {
    seq(|options|, i requires 0 <= i < |options| => OptionValue(options[i]))
  }

  /** `value.find(entry => !legal.includes(entry))`. */
  function FirstIllegal(items: seq<Value>, legal: seq<Value>): Value {
    if |items| == 0 then Undefined
    else if !Includes(legal, items[0]) then items[0]
    else FirstIllegal(items[1..], legal)
  }

  function OptionTypeError(field: Field, value: Value): Option<Complaint> {
    if field.ftype == Str("multiselect") then
      if !value.List? then Some(MustBeList)
      else if field.options.List? && FirstIllegal(value.items, OptionValues(field.options.items)) != Undefined
      then Some(NotAnOption)
      else None
    else if field.options.List? && !Includes(OptionValues(field.options.items), value) then Some(NotAnOption)
    else if value.Str? || value.Num? then None else Some(MustBeScalar)
  }

  predicate IsInteger(n: Number) {
    n.Finite? && n.r == n.r.Floor as real
  }

  predicate IsCidr(js: Js, value: string) {
    var pieces := Split(value, '/');
    var version := js.ipVersion(pieces[0]);
    var bits := if |pieces| > 1 then js.parse(pieces[1]) else NaN;
    |pieces| <= 2 && version != 0 && IsInteger(bits) && 0.0 <= bits.r <= (if version == 6 then 128.0 else 32.0)
  }

  function StringTypeError(js: Js, field: Field, value: string): Option<Complaint> {
    if field.ftype == Str("fqdn") && !js.isFqdn(value) then Some(NotFqdn)
    else if field.ftype == Str("ipaddr") && js.ipVersion(value) == 0 then Some(NotIp)
    else if field.ftype == Str("ipaddr") && Truthy(field.version)
            && ToNumber(js, field.version) != Finite(js.ipVersion(value) as real) then Some(WrongIpVersion)
    else if field.ftype == Str("cidr") && !IsCidr(js, value) then Some(NotCidr)
    else None
  }

  predicate Blank(value: Value) {
    value == Undefined || value == Null || value == Str("")
  }

  predicate IsEmpty(value: Value) {
    Blank(value) || value == List([])
  }

  predicate IsStringType(t: Value) {
    t.Str? && t.s in STRING_TYPES
  }

  function TypeError(js: Js, field: Field, value: Value): Option<Complaint> {
    if Blank(value) then None
    else if field.ftype == Str("number") then
      if value.Num? && value.n.Finite? then None else Some(MustBeNumber)
    else if field.ftype == Str("checkbox") then
      if value.Bool? then None else Some(MustBeBoolean)
    else if field.ftype == Str("select") || field.ftype == Str("multiselect") then OptionTypeError(field, value)
    else if !IsStringType(field.ftype) then None
    else if !value.Str? then Some(MustBeString)
    else StringTypeError(js, field, value.s)
  }

  function Length(s: string): Number {
    Finite(|s| as real)
  }

  function ValidateRuleError(js: Js, rules: Rules, value: Value): Option<Complaint> {
    if !rules.Rules? then None
    else
      match value
      case Num(n) =>
        if rules.min != Undefined && Less(n, ToNumber(js, rules.min)) then Some(TooSmall)
        else if rules.max != Undefined && Less(ToNumber(js, rules.max), n) then Some(TooLarge)
        else None
      case Str(s) =>
        if s == "" then None
        else if rules.minLength != Undefined && Less(Length(s), ToNumber(js, rules.minLength)) then Some(TooShort)
        else if rules.maxLength != Undefined && Less(ToNumber(js, rules.maxLength), Length(s)) then Some(TooLong)
        else if rules.pattern != Undefined && !js.matches(Text(js, rules.pattern), s) then Some(PatternMismatch)
        else None
      case _ => None
  }

  /** The answers recorded by the first provision, once there was one. */
  datatype Provision = Provision(provisioned: bool, previousAnswers: Option<Context>)

  predicate ImmutableChanged(field: Field, value: Value, opts: Provision)
    requires field.name.Str?
  {
    field.immutable == Bool(true) && opts.provisioned && opts.previousAnswers.Some?
    && field.name.s in opts.previousAnswers.value
    && !StrictEq(value, opts.previousAnswers.value[field.name.s])
  }

  /** The complaint one visible field ends up with. */
  function FieldComplaint(js: Js, field: Field, value: Value, opts: Provision): Option<Complaint>
    requires field.name.Str?
  {
    if field.required == Bool(true) && IsEmpty(value) then Some(Complaint.Required)
    else if ImmutableChanged(field, value, opts) then Some(Complaint.Immutable)
    else if TypeError(js, field, value).Some? then TypeError(js, field, value)
    else ValidateRuleError(js, field.validate, value)
  }

  /** The names `answers` may use: a field with an empty name is not in the table. */
  function DeclaredNames(fields: seq<Item<Field>>): set<string> {
    NamesOf(fields) - {""}
  }

  function Undeclared(fields: seq<Item<Field>>, answers: Context): map<string, Complaint> {
    map k | k in answers && k !in DeclaredNames(fields) :: NotDeclared
  }

  /** Adds the visible fields' complaints, in order. */
  function Complaints(js: Js, visible: seq<Field>, values: Context, opts: Provision, errors: map<string, Complaint>)
    : map<string, Complaint>
    requires forall f :: f in visible ==> f.name.Str?
  {
    if |visible| == 0 then errors
    else
      var before := Complaints(js, Init(visible), values, opts, errors);
      var name := Last(visible).name.s;
      var c := FieldComplaint(js, Last(visible), Lookup(values, name), opts);
      if c.Some? then before[name := c.value] else before
  }

  /** One visible field's complaint, if any, is put down under its name. */
  method CheckField(js: Js, field: Field, values: Context, opts: Provision, errors: map<string, Complaint>)
    returns (out: map<string, Complaint>)
    requires field.name.Str?
    ensures out == match FieldComplaint(js, field, Lookup(values, field.name.s), opts)
      case None => errors
      case Some(c) => errors[field.name.s := c]
  {
    var name := field.name.s;
    var value := Lookup(values, name);
    if field.required == Bool(true) && IsEmpty(value) {
      return errors[name := Complaint.Required];
    }
    out := errors;
    var message := TypeError(js, field, value);
    if message == None {
      message := ValidateRuleError(js, field.validate, value);
    }
    if message.Some? {
      out := out[name := message.value];
    }
    if ImmutableChanged(field, value, opts) {
      out := out[name := Complaint.Immutable];
    }
  }

  /** The table of errors: undeclared answers, and the visible fields' complaints. */
  function Errors(js: Js, cfg: Configuration, answers: Context, roleFlags: Context, opts: Provision)
    : map<string, Complaint>
  {
    AllVisibleAreNamed(js, cfg, answers, roleFlags);
    var p := Visibility(js, cfg, answers, roleFlags);
    Complaints(js, p.visible, p.values, opts, Undeclared(FieldsOf(cfg), answers))
  }

  method ValidateAnswers(js: Js, cfg: Configuration, answers: Context, roleFlags: Context, opts: Provision)
    returns (errors: map<string, Complaint>, values: Context, hidden: seq<string>)
    ensures var p := Visibility(js, cfg, answers, roleFlags);
      values == p.values && hidden == p.hidden
    ensures errors == Errors(js, cfg, answers, roleFlags, opts)
    ensures errors == map[] <==> Accepted(js, cfg, answers, roleFlags, opts)
    ensures EffectiveValues(FieldsOf(cfg), answers, values, hidden)
  {
    var declared := DeclaredNames(FieldsOf(cfg));
    errors := map k | k in answers && k !in declared :: NotDeclared;
    var visible;
    values, hidden, visible := ComputeVisibility(js, cfg, answers, roleFlags);
    AllVisibleAreNamed(js, cfg, answers, roleFlags);
    ghost var undeclared := errors;
    for i := 0 to |visible|
      invariant errors == Complaints(js, visible[..i], values, opts, undeclared)
    {
      assert Init(visible[..i + 1]) == visible[..i];
      errors := CheckField(js, visible[i], values, opts, errors);
    }
    assert visible[..|visible|] == visible;
    AcceptedExactly(js, cfg, answers, roleFlags, opts);
    EffectiveValuesOf(js, cfg, answers, roleFlags);
  }

  lemma AcceptedExactly(js: Js, cfg: Configuration, answers: Context, roleFlags: Context, opts: Provision)
    ensures Errors(js, cfg, answers, roleFlags, opts) == map[] <==> Accepted(js, cfg, answers, roleFlags, opts)
  {
    var p := Visibility(js, cfg, answers, roleFlags);
    AllVisibleAreNamed(js, cfg, answers, roleFlags);
    ComplaintsEmpty(js, p.visible, p.values, opts, Undeclared(FieldsOf(cfg), answers));
    UndeclaredEmpty(FieldsOf(cfg), answers);
  }

  /** No undeclared answer, and no complaint about a visible field. */
  ghost predicate Accepted(js: Js, cfg: Configuration, answers: Context, roleFlags: Context, opts: Provision) {
    var p := Visibility(js, cfg, answers, roleFlags);
    && answers.Keys <= DeclaredNames(FieldsOf(cfg))
    && forall f :: f in p.visible && f.name.Str? ==> FieldComplaint(js, f, Lookup(p.values, f.name.s), opts) == None
  }

  lemma UndeclaredEmpty(fields: seq<Item<Field>>, answers: Context)
    ensures Undeclared(fields, answers) == map[] <==> answers.Keys <= DeclaredNames(fields)
  {
    if Undeclared(fields, answers) == map[] {
      forall k | k in answers.Keys ensures k in DeclaredNames(fields) {
        assert k !in Undeclared(fields, answers);
      }
    }
  }

  lemma {:induction false} ComplaintsEmpty(
    js: Js, visible: seq<Field>, values: Context, opts: Provision, errors: map<string, Complaint>)
    requires forall f :: f in visible ==> f.name.Str?
    ensures Complaints(js, visible, values, opts, errors) == map[] <==>
      errors == map[] && forall f :: f in visible ==> FieldComplaint(js, f, Lookup(values, f.name.s), opts) == None
  {
    if |visible| > 0 {
      ComplaintsEmpty(js, Init(visible), values, opts, errors);
      assert visible == Init(visible) + [Last(visible)];
      var name := Last(visible).name.s;
      var before := Complaints(js, Init(visible), values, opts, errors);
      var c := FieldComplaint(js, Last(visible), Lookup(values, name), opts);
      assert c.Some? ==> name in before[name := c.value];
    }
  }

  lemma {:induction false} VisitsAreNamed(js: Js, gv: map<string, bool>, fields: seq<Item<Field>>, st: Pass)
    requires forall f :: f in st.visible ==> f.name.Str?
    ensures forall f :: f in Visits(js, gv, fields, st).visible ==> f.name.Str?
  {
    if |fields| > 0 {
      VisitsAreNamed(js, gv, Init(fields), st);
    }
  }

  lemma AllVisibleAreNamed(js: Js, cfg: Configuration, answers: Context, roleFlags: Context)
    ensures forall f :: f in Visibility(js, cfg, answers, roleFlags).visible ==> f.name.Str?
  {
    var ctx := roleFlags + Merged(cfg, answers);
    VisitsAreNamed(js, GroupResults(js, GroupsOf(cfg), ctx), FieldsOf(cfg), Pass(Merged(cfg, answers), ctx, [], []));
  }
}
