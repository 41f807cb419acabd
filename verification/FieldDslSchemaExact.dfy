/** The derived schema, keyword for keyword: what it lists as required, and that the validator demands no more. */
module FieldDslSchemaExact {
  import opened Wrappers
  import opened Strings
  import opened JsValue
  import opened FieldDsl
  import opened FieldDslLint
  import opened VisibilityTheorems
  import opened FieldDslSchema

  // ---- Properties and required ----

  /** Required, with no condition of its own and in no group that has one. */
  ghost predicate MustBePresent(groups: seq<Item<Group>>, field: Field) {
    field.required == Bool(true) && field.showIf == Undefined &&
    forall g :: 0 <= g < |groups| && groups[g].Map? && groups[g].def.name == field.group ==>
      groups[g].def.showIf == Undefined
  }

  /** The names are those of the fields at these places, which rise, and every field that must be present is there. */
  ghost predicate ListsPresent(groups: seq<Item<Group>>, fields: seq<Item<Field>>, names: seq<string>, at: seq<nat>) {
    && |at| == |names|
    && (forall a, b :: 0 <= a < b < |at| ==> at[a] < at[b])
    && (forall a :: 0 <= a < |at| ==> at[a] < |fields| && IsPresent(groups, fields[at[a]], names[a]))
    && (forall i :: 0 <= i < |fields| && fields[i].Map? && MustBePresent(groups, fields[i].def) ==> i in at)
  }

  ghost predicate IsPresent(groups: seq<Item<Group>>, item: Item<Field>, k: string) {
    item.Map? && item.def.name == Str(k) && MustBePresent(groups, item.def)
  }

  lemma OwnPropertiesInit(fields: seq<Item<Field>>)
    requires OwnProperties(fields) && |fields| > 0
    ensures OwnProperties(Init(fields)) && HasSchema(Last(fields))
  {
    assert HasSchema(fields[|fields| - 1]);
    forall i | 0 <= i < |fields| - 1
      ensures Init(fields)[i] == fields[i] && Init(fields)[..i] == fields[..i]
    {
    }
  }

  lemma PresentNext(
    groups: seq<Item<Group>>, before: seq<Item<Field>>, item: Item<Field>, names: seq<string>, at: seq<nat>)
    requires ListsPresent(groups, before, names, at) && Named(item)
    ensures MustBePresent(groups, item.def) ==>
      ListsPresent(groups, before + [item], names + [item.def.name.s], at + [|before|])
    ensures !MustBePresent(groups, item.def) ==> ListsPresent(groups, before + [item], names, at)
  {
  }

  lemma MustIsUnconditional(groups: seq<Item<Group>>, field: Field)
    ensures MustBePresent(groups, field) <==> field.required == Bool(true) && !IsConditional(groups, field)
  {
  }

  lemma {:induction false} RequiredArePresent(js: Js, groups: seq<Item<Group>>, fields: seq<Item<Field>>)
    returns (at: seq<nat>)
    requires OwnProperties(fields)
    ensures ListsPresent(groups, fields, DerivedFrom(js, groups, fields).required, at)
  {
    at := [];
    if |fields| > 0 {
      OwnPropertiesInit(fields);
      at := RequiredArePresent(js, groups, Init(fields));
      at := PresentToo(js, groups, fields, at);
    }
  }

  lemma PresentToo(js: Js, groups: seq<Item<Group>>, fields: seq<Item<Field>>, before: seq<nat>) returns (at: seq<nat>)
    requires |fields| > 0 && HasSchema(Last(fields))
    requires ListsPresent(groups, Init(fields), DerivedFrom(js, groups, Init(fields)).required, before)
    ensures ListsPresent(groups, fields, DerivedFrom(js, groups, fields).required, at)
  {
    RequiredNext(js, groups, fields);
    PresentNext(groups, Init(fields), Last(fields), DerivedFrom(js, groups, Init(fields)).required, before);
    assert fields == Init(fields) + [Last(fields)];
    at := if MustBePresent(groups, Last(fields).def) then before + [|fields| - 1] else before;
  }

  lemma RequiredNext(js: Js, groups: seq<Item<Group>>, fields: seq<Item<Field>>)
    requires |fields| > 0 && HasSchema(Last(fields))
    ensures var last, before := Last(fields), DerivedFrom(js, groups, Init(fields)).required;
      Named(last) && DerivedFrom(js, groups, fields).required ==
        if MustBePresent(groups, last.def) then before + [last.def.name.s] else before
  {
    MustIsUnconditional(groups, Last(fields).def);
    assert forall names: seq<string> :: names + [] == names;
  }

  /**
   For every lint-clean manifest the document has a property for each field and no other, and requires exactly the
   fields that are required, unconditional and in no conditional group, each once and in declaration order.
   */
  lemma RequiredExactly(js: Js, cfg: Configuration, roles: seq<Value>)
    requires LintClean(js, cfg, roles)
    ensures var doc, fields := DerivedFrom(js, GroupsOf(cfg), FieldsOf(cfg)), FieldsOf(cfg);
      doc.properties.Keys == NamesOf(fields) &&
      (exists at :: ListsPresent(GroupsOf(cfg), fields, doc.required, at)) &&
      forall a, b :: 0 <= a < b < |doc.required| ==> doc.required[a] != doc.required[b]
  {
    var fields, groups := FieldsOf(cfg), GroupsOf(cfg);
    var doc := DerivedFrom(js, groups, fields);
    CleanFieldsOwnProperties(js, fields, RoleOperands(roles), GroupNames(groups));
    var at := RequiredArePresent(js, groups, fields);
    NamesOnce(groups, fields, doc.required, at);
    PropertiesAreFields(js, groups, fields);
    assert fields[..|fields|] == fields;
    forall k | k in NamesOf(fields) ensures k in doc.properties {
      var i := EarlierName(fields, |fields|, k);
      PropertyAt(js, groups, fields, i, |fields|);
    }
  }

  lemma NamesOnce(groups: seq<Item<Group>>, fields: seq<Item<Field>>, names: seq<string>, at: seq<nat>)
    requires OwnProperties(fields) && ListsPresent(groups, fields, names, at)
    ensures forall a, b :: 0 <= a < b < |names| ==> names[a] != names[b]
  {
    forall a, b | 0 <= a < b < |names| ensures names[a] != names[b] {
      assert IsPresent(groups, fields[at[a]], names[a]) && IsPresent(groups, fields[at[b]], names[b]);
      LaterNameDiffers(fields, at[a], at[b]);
    }
  }

  // ---- Keywords ----

  /** The annotations: the default, a password's writeOnly, and a format for names and addresses. */
  lemma Annotations(js: Js, field: Field)
    ensures var s := FieldSchema(js, field);
      s.default == field.default &&
      (s.writeOnly <==> field.ftype == Str("password")) &&
      (s.format == Some("hostname") <==> field.ftype == Str("fqdn")) &&
      (s.format == Some("ipv6") <==> field.ftype == Str("ipaddr") && ToNumber(js, field.version) == Finite(6.0)) &&
      (s.format == Some("ipv4") <==> field.ftype == Str("ipaddr") && ToNumber(js, field.version) != Finite(6.0)) &&
      (s.format == None <==> field.ftype != Str("fqdn") && field.ftype != Str("ipaddr"))
  {
  }

  // ---- The validator demands no more than the schema but this ----

  predicate CidrParts(js: Js, value: string, address: string, prefix: string, bits: int) {
    '/' !in address && '/' !in prefix && value == address + ("/" + prefix) &&
    js.parse(prefix) == Finite(bits as real) && js.ipVersion(address) != 0 &&
    0 <= bits <= if js.ipVersion(address) == 6 then 128 else 32
  }

  /** An address, a slash and a prefix length that the address has room for. */
  ghost predicate WrittenCidr(js: Js, value: string) {
    exists address, prefix, bits :: CidrParts(js, value, address, prefix, bits)
  }

  /** What the validator asks of a value beside the schema of its field. */
  ghost predicate FitsBeside(js: Js, field: Field, value: Value) {
    if field.ftype == Str("select") then value.Str? || value.Num?
    else if field.ftype == Str("multiselect") then
      value.List? && (field.options.List? ==> forall e :: e in value.items ==> !e.List? && !e.Obj?)
    else if field.ftype == Str("fqdn") then value.Str? && js.isFqdn(value.s)
    else if field.ftype == Str("ipaddr") then
      value.Str? && js.ipVersion(value.s) != 0 &&
      (field.version != Undefined ==> ToNumber(js, field.version) == Finite(js.ipVersion(value.s) as real))
    else if field.ftype == Str("cidr") then value.Str? && WrittenCidr(js, value.s)
    else true
  }

  lemma CidrIsWritten(js: Js, value: string)
    ensures IsCidr(js, value) <==> WrittenCidr(js, value)
  {
    if IsCidr(js, value) {
      var pieces := Split(value, '/');
      PiecesAreSolid(value, '/');
      JoinSplit(value, '/');
      assert |pieces| == 2 && pieces[0] in pieces && pieces[1] in pieces;
      assert pieces[1..] == [pieces[1]];
      assert value == pieces[0] + ("/" + pieces[1]);
      assert CidrParts(js, value, pieces[0], pieces[1], js.parse(pieces[1]).r.Floor);
    }
    if address, prefix, bits :| CidrParts(js, value, address, prefix, bits) {
      SplitPiece(address, prefix, '/');
      SplitSolid(prefix, '/');
      assert value == address + ['/'] + prefix;
      assert (bits as real).Floor == bits;
    }
  }

  lemma {:induction false} AllLegal(items: seq<Value>, legal: seq<Value>)
    requires Undefined !in items && forall i :: 0 <= i < |items| ==> items[i] in legal
    ensures FirstIllegal(items, legal) == Undefined <==> forall e :: e in items ==> !e.List? && !e.Obj?
  {
    if |items| > 0 {
      AllLegal(items[1..], legal);
      assert items == [items[0]] + items[1..] && items[0] in legal;
      assert Includes(legal, items[0]) <==> !items[0].List? && !items[0].Obj? by {
        var i :| 0 <= i < |legal| && legal[i] == items[0];
      }
    }
  }

  lemma SatisfyingTypeFits(js: Js, field: Field, value: Value)
    requires js.Lawful() && LegalType(field.ftype) && LegalSelectKeys(field) && LegalScalarKeys(js, field)
    requires !IsEmpty(value) && NoHoles(value) && Satisfies(js, FieldSchema(js, field), value)
    requires value.Num? ==> value.n.Finite?
    ensures TypeError(js, field, value) == None <==> FitsBeside(js, field, value)
  {
    if field.ftype == Str("multiselect") && field.options.List? {
      var legal := OptionValues(field.options.items);
      assert forall i :: 0 <= i < |value.items| ==> value.items[i] in legal;
      AllLegal(value.items, legal);
    } else if field.ftype == Str("select") && field.options.List? {
      var legal := OptionValues(field.options.items);
      var i :| 0 <= i < |legal| && legal[i] == value;
    } else if field.ftype == Str("cidr") {
      CidrIsWritten(js, value.s);
    }
  }

  lemma SatisfyingRulesHold(js: Js, field: Field, value: Value)
    requires LegalType(field.ftype) && LegalValidate(js, field) && WellFormed(FieldSchema(js, field))
    requires Satisfies(js, FieldSchema(js, field), value)
    ensures ValidateRuleError(js, field.validate, value) == None
  {
    FieldSchemaWellFormed(js, field);
  }

  /**
   The converse of `AcceptedAnswerFitsSchema`: a non-empty JSON value that satisfies the field's schema is accepted
   exactly when it fits beside it, which only options that are no scalars, and names, addresses and prefixes, ask
   anything for.
   */
  lemma SatisfyingAnswerIsAccepted(js: Js, field: Field, value: Value)
    requires js.Lawful() && LegalType(field.ftype)
    requires LegalSelectKeys(field) && LegalScalarKeys(js, field) && LegalValidate(js, field)
    requires WellFormed(FieldSchema(js, field)) && !IsEmpty(value) && NoHoles(value) && (value.Num? ==> value.n.Finite?)
    requires Satisfies(js, FieldSchema(js, field), value)
    ensures ValidateRuleError(js, field.validate, value) == None
    ensures TypeError(js, field, value) == None <==> FitsBeside(js, field, value)
  {
    SatisfyingTypeFits(js, field, value);
    SatisfyingRulesHold(js, field, value);
  }
}
