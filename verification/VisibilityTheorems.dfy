/** What lint guarantees about the one-pass visibility computation. */
module VisibilityTheorems {
  import opened Strings
  import opened JsValue
  import opened FieldDsl
  import opened FieldDslLint

  // ---- Conditions read their operands only ----

  ghost predicate Agree(a: Context, b: Context, operands: set<string>) {
    forall k :: k in operands ==> Lookup(a, k) == Lookup(b, k)
  }

  lemma {:induction false} ShowIfReadsOperands(js: Js, showIf: Value, operands: set<string>, a: Context, b: Context)
    requires LegalShowIf(showIf, operands) && Agree(a, b, operands)
    ensures EvalShowIf(js, showIf, a) == EvalShowIf(js, showIf, b)
    decreases showIf
  {
    if "any" in showIf.props {
      var maps := showIf.props["any"];
      assert LegalAny(maps, operands);
      forall i | 0 <= i < |maps.items|
        ensures EvalShowIf(js, maps.items[i], a) == EvalShowIf(js, maps.items[i], b)
      {
        ShowIfReadsOperands(js, maps.items[i], operands, a, b);
      }
    }
    forall key | key in showIf.props && key != "any"
      ensures EvalCondition(js, Lookup(a, key), showIf.props[key]) ==
        EvalCondition(js, Lookup(b, key), showIf.props[key])
    {
      assert key in operands;
    }
  }

  // ---- The shape lint leaves the fields in ----

  ghost predicate Scoped(fields: seq<Item<Field>>, operands: set<string>) {
    forall i {:trigger fields[i]} :: 0 <= i < |fields| ==>
      && Named(fields[i])
      && Name(fields, i) !in NamesOf(fields[..i])
      && (fields[i].def.showIf != Undefined ==>
            LegalShowIf(fields[i].def.showIf, operands + NamesOf(fields[..i])))
  }

  ghost function Name(fields: seq<Item<Field>>, i: nat): string
    requires i < |fields|
  {
    if Named(fields[i]) then fields[i].def.name.s else ""
  }

  lemma CleanIsScoped(js: Js, cfg: Configuration, roles: seq<Value>)
    requires LintClean(js, cfg, roles)
    ensures Scoped(FieldsOf(cfg), RoleOperands(roles))
  {
    var fields := FieldsOf(cfg);
    forall i | 0 <= i < |fields|
      ensures Named(fields[i]) && Name(fields, i) !in NamesOf(fields[..i])
      ensures fields[i].def.showIf != Undefined ==>
                LegalShowIf(fields[i].def.showIf, RoleOperands(roles) + NamesOf(fields[..i]))
    {
      LegalFieldAt(js, fields, RoleOperands(roles), GroupNames(GroupsOf(cfg)), i);
    }
  }

  /** The role flags that no field is named like. */
  function FreeFlags(cfg: Configuration, roles: seq<Value>): set<string> {
    RoleOperands(roles) - NamesOf(FieldsOf(cfg))
  }

  /** No condition reads a role flag that is also the name of its own field or of a later one. */
  ghost predicate ReadsBack(cfg: Configuration, roles: seq<Value>) {
    forall i {:trigger FieldsOf(cfg)[i]} :: 0 <= i < |FieldsOf(cfg)| && Named(FieldsOf(cfg)[i]) ==>
      FieldsOf(cfg)[i].def.showIf != Undefined ==>
        LegalShowIf(FieldsOf(cfg)[i].def.showIf, FreeFlags(cfg, roles) + NamesOf(FieldsOf(cfg)[..i]))
  }

  /** So it is in particular when no field is named like a role flag. */
  lemma NoFlagNamesReadsBack(js: Js, cfg: Configuration, roles: seq<Value>)
    requires LintClean(js, cfg, roles) && RoleOperands(roles) !! NamesOf(FieldsOf(cfg))
    ensures ReadsBack(cfg, roles) && FreeFlags(cfg, roles) == RoleOperands(roles)
  {
    var fields, flags := FieldsOf(cfg), RoleOperands(roles);
    CleanIsScoped(js, cfg, roles);
    assert FreeFlags(cfg, roles) == flags;
    forall i | 0 <= i < |fields| && fields[i].def.showIf != Undefined
      ensures LegalShowIf(fields[i].def.showIf, flags + NamesOf(fields[..i]))
    {
      assert Named(fields[i]);
    }
  }

  lemma CleanReadsBack(js: Js, cfg: Configuration, roles: seq<Value>)
    requires LintClean(js, cfg, roles) && ReadsBack(cfg, roles)
    ensures Scoped(FieldsOf(cfg), FreeFlags(cfg, roles)) && FreeFlags(cfg, roles) !! NamesOf(FieldsOf(cfg))
  {
    CleanIsScoped(js, cfg, roles);
  }

  lemma SeenGrows(fields: seq<Item<Field>>, i: nat)
    requires i < |fields|
    ensures NamesOf(fields[..i + 1]) ==
      NamesOf(fields[..i]) + if Named(fields[i]) then {fields[i].def.name.s} else {}
  {
    assert Init(fields[..i + 1]) == fields[..i];
  }

  lemma {:induction false} EarlierName(fields: seq<Item<Field>>, i: nat, k: string) returns (j: nat)
    requires i <= |fields| && k in NamesOf(fields[..i])
    ensures j < i && Named(fields[j]) && fields[j].def.name.s == k
  {
    SeenGrows(fields, i - 1);
    if Named(fields[i - 1]) && fields[i - 1].def.name.s == k {
      j := i - 1;
    } else {
      j := EarlierName(fields, i - 1, k);
    }
  }

  lemma {:induction false} NameIsEarlier(fields: seq<Item<Field>>, i: nat, j: nat)
    requires j < i <= |fields| && Named(fields[j])
    ensures Name(fields, j) in NamesOf(fields[..i]) && Name(fields, j) in NamesOf(fields)
    decreases |fields| - j, i
  {
    SeenGrows(fields, i - 1);
    if j < i - 1 {
      NameIsEarlier(fields, i - 1, j);
    } else if i < |fields| {
      NamesOnlyGrow(fields, i, |fields|);
    }
    assert fields[..|fields|] == fields;
  }

  lemma {:induction false} NamesOnlyGrow(fields: seq<Item<Field>>, i: nat, n: nat)
    requires i <= n <= |fields|
    ensures NamesOf(fields[..i]) <= NamesOf(fields[..n])
  {
    if i < n {
      NamesOnlyGrow(fields, i, n - 1);
      SeenGrows(fields, n - 1);
    }
  }

  // ---- The pass, one field at a time ----

  datatype Form = Form(js: Js, fields: seq<Item<Field>>, gv: map<string, bool>, values: Context, base: Context)

  ghost function After(form: Form, i: nat): Pass
    requires i <= |form.fields|
  {
    Visits(form.js, form.gv, form.fields[..i], Pass(form.values, form.base, [], []))
  }

  lemma AfterNext(form: Form, i: nat)
    requires i < |form.fields|
    ensures After(form, i + 1) == Visit(form.js, form.gv, form.fields[i], After(form, i))
  {
    assert Init(form.fields[..i + 1]) == form.fields[..i];
  }

  ghost function Hides(form: Form, i: nat): bool
    requires i < |form.fields|
  {
    Named(form.fields[i]) && !Shows(form.js, form.fields[i].def, form.gv, After(form, i).ctx)
  }

  ghost function SetOf(names: seq<string>): set<string> {
    set k | k in names
  }

  lemma {:induction false} PassOnlySubtracts(form: Form, i: nat)
    requires i <= |form.fields|
    ensures After(form, i).ctx == form.base - SetOf(After(form, i).hidden)
    ensures After(form, i).values == form.values - SetOf(After(form, i).hidden)
  {
    if i > 0 {
      PassOnlySubtracts(form, i - 1);
      AfterNext(form, i - 1);
      var p, q := After(form, i - 1), After(form, i);
      if p.hidden != q.hidden {
        assert SetOf(q.hidden) == SetOf(p.hidden) + {form.fields[i - 1].def.name.s};
      }
    }
  }

  lemma {:induction false} HiddenAreEarlier(form: Form, operands: set<string>, i: nat)
    requires Scoped(form.fields, operands) && i <= |form.fields|
    ensures SetOf(After(form, i).hidden) <= NamesOf(form.fields[..i])
  {
    if i > 0 {
      HiddenAreEarlier(form, operands, i - 1);
      AfterNext(form, i - 1);
      SeenGrows(form.fields, i - 1);
    }
  }

  lemma VisitHides(form: Form, n: nat)
    requires n < |form.fields| && Named(form.fields[n])
    ensures After(form, n + 1).hidden == After(form, n).hidden + if Hides(form, n) then [Name(form.fields, n)] else []
  {
    AfterNext(form, n);
  }

  lemma DistinctNames(fields: seq<Item<Field>>, operands: set<string>, n: nat, j: nat)
    requires Scoped(fields, operands) && j < n < |fields|
    ensures Name(fields, j) != Name(fields, n)
  {
    assert Named(fields[j]) && Named(fields[n]);
    NameIsEarlier(fields, n, j);
  }

  /** Lists that each put one more name at the end, or do not. */
  ghost predicate Recording(names: seq<string>, put: seq<bool>, lists: seq<seq<string>>) {
    |put| == |names| && |lists| == |names| + 1 && lists[0] == [] &&
    forall n :: 0 <= n < |names| ==> lists[n + 1] == if put[n] then lists[n] + [names[n]] else lists[n]
  }

  lemma {:induction false} RecordedIsEarlier(
    names: seq<string>, put: seq<bool>, lists: seq<seq<string>>, i: nat, k: string)
    requires Recording(names, put, lists) && i <= |names| && k in lists[i]
    ensures exists m :: 0 <= m < i && names[m] == k
  {
    if k in lists[i - 1] {
      RecordedIsEarlier(names, put, lists, i - 1, k);
    } else {
      assert names[i - 1] == k;
    }
  }

  /** With distinct names, a list holds exactly the names put. */
  lemma {:induction false} RecordedIsPut(names: seq<string>, put: seq<bool>, lists: seq<seq<string>>, i: nat, j: nat)
    requires Recording(names, put, lists) && j < i <= |names|
    requires forall m, n :: 0 <= m < n < |names| ==> names[m] != names[n]
    ensures names[j] in lists[i] <==> put[j]
  {
    if j < i - 1 {
      RecordedIsPut(names, put, lists, i - 1, j);
    } else if names[j] in lists[j] {
      RecordedIsEarlier(names, put, lists, j, names[j]);
    }
  }

  ghost function AllNames(form: Form): (names: seq<string>)
    ensures |names| == |form.fields| && forall n :: 0 <= n < |names| ==> names[n] == Name(form.fields, n)
  {
    seq(|form.fields|, n requires 0 <= n < |form.fields| => Name(form.fields, n))
  }

  ghost function AllHides(form: Form): (hides: seq<bool>)
    ensures |hides| == |form.fields| && forall n :: 0 <= n < |hides| ==> hides[n] == Hides(form, n)
  {
    seq(|form.fields|, n requires 0 <= n < |form.fields| => Hides(form, n))
  }

  ghost function AllHidden(form: Form): (lists: seq<seq<string>>)
    ensures |lists| == |form.fields| + 1 && forall n :: 0 <= n < |lists| ==> lists[n] == After(form, n).hidden
  {
    seq(|form.fields| + 1, n requires 0 <= n <= |form.fields| => After(form, n).hidden)
  }

  lemma HiddenIsRecorded(form: Form, operands: set<string>)
    requires Scoped(form.fields, operands)
    ensures Recording(AllNames(form), AllHides(form), AllHidden(form))
  {
    var names, hides, lists := AllNames(form), AllHides(form), AllHidden(form);
    assert lists[0] == After(form, 0).hidden == [];
    forall n | 0 <= n < |names| ensures lists[n + 1] == if hides[n] then lists[n] + [names[n]] else lists[n] {
      assert Named(form.fields[n]);
      VisitHides(form, n);
    }
  }

  lemma NamesDiffer(form: Form, operands: set<string>)
    requires Scoped(form.fields, operands)
    ensures forall m, n :: 0 <= m < n < |AllNames(form)| ==> AllNames(form)[m] != AllNames(form)[n]
  {
    forall m, n | 0 <= m < n < |form.fields| ensures AllNames(form)[m] != AllNames(form)[n] {
      DistinctNames(form.fields, operands, n, m);
    }
  }

  lemma HiddenAt(form: Form, operands: set<string>, i: nat, j: nat)
    requires Scoped(form.fields, operands) && j < i <= |form.fields|
    ensures Name(form.fields, j) in After(form, i).hidden <==> Hides(form, j)
  {
    HiddenIsRecorded(form, operands);
    NamesDiffer(form, operands);
    RecordedIsPut(AllNames(form), AllHides(form), AllHidden(form), i, j);
  }

  /** After i fields, exactly the ones found hiding are hidden. */
  lemma HiddenSoFar(form: Form, operands: set<string>, i: nat)
    requires Scoped(form.fields, operands) && i <= |form.fields|
    ensures forall j :: 0 <= j < i ==> (Name(form.fields, j) in After(form, i).hidden <==> Hides(form, j))
    ensures SetOf(After(form, i).hidden) <= NamesOf(form.fields[..i])
  {
    HiddenAreEarlier(form, operands, i);
    forall j | 0 <= j < i ensures Name(form.fields, j) in After(form, i).hidden <==> Hides(form, j) {
      HiddenAt(form, operands, i, j);
    }
  }

  /** After i fields, the visible list names exactly the fields not hidden. */
  lemma {:induction false} VisibleSoFar(form: Form, operands: set<string>, i: nat)
    requires Scoped(form.fields, operands) && i <= |form.fields|
    ensures VisibleNames(After(form, i)) == NamesOf(form.fields[..i]) - SetOf(After(form, i).hidden)
  {
    if i > 0 {
      var n := i - 1;
      VisibleSoFar(form, operands, n);
      HiddenSoFar(form, operands, n);
      AfterNext(form, n);
      SeenGrows(form.fields, n);
      var p, q, def := After(form, n), After(form, i), form.fields[n].def;
      assert Named(form.fields[n]) && Name(form.fields, n) !in NamesOf(form.fields[..n]);
      if Hides(form, n) {
        assert SetOf(q.hidden) == SetOf(p.hidden) + {def.name.s};
      } else {
        forall k ensures k in VisibleNames(q) <==> k in VisibleNames(p) + {def.name.s} {
          if k in VisibleNames(p) {
            var f :| f in p.visible && f.name == Str(k);
            assert f in q.visible;
          }
          if k == def.name.s {
            assert def in q.visible;
          }
        }
      }
    }
  }

  /** The names of the fields `computeVisibility` returns as visible. */
  ghost function VisibleNames(p: Pass): set<string> {
    set f | f in p.visible && f.name.Str? :: f.name.s
  }

  /** The answer of the pass, as the set of names that show. */
  ghost function Visible(form: Form): set<string> {
    NamesOf(form.fields) - SetOf(After(form, |form.fields|).hidden)
  }

  lemma VisibleByIndex(form: Form, operands: set<string>, i: nat)
    requires Scoped(form.fields, operands) && i < |form.fields|
    ensures Name(form.fields, i) in Visible(form) <==> !Hides(form, i)
  {
    HiddenSoFar(form, operands, |form.fields|);
    assert form.fields[..|form.fields|] == form.fields;
    NameIsEarlier(form.fields, |form.fields|, i);
  }

  // ---- The only self-consistent answer ----

  /** The context in which exactly the fields of V are present. */
  ghost function ContextOf(form: Form, V: set<string>): Context {
    map k | k in form.base && (k in NamesOf(form.fields) ==> k in V) :: form.base[k]
  }

  /** V is self-consistent: a field is in V exactly when its group shows and its condition holds where V is present. */
  ghost predicate Consistent(form: Form, V: set<string>) {
    && V <= NamesOf(form.fields)
    && forall i :: 0 <= i < |form.fields| && Named(form.fields[i]) ==>
         (Name(form.fields, i) in V <==> Shows(form.js, form.fields[i].def, form.gv, ContextOf(form, V)))
  }

  lemma ShowsReadsOperands(js: Js, field: Field, gv: map<string, bool>, operands: set<string>, a: Context, b: Context)
    requires field.showIf != Undefined ==> LegalShowIf(field.showIf, operands)
    requires Agree(a, b, operands)
    ensures Shows(js, field, gv, a) == Shows(js, field, gv, b)
  {
    if Truthy(field.showIf) {
      ShowIfReadsOperands(js, field.showIf, operands, a, b);
    }
  }

  /** The context the pass has reached at field i shows what V shows, as far as field i may look. */
  lemma PassContextIsVisible(form: Form, operands: set<string>, i: nat)
    requires Scoped(form.fields, operands) && operands !! NamesOf(form.fields) && i < |form.fields|
    ensures Agree(After(form, i).ctx, ContextOf(form, Visible(form)), operands + NamesOf(form.fields[..i]))
  {
    HiddenSoFar(form, operands, i);
    PassOnlySubtracts(form, i);
    forall k | k in operands + NamesOf(form.fields[..i])
      ensures Lookup(After(form, i).ctx, k) == Lookup(ContextOf(form, Visible(form)), k)
    {
      if k in NamesOf(form.fields[..i]) {
        var j := EarlierName(form.fields, i, k);
        VisibleByIndex(form, operands, j);
        NameIsEarlier(form.fields, i, j);
        assert k in SetOf(After(form, i).hidden) <==> Hides(form, j);
      } else {
        PrefixNames(form.fields, i);
      }
    }
  }

  lemma PrefixNames(fields: seq<Item<Field>>, i: nat)
    requires i <= |fields|
    ensures NamesOf(fields[..i]) <= NamesOf(fields)
  {
    NamesOnlyGrow(fields, i, |fields|);
    assert fields[..|fields|] == fields;
  }

  lemma PassIsConsistent(form: Form, operands: set<string>)
    requires Scoped(form.fields, operands) && operands !! NamesOf(form.fields)
    ensures Consistent(form, Visible(form))
  {
    var V := Visible(form);
    forall i | 0 <= i < |form.fields|
      ensures Name(form.fields, i) in V <==> Shows(form.js, form.fields[i].def, form.gv, ContextOf(form, V))
    {
      VisibleByIndex(form, operands, i);
      PassContextIsVisible(form, operands, i);
      ShowsReadsOperands(form.js, form.fields[i].def, form.gv, operands + NamesOf(form.fields[..i]),
                         After(form, i).ctx, ContextOf(form, V));
    }
  }

  ghost predicate SameBelow(fields: seq<Item<Field>>, V: set<string>, W: set<string>, n: nat)
    requires n <= |fields|
  {
    forall j :: 0 <= j < n ==> (Name(fields, j) in V <==> Name(fields, j) in W)
  }

  lemma SameBelowSameContext(form: Form, operands: set<string>, V: set<string>, W: set<string>, n: nat)
    requires Scoped(form.fields, operands) && operands !! NamesOf(form.fields) && n <= |form.fields|
    requires SameBelow(form.fields, V, W, n)
    ensures Agree(ContextOf(form, V), ContextOf(form, W), operands + NamesOf(form.fields[..n]))
  {
    forall k | k in operands + NamesOf(form.fields[..n])
      ensures Lookup(ContextOf(form, V), k) == Lookup(ContextOf(form, W), k)
    {
      if k in NamesOf(form.fields[..n]) {
        var j := EarlierName(form.fields, n, k);
        assert Name(form.fields, j) == k;
      }
    }
  }

  lemma ConsistentNext(form: Form, operands: set<string>, V: set<string>, W: set<string>, n: nat)
    requires Scoped(form.fields, operands) && operands !! NamesOf(form.fields) && n < |form.fields|
    requires Consistent(form, V) && Consistent(form, W) && SameBelow(form.fields, V, W, n)
    ensures Name(form.fields, n) in V <==> Name(form.fields, n) in W
  {
    assert Named(form.fields[n]);
    var field := form.fields[n].def;
    assert Shows(form.js, field, form.gv, ContextOf(form, V)) == Shows(form.js, field, form.gv, ContextOf(form, W)) by {
      SameBelowSameContext(form, operands, V, W, n);
      ShowsReadsOperands(
        form.js, field, form.gv, operands + NamesOf(form.fields[..n]), ContextOf(form, V), ContextOf(form, W));
    }
  }

  lemma {:induction false} ConsistentAgree(form: Form, operands: set<string>, V: set<string>, W: set<string>, n: nat)
    requires Scoped(form.fields, operands) && operands !! NamesOf(form.fields) && n < |form.fields|
    requires Consistent(form, V) && Consistent(form, W)
    ensures Name(form.fields, n) in V <==> Name(form.fields, n) in W
  {
    assert SameBelow(form.fields, V, W, n) by {
      forall j | 0 <= j < n ensures Name(form.fields, j) in V <==> Name(form.fields, j) in W {
        ConsistentAgree(form, operands, V, W, j);
      }
    }
    ConsistentNext(form, operands, V, W, n);
  }

  ghost function FormOf(js: Js, cfg: Configuration, answers: Context, roleFlags: Context): Form {
    var base := roleFlags + Merged(cfg, answers);
    Form(js, FieldsOf(cfg), GroupResults(js, GroupsOf(cfg), base), Merged(cfg, answers), base)
  }

  lemma PassOfForm(js: Js, cfg: Configuration, answers: Context, roleFlags: Context, operands: set<string>)
    requires Scoped(FieldsOf(cfg), operands)
    ensures var form := FormOf(js, cfg, answers, roleFlags);
      && Visibility(js, cfg, answers, roleFlags) == After(form, |form.fields|)
      && VisibleNames(Visibility(js, cfg, answers, roleFlags)) == Visible(form)
  {
    var form := FormOf(js, cfg, answers, roleFlags);
    assert form.fields[..|form.fields|] == form.fields;
    VisibleSoFar(form, operands, |form.fields|);
  }

  /**
   For a lint-clean manifest no condition of which reads a flag named like its own or a later field, the single pass in
   declaration order finds the one and only self-consistent visible set.
   */
  lemma OnePassFindsTheOnlyConsistentSet(
    js: Js, cfg: Configuration, roles: seq<Value>, answers: Context, roleFlags: Context)
    requires LintClean(js, cfg, roles) && ReadsBack(cfg, roles)
    ensures var form := FormOf(js, cfg, answers, roleFlags);
      forall V :: Consistent(form, V) <==> V == VisibleNames(Visibility(js, cfg, answers, roleFlags))
  {
    var form, operands := FormOf(js, cfg, answers, roleFlags), FreeFlags(cfg, roles);
    CleanReadsBack(js, cfg, roles);
    PassOfForm(js, cfg, answers, roleFlags, operands);
    PassIsConsistent(form, operands);
    var W := Visible(form);
    forall V | Consistent(form, V) ensures V == W {
      forall k | k in NamesOf(form.fields) ensures k in V <==> k in W {
        assert form.fields[..|form.fields|] == form.fields;
        var j := EarlierName(form.fields, |form.fields|, k);
        ConsistentAgree(form, operands, V, W, j);
      }
    }
  }

  /** With no name shared at all, the context of V is the role flags and the effective values of V's fields. */
  lemma ContextIsFlagsAndVisibleValues(js: Js, cfg: Configuration, answers: Context, roleFlags: Context, V: set<string>)
    requires roleFlags.Keys !! NamesOf(FieldsOf(cfg)) && answers.Keys <= NamesOf(FieldsOf(cfg))
    ensures ContextOf(FormOf(js, cfg, answers, roleFlags), V)
         == roleFlags + map k | k in Merged(cfg, answers) && k in V :: Merged(cfg, answers)[k]
  {
    DefaultsAreNamed(FieldsOf(cfg));
  }

  lemma {:induction false} DefaultsAreNamed(fields: seq<Item<Field>>)
    ensures Defaults(fields).Keys <= NamesOf(fields)
  {
    if |fields| > 0 {
      DefaultsAreNamed(Init(fields));
      SeenGrows(fields, |fields| - 1);
      assert fields[..|fields|] == fields;
    }
  }

  /** Both passes make the same choice at each of the first n fields. */
  ghost predicate SameChoices(f: Form, g: Form, n: nat)
    requires n <= |f.fields| && n <= |g.fields|
  {
    forall j :: 0 <= j < n ==> Hides(f, j) == Hides(g, j)
  }

  lemma SameChoicesNext(f: Form, g: Form, n: nat)
    requires n < |f.fields| && n < |g.fields| && SameChoices(f, g, n) && Hides(f, n) == Hides(g, n)
    ensures SameChoices(f, g, n + 1)
  {
  }

  /** Two forms of the same fields. */
  ghost predicate Siblings(f: Form, g: Form, operands: set<string>) {
    && f.js == g.js && f.fields == g.fields
    && Scoped(f.fields, operands) && operands !! NamesOf(f.fields)
  }

  /** And with the same group results. */
  ghost predicate Twins(f: Form, g: Form, operands: set<string>) {
    Siblings(f, g, operands) && f.gv == g.gv
  }

  /** Two passes that have hidden the same fields so far, from bases alike on what is in scope, are in like contexts. */
  lemma SameHiddenSameContext(f: Form, g: Form, operands: set<string>, m: nat)
    requires Siblings(f, g, operands) && m <= |f.fields| && SameChoices(f, g, m)
    requires forall k :: k in operands + NamesOf(f.fields[..m]) && k !in SetOf(After(f, m).hidden) ==>
               Lookup(f.base, k) == Lookup(g.base, k)
    ensures Agree(After(f, m).ctx, After(g, m).ctx, operands + NamesOf(f.fields[..m]))
  {
    HiddenSoFar(f, operands, m);
    HiddenSoFar(g, operands, m);
    PassOnlySubtracts(f, m);
    PassOnlySubtracts(g, m);
    PrefixNames(f.fields, m);
    forall k | k in operands + NamesOf(f.fields[..m])
      ensures Lookup(After(f, m).ctx, k) == Lookup(After(g, m).ctx, k)
    {
      if k in NamesOf(f.fields[..m]) {
        var j := EarlierName(f.fields, m, k);
        assert Name(f.fields, j) == k;
        assert k in SetOf(After(f, m).hidden) <==> Hides(f, j);
        assert k in SetOf(After(g, m).hidden) <==> Hides(g, j);
      }
    }
  }

  lemma SameContextSameChoice(f: Form, g: Form, operands: set<string>, m: nat)
    requires Twins(f, g, operands) && m < |f.fields|
    requires Agree(After(f, m).ctx, After(g, m).ctx, operands + NamesOf(f.fields[..m]))
    ensures Hides(f, m) == Hides(g, m)
  {
    assert Named(f.fields[m]);
    ShowsReadsOperands(
      f.js, f.fields[m].def, f.gv, operands + NamesOf(f.fields[..m]), After(f, m).ctx, After(g, m).ctx);
  }

  lemma AgreeOnFewer(f: Form, g: Form, operands: set<string>, m: nat, i: nat)
    requires m <= i <= |f.fields| && Agree(f.base, g.base, operands + NamesOf(f.fields[..i]))
    ensures Agree(f.base, g.base, operands + NamesOf(f.fields[..m]))
  {
    NamesOnlyGrow(f.fields, m, i);
  }

  lemma AgreeingBasesNextChoice(f: Form, g: Form, operands: set<string>, m: nat)
    requires Twins(f, g, operands) && m < |f.fields| && SameChoices(f, g, m)
    requires Agree(f.base, g.base, operands + NamesOf(f.fields[..m]))
    ensures Hides(f, m) == Hides(g, m)
  {
    SameHiddenSameContext(f, g, operands, m);
    SameContextSameChoice(f, g, operands, m);
  }

  lemma {:induction false} EarlierFieldsAgree(f: Form, g: Form, operands: set<string>, i: nat, n: nat)
    requires Twins(f, g, operands) && n <= i + 1 && i < |f.fields|
    requires Agree(f.base, g.base, operands + NamesOf(f.fields[..i]))
    ensures SameChoices(f, g, n)
  {
    if n > 0 {
      EarlierFieldsAgree(f, g, operands, i, n - 1);
      AgreeOnFewer(f, g, operands, n - 1, i);
      AgreeingBasesNextChoice(f, g, operands, n - 1);
      SameChoicesNext(f, g, n - 1);
    }
  }

  /** A name of a suffix of the fields is that of one of them. */
  lemma NameOfSuffix(fields: seq<Item<Field>>, i: nat, k: string) returns (m: nat)
    requires i <= |fields| && k in NamesOf(fields[i..])
    ensures i <= m < |fields| && Named(fields[m]) && Name(fields, m) == k
  {
    var rest := fields[i..];
    assert rest[..|rest|] == rest;
    var x := EarlierName(rest, |rest|, k);
    m := i + x;
    assert fields[m] == rest[x];
  }

  lemma LaterNamesAreNew(fields: seq<Item<Field>>, operands: set<string>, i: nat, k: string)
    requires Scoped(fields, operands) && i <= |fields| && k in NamesOf(fields[i..])
    ensures k in NamesOf(fields) && k !in NamesOf(fields[..i])
  {
    var m := NameOfSuffix(fields, i, k);
    NameIsEarlier(fields, |fields|, m);
    NamesOnlyGrow(fields, i, m);
    assert Name(fields, m) !in NamesOf(fields[..m]);
  }

  /** The two answer maps differ only in answers to field i and the fields after it. */
  ghost predicate DifferOnlyFrom(fields: seq<Item<Field>>, answers: Context, answers': Context, i: nat)
    requires i <= |fields|
  {
    forall k :: k !in NamesOf(fields[i..]) ==>
      Lookup(answers, k) == Lookup(answers', k) && (k in answers <==> k in answers')
  }

  lemma BasesAgreeInScope(
    js: Js, cfg: Configuration, answers: Context, answers': Context, roleFlags: Context, operands: set<string>, i: nat)
    requires Scoped(FieldsOf(cfg), operands) && operands !! NamesOf(FieldsOf(cfg)) && i <= |FieldsOf(cfg)|
    requires DifferOnlyFrom(FieldsOf(cfg), answers, answers', i)
    ensures Agree(FormOf(js, cfg, answers, roleFlags).base, FormOf(js, cfg, answers', roleFlags).base,
                  operands + NamesOf(FieldsOf(cfg)[..i]))
  {
    var fields := FieldsOf(cfg);
    forall k | k in operands + NamesOf(fields[..i]) ensures k !in NamesOf(fields[i..]) {
      if k in NamesOf(fields[i..]) {
        LaterNamesAreNew(fields, operands, i, k);
      }
    }
  }

  /**
   No answer to a later field reaches back: change the answers of field i and its successors in any way that
   leaves the group results alone, and fields 0..i show as before.
   */
  lemma LaterAnswersDoNotReachBack(
    js: Js, cfg: Configuration, roles: seq<Value>, answers: Context, answers': Context, roleFlags: Context,
    i: nat, j: nat)
    requires LintClean(js, cfg, roles) && ReadsBack(cfg, roles)
    requires j <= i < |FieldsOf(cfg)| && DifferOnlyFrom(FieldsOf(cfg), answers, answers', i)
    requires FormOf(js, cfg, answers, roleFlags).gv == FormOf(js, cfg, answers', roleFlags).gv
    ensures Name(FieldsOf(cfg), j) in VisibleNames(Visibility(js, cfg, answers, roleFlags)) <==>
            Name(FieldsOf(cfg), j) in VisibleNames(Visibility(js, cfg, answers', roleFlags))
  {
    var f, f' := FormOf(js, cfg, answers, roleFlags), FormOf(js, cfg, answers', roleFlags);
    var operands := FreeFlags(cfg, roles);
    CleanReadsBack(js, cfg, roles);
    PassOfForm(js, cfg, answers, roleFlags, operands);
    PassOfForm(js, cfg, answers', roleFlags, operands);
    BasesAgreeInScope(js, cfg, answers, answers', roleFlags, operands, i);
    EarlierFieldsAgree(f, f', operands, i, i + 1);
    VisibleByIndex(f, operands, j);
    VisibleByIndex(f', operands, j);
  }
}
