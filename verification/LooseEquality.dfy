/**
 What `looseEqual` means: every value has a key, and two values are loosely equal exactly when their keys are.
 Conditions and whole forms then see an answer only through its key.
 */
module LooseEquality {
  import opened Strings
  import opened JsValue
  import opened FieldDsl

  datatype LooseKey = ByNumber(n: Number) | ByText(s: string)

  predicate Numeric(js: Js, v: Value) {
    !v.Bool? && v != Str("") && ToNumber(js, v) != NaN
  }

  function KeyOf(js: Js, v: Value): LooseKey {
    if Numeric(js, v) then ByNumber(ToNumber(js, v)) else ByText(Text(js, v))
  }

  /** A value the host can hold, as far as comparing looks into it: a number is one of the host's. */
  predicate InHost(js: Js, v: Value) {
    v.Num? ==> js.double(v.n)
  }

  /**
   Every value of the host but null and the lists that print as the empty text, which are 0 as a number and something
   else as text.
   */
  predicate Regular(js: Js, v: Value) {
    InHost(js, v) && v != Null && (v.List? ==> Text(js, v) != "")
  }

  /** The heart of it: a value compared by number never prints like one compared by text. */
  lemma NumericTextIsNumber(js: Js, v: Value, e: Value)
    requires js.Lawful() && Regular(js, v) && Numeric(js, v) && !Numeric(js, e)
    ensures Text(js, v) != Text(js, e)
  {
    assert js.parse(Text(js, v)) == ToNumber(js, v) && Text(js, v) != "";
    if Text(js, e) != "" {
      assert e.Num? || js.parse(Text(js, e)) == NaN;
    }
  }

  lemma LooseEqualIsKeyEquality(js: Js, a: Value, b: Value)
    requires js.Lawful() && Regular(js, a) && Regular(js, b)
    ensures LooseEqual(js, a, b) <==> KeyOf(js, a) == KeyOf(js, b)
  {
    if Numeric(js, a) && !Numeric(js, b) {
      NumericTextIsNumber(js, a, b);
    } else if Numeric(js, b) && !Numeric(js, a) {
      NumericTextIsNumber(js, b, a);
    }
  }

  lemma LooseEqualIsEquivalence(js: Js, a: Value, b: Value, c: Value)
    requires js.Lawful() && Regular(js, a) && Regular(js, b) && Regular(js, c)
    ensures LooseEqual(js, a, a)
    ensures LooseEqual(js, a, b) ==> LooseEqual(js, b, a)
    ensures LooseEqual(js, a, b) && LooseEqual(js, b, c) ==> LooseEqual(js, a, c)
  {
    LooseEqualIsKeyEquality(js, a, a);
    LooseEqualIsKeyEquality(js, a, b);
    LooseEqualIsKeyEquality(js, b, a);
    LooseEqualIsKeyEquality(js, b, c);
    LooseEqualIsKeyEquality(js, a, c);
  }

  /** The value `v` never links two regular values that are not themselves loosely equal. */
  ghost predicate LinksOnlyEquals(js: Js, v: Value) {
    forall a, c :: Regular(js, a) && Regular(js, c) && LooseEqual(js, a, v) && LooseEqual(js, v, c)
      ==> LooseEqual(js, a, c)
  }

  /** Regularity is exactly what transitivity needs: null links 0 to "null", an empty list links 0 to "". */
  lemma TransitiveExactlyThroughRegular(js: Js, v: Value)
    requires js.Lawful() && InHost(js, v)
    ensures LinksOnlyEquals(js, v) <==> Regular(js, v)
  {
    var zero := Num(Finite(0.0));
    if Regular(js, v) {
      forall a, c | Regular(js, a) && Regular(js, c) && LooseEqual(js, a, v) && LooseEqual(js, v, c)
        ensures LooseEqual(js, a, c)
      {
        LooseEqualIsEquivalence(js, a, v, c);
      }
    } else if v == Null {
      assert LooseEqual(js, zero, v) && LooseEqual(js, v, Str("null")) && !LooseEqual(js, zero, Str("null")) by {
        NumericTextIsNumber(js, zero, Str("null"));
      }
    } else {
      assert LooseEqual(js, zero, v) && LooseEqual(js, v, Str("")) && !LooseEqual(js, zero, Str(""));
    }
  }

  lemma SameKeySameMatch(js: Js, v: Value, w: Value, e: Value)
    requires js.Lawful() && Regular(js, v) && Regular(js, w) && KeyOf(js, v) == KeyOf(js, w)
    ensures LooseEqual(js, v, e) == LooseEqual(js, w, e)
  {
    if Numeric(js, v) && !Numeric(js, e) {
      NumericTextIsNumber(js, v, e);
      NumericTextIsNumber(js, w, e);
    }
  }

  lemma SameKeySameNumber(js: Js, v: Value, w: Value)
    requires js.Lawful() && Regular(js, v) && Regular(js, w) && KeyOf(js, v) == KeyOf(js, w)
    requires v.Bool? <==> w.Bool?
    ensures ToNumber(js, v) == ToNumber(js, w)
  {
  }

  lemma {:induction false} SameKeySameCondition(js: Js, v: Value, w: Value, condition: Value)
    requires js.Lawful() && Regular(js, v) && Regular(js, w) && KeyOf(js, v) == KeyOf(js, w)
    requires v.Bool? <==> w.Bool?
    ensures EvalCondition(js, v, condition) == EvalCondition(js, w, condition)
    decreases condition
  {
    match condition
    case List(items) =>
      forall i | 0 <= i < |items| ensures LooseEqual(js, v, items[i]) == LooseEqual(js, w, items[i]) {
        SameKeySameMatch(js, v, w, items[i]);
      }
    case Obj(props) =>
      SameKeySameNumber(js, v, w);
      if "not" in props {
        SameKeySameCondition(js, v, w, props["not"]);
      }
    case _ => SameKeySameMatch(js, v, w, condition);
  }

  /**
   Two loosely equal operands satisfy the same conditions exactly when both or neither are booleans:
   a boolean compares as 0 or 1, its text as nothing.
   */
  lemma LooselyEqualOperandsAgreeExactly(js: Js, v: Value, w: Value)
    requires js.Lawful() && Regular(js, v) && Regular(js, w) && LooseEqual(js, v, w)
    ensures (forall c :: EvalCondition(js, v, c) == EvalCondition(js, w, c)) <==> (v.Bool? <==> w.Bool?)
  {
    LooseEqualIsKeyEquality(js, v, w);
    if v.Bool? <==> w.Bool? {
      forall c ensures EvalCondition(js, v, c) == EvalCondition(js, w, c) {
        SameKeySameCondition(js, v, w, c);
      }
    } else {
      var nonNegative := map["gte" := Num(Finite(0.0))];
      assert "not" !in nonNegative && "gt" !in nonNegative;
      assert EvalCondition(js, v, Obj(nonNegative)) != EvalCondition(js, w, Obj(nonNegative));
    }
  }

  // ---- Whole forms ----

  predicate Alike(js: Js, v: Value, w: Value) {
    v == w || (Regular(js, v) && Regular(js, w) && LooseEqual(js, v, w) && (v.Bool? <==> w.Bool?))
  }

  predicate AlikeMaps(js: Js, a: Context, b: Context) {
    a.Keys == b.Keys && forall k :: k in a ==> Alike(js, a[k], b[k])
  }

  lemma AlikeCondition(js: Js, v: Value, w: Value, condition: Value)
    requires js.Lawful() && Alike(js, v, w)
    ensures EvalCondition(js, v, condition) == EvalCondition(js, w, condition)
  {
    if v != w {
      LooseEqualIsKeyEquality(js, v, w);
      SameKeySameCondition(js, v, w, condition);
    }
  }

  lemma {:induction false} AlikeShowIf(js: Js, a: Context, b: Context, showIf: Value)
    requires js.Lawful() && AlikeMaps(js, a, b)
    ensures EvalShowIf(js, showIf, a) == EvalShowIf(js, showIf, b)
    decreases showIf
  {
    match showIf
    case Obj(props) =>
      forall key | key in props && key != "any"
        ensures EvalCondition(js, Lookup(a, key), props[key]) == EvalCondition(js, Lookup(b, key), props[key])
      {
        AlikeCondition(js, Lookup(a, key), Lookup(b, key), props[key]);
      }
      if "any" in props {
        AlikeAny(js, a, b, props["any"]);
      }
    case List(items) =>
      forall i | 0 <= i < |items|
        ensures EvalCondition(js, Lookup(a, Decimal(i)), items[i]) == EvalCondition(js, Lookup(b, Decimal(i)), items[i])
      {
        AlikeCondition(js, Lookup(a, Decimal(i)), Lookup(b, Decimal(i)), items[i]);
      }
    case _ =>
  }

  lemma {:induction false} AlikeAny(js: Js, a: Context, b: Context, maps: Value)
    requires js.Lawful() && AlikeMaps(js, a, b)
    ensures EvalAny(js, maps, a) == EvalAny(js, maps, b)
    decreases maps
  {
    if maps.List? {
      forall i | 0 <= i < |maps.items|
        ensures EvalShowIf(js, maps.items[i], a) == EvalShowIf(js, maps.items[i], b)
      {
        AlikeShowIf(js, a, b, maps.items[i]);
      }
    }
  }

  lemma {:induction false} AlikeGroups(js: Js, groups: seq<Item<Group>>, a: Context, b: Context)
    requires js.Lawful() && AlikeMaps(js, a, b)
    ensures GroupResults(js, groups, a) == GroupResults(js, groups, b)
  {
    if |groups| > 0 {
      AlikeGroups(js, Init(groups), a, b);
      if Last(groups).Map? {
        AlikeShowIf(js, a, b, Last(groups).def.showIf);
      }
    }
  }

  lemma {:induction false} AlikeVisits(
    js: Js, gv: map<string, bool>, fields: seq<Item<Field>>, s: Pass, t: Pass)
    requires js.Lawful() && AlikeMaps(js, s.ctx, t.ctx) && s.hidden == t.hidden && s.visible == t.visible
    ensures var s', t' := Visits(js, gv, fields, s), Visits(js, gv, fields, t);
      AlikeMaps(js, s'.ctx, t'.ctx) && s'.hidden == t'.hidden && s'.visible == t'.visible
  {
    if |fields| > 0 {
      AlikeVisits(js, gv, Init(fields), s, t);
      if Last(fields).Map? {
        AlikeShowIf(js, Visits(js, gv, Init(fields), s).ctx, Visits(js, gv, Init(fields), t).ctx,
          Last(fields).def.showIf);
      }
    }
  }

  /** "5" against 5 in any answer of any form: the same fields show and hide. */
  lemma AlikeAnswersSameForm(js: Js, cfg: Configuration, answers: Context, answers': Context, roleFlags: Context)
    requires js.Lawful() && AlikeMaps(js, answers, answers')
    ensures var p, p' := Visibility(js, cfg, answers, roleFlags), Visibility(js, cfg, answers', roleFlags);
      p.hidden == p'.hidden && p.visible == p'.visible
  {
    var a, b := roleFlags + Merged(cfg, answers), roleFlags + Merged(cfg, answers');
    AlikeGroups(js, GroupsOf(cfg), a, b);
    AlikeVisits(js, GroupResults(js, GroupsOf(cfg), a), FieldsOf(cfg),
                Pass(Merged(cfg, answers), a, [], []), Pass(Merged(cfg, answers'), b, [], []));
  }
}
