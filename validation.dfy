/**
 * The part of Laravel's validator the controllers rely on. A rule set is the
 * associative array passed to `Validator::make` or `$request->validate`, each
 * field mapped to its `|`-separated rules; the outcome kept is the set of
 * fields that fail (the messages are not modelled).
 */
module Validation {
  import opened Values

  datatype Rule =
    | Required
    | Sometimes
    | Nullable
    | IsString
    | IsInteger
    | IsDate
    | Max(limit: nat)
    | Exists(ids: set<int>)      // `exists:table,id`, given the table's current ids
    | AfterOrEqual(day: int)     // `after_or_equal:today`, given today's day number

  type RuleSet = map<string, seq<Rule>>

  /** Whether the rule holds of a value the validator applies it to. */
  predicate Holds(r: Rule, v: Value)
  {
    match r
    case Required => Filled(v)
    case Sometimes => true
    case Nullable => true
    case IsString => v.Str?
    case IsInteger => v.Int?
    case IsDate => v.Date?
    // measured in characters; every rule set here pairs `max` with `string`
    case Max(limit) => v.Str? ==> |v.s| <= limit
    case Exists(ids) => v.Int? && v.n in ids
    case AfterOrEqual(day) => v.Date? && v.day >= day
  }

  /**
   * Whether the validator runs rule `r` at all: a blank string or an absent
   * field meets only the implicit rule `required`, and a null meets no other
   * rule when the field is `nullable`.
   */
  predicate Applies(r: Rule, present: bool, v: Value, rules: seq<Rule>)
  {
    if v.Str? && IsBlank(v.s) then r.Required?
    else (present || r.Required?) && (r.Required? || Nullable !in rules || !v.Null?)
  }

  /** A field passes when `sometimes` lets it be absent, or every rule that applies holds. */
  predicate FieldPasses(p: Payload, field: string, rules: seq<Rule>)
  {
    (Sometimes in rules && field !in p) ||
    forall i :: 0 <= i < |rules| && Applies(rules[i], field in p, Get(p, field), rules) ==> Holds(rules[i], Get(p, field))
  }

  /** The fields of the rule set that fail; empty means the request is accepted. */
  function Errors(p: Payload, rs: RuleSet): (errs: set<string>)
    ensures errs <= rs.Keys
  {
    set f | f in rs && !FieldPasses(p, f, rs[f])
  }

  /** A field whose rules fail is reported, so the request is rejected. */
  lemma FailingFieldReported(p: Payload, rs: RuleSet, f: string)
    requires f in rs && !FieldPasses(p, f, rs[f])
    ensures f in Errors(p, rs) && Errors(p, rs) != {}
  {
  }

  // ---------------------------------------------------------------------------
  // What the rule lists used by the controllers mean, written without the
  // validator's machinery.

  /** Present and a string that is not blank. */
  predicate FilledString(p: Payload, f: string)
  {
    f in p && p[f].Str? && !IsBlank(p[f].s)
  }

  /** Present and a string that is not blank, of at most `n` characters. */
  predicate FilledStringMax(p: Payload, f: string, n: nat)
  {
    FilledString(p, f) && |p[f].s| <= n
  }

  /** Present and an integer. */
  predicate IntegerField(p: Payload, f: string)
  {
    f in p && p[f].Int?
  }

  /** Present and a date. */
  predicate DateField(p: Payload, f: string)
  {
    f in p && p[f].Date?
  }

  /** Present and an integer that is one of `ids`. */
  predicate IdField(p: Payload, f: string, ids: set<int>)
  {
    f in p && p[f].Int? && p[f].n in ids
  }

  lemma RequiredMeaning(p: Payload, f: string)
    ensures FieldPasses(p, f, [Required]) <==> f in p && Filled(p[f])
  {
    var rules := [Required];
    if f in p {
      assert Applies(rules[0], true, p[f], rules);
    } else {
      assert Applies(rules[0], false, Null, rules);
    }
  }

  lemma RequiredStringMeaning(p: Payload, f: string)
    ensures FieldPasses(p, f, [Required, IsString]) <==> FilledString(p, f)
  {
    var rules := [Required, IsString];
    if FilledString(p, f) {
      assert Applies(rules[0], true, p[f], rules) && Applies(rules[1], true, p[f], rules);
    } else if f in p && !Filled(p[f]) {
      assert Applies(rules[0], true, p[f], rules);
    } else if f in p {
      assert Applies(rules[1], true, p[f], rules);
    } else {
      assert Applies(rules[0], false, Null, rules);
    }
  }

  lemma RequiredStringMaxMeaning(p: Payload, f: string, n: nat)
    ensures FieldPasses(p, f, [Required, IsString, Max(n)]) <==> FilledStringMax(p, f, n)
  {
    var rules := [Required, IsString, Max(n)];
    if FilledString(p, f) {
      assert Applies(rules[2], true, p[f], rules);
    } else if f in p && !Filled(p[f]) {
      assert Applies(rules[0], true, p[f], rules);
    } else if f in p {
      assert Applies(rules[1], true, p[f], rules);
    } else {
      assert Applies(rules[0], false, Null, rules);
    }
  }

  lemma SometimesStringMaxMeaning(p: Payload, f: string, n: nat)
    ensures FieldPasses(p, f, [Sometimes, Required, IsString, Max(n)]) <==> (f in p ==> FilledStringMax(p, f, n))
  {
    var rules := [Sometimes, Required, IsString, Max(n)];
    if FilledString(p, f) {
      assert Applies(rules[3], true, p[f], rules);
    } else if f in p && !Filled(p[f]) {
      assert Applies(rules[1], true, p[f], rules);
    } else if f in p {
      assert Applies(rules[2], true, p[f], rules);
    }
  }

  lemma RequiredIntegerMeaning(p: Payload, f: string)
    ensures FieldPasses(p, f, [Required, IsInteger]) <==> IntegerField(p, f)
  {
    var rules := [Required, IsInteger];
    if f in p && !p[f].Null? && !(p[f].Str? && IsBlank(p[f].s)) {
      assert Applies(rules[1], true, p[f], rules);
    } else if f in p {
      assert Applies(rules[0], true, p[f], rules);
    } else {
      assert Applies(rules[0], false, Null, rules);
    }
  }

  lemma RequiredDateMeaning(p: Payload, f: string)
    ensures FieldPasses(p, f, [Required, IsDate]) <==> DateField(p, f)
  {
    var rules := [Required, IsDate];
    if f in p && !p[f].Null? && !(p[f].Str? && IsBlank(p[f].s)) {
      assert Applies(rules[1], true, p[f], rules);
    } else if f in p {
      assert Applies(rules[0], true, p[f], rules);
    } else {
      assert Applies(rules[0], false, Null, rules);
    }
  }

  lemma RequiredIntegerExistsMeaning(p: Payload, f: string, ids: set<int>)
    ensures FieldPasses(p, f, [Required, IsInteger, Exists(ids)]) <==> IdField(p, f, ids)
  {
    var rules := [Required, IsInteger, Exists(ids)];
    if f in p && !p[f].Null? && !(p[f].Str? && IsBlank(p[f].s)) {
      assert Applies(rules[2], true, p[f], rules);
    } else if f in p {
      assert Applies(rules[0], true, p[f], rules);
    } else {
      assert Applies(rules[0], false, Null, rules);
    }
  }

  lemma RequiredExistsMeaning(p: Payload, f: string, ids: set<int>)
    ensures FieldPasses(p, f, [Required, Exists(ids)]) <==> IdField(p, f, ids)
  {
    var rules := [Required, Exists(ids)];
    if f in p && !p[f].Null? && !(p[f].Str? && IsBlank(p[f].s)) {
      assert Applies(rules[1], true, p[f], rules);
    } else if f in p {
      assert Applies(rules[0], true, p[f], rules);
    } else {
      assert Applies(rules[0], false, Null, rules);
    }
  }

  lemma SometimesExistsMeaning(p: Payload, f: string, ids: set<int>)
    ensures FieldPasses(p, f, [Sometimes, Required, Exists(ids)]) <==> (f in p ==> IdField(p, f, ids))
  {
    var rules := [Sometimes, Required, Exists(ids)];
    if f in p && !p[f].Null? && !(p[f].Str? && IsBlank(p[f].s)) {
      assert Applies(rules[2], true, p[f], rules);
    } else if f in p {
      assert Applies(rules[1], true, p[f], rules);
    }
  }

  lemma SometimesStringMeaning(p: Payload, f: string)
    ensures FieldPasses(p, f, [Sometimes, IsString]) <==> (f in p ==> p[f].Str?)
  {
    var rules := [Sometimes, IsString];
    if f in p && !p[f].Str? {
      assert Applies(rules[1], true, p[f], rules);
    }
  }

  /** `nullable|date|after_or_equal:d`: absent, null or blank, or else a date no earlier than `d`. */
  lemma NullableDateAfterMeaning(p: Payload, f: string, d: int)
    ensures FieldPasses(p, f, [Nullable, IsDate, AfterOrEqual(d)]) <==>
      (f in p ==> p[f].Null? || (p[f].Str? && IsBlank(p[f].s)) || (p[f].Date? && p[f].day >= d))
  {
    var rules := [Nullable, IsDate, AfterOrEqual(d)];
    if f in p && !p[f].Null? && !(p[f].Str? && IsBlank(p[f].s)) {
      assert Applies(rules[1], true, p[f], rules) && Applies(rules[2], true, p[f], rules);
    }
  }
}
