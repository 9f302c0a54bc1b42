/** The part of Joi's object validation the services and controllers rely on:
    `Joi.object({...}).validate(value)` with the default options (convert on,
    abort at the first error, unknown keys refused). A schema is a sequence of
    per-key rules checked in declaration order; unknown keys are checked after
    every declared key. */
module Joi {
  import opened Base
  import opened Json

  /** The base type and rules of one key. */
  datatype Kind =
    | Text                  // Joi.string()
    | Email                 // Joi.string().email()
    | Number                // Joi.number()
    | Integer(min: nat)     // Joi.number().integer().min(min)
    | Boolean               // Joi.boolean()

  /** One key of an object schema. `only` is the `.valid(...)` list (empty
      when there is none); `default` is `.default(...)`. */
  datatype Rule = Rule(key: string, kind: Kind, required: bool, only: seq<string>, default: Option<Value>)

  type Schema = seq<Rule>

  function KeysOf(schema: Schema): (ks: set<string>)
    ensures forall i :: 0 <= i < |schema| ==> schema[i].key in ks
    ensures forall k :: k in ks ==> exists i :: 0 <= i < |schema| && schema[i].key == k
  {
    set i | 0 <= i < |schema| :: schema[i].key
  }

  /** A structural stand-in for Joi's e-mail check: one '@' with something on
      both sides. It admits some addresses Joi refuses, such as "a@b", whose
      domain has no registered top-level part; every schema with an e-mail
      key inherits that difference. */
  predicate IsEmail(s: string) {
    && |s| >= 3
    && s[0] != '@' && s[|s| - 1] != '@'
    && |set i | 0 <= i < |s| && s[i] == '@'| == 1
  }

  /** The number a value denotes after Joi's conversion, if any. */
  function AsNumber(v: Value): Option<real> {
    match v
    case Num(n) => Some(n)
    case Str(s) => ParseDecimal(s)
    case _ => None
  }

  predicate IsIntegral(n: real) {
    n.Floor as real == n
  }

  /** `Number.MAX_SAFE_INTEGER`, 2^53 - 1. */
  const MaxSafe: nat := 9007199254740991

  /** Joi's `number.unsafe` check, on by default: numbers beyond
      `Number.MAX_SAFE_INTEGER` in magnitude are refused. */
  predicate IsSafe(n: real) {
    -(MaxSafe as real) <= n <= MaxSafe as real
  }

  /** A value `Joi.number()` admits: a number, or a numeral it converts,
      within the safe range. */
  predicate IsNumber(v: Value) {
    AsNumber(v).Some? && IsSafe(AsNumber(v).value)
  }

  /** ASCII `toLowerCase`. */
  function Lower(s: string): (l: string)
    ensures |l| == |s|
    ensures forall i :: 0 <= i < |s| ==> l[i] == (if 'A' <= s[i] <= 'Z' then (s[i] as int + 32) as char else s[i])
  {
    if s == [] then [] else [if 'A' <= s[0] <= 'Z' then (s[0] as int + 32) as char else s[0]] + Lower(s[1..])
  }

  /** `Joi.boolean()` is case-insensitive by default: "TRUE" and "False"
      convert too. */
  function AsBoolean(v: Value): Option<bool> {
    match v
    case Bool(b) => Some(b)
    case Str(s) => if Lower(s) == "true" then Some(true) else if Lower(s) == "false" then Some(false) else None
    case _ => None
  }

  /** Declarative reading of a rule: which present values it admits. */
  predicate Conforms(rule: Rule, v: Value) {
    if |rule.only| > 0 then v.Str? && v.s in rule.only
    else match rule.kind
      case Text => v.Str? && v.s != ""
      case Email => v.Str? && v.s != "" && IsEmail(v.s)
      case Number => IsNumber(v)
      case Integer(min) => IsNumber(v) && IsIntegral(AsNumber(v).value) && AsNumber(v).value >= min as real
      case Boolean => AsBoolean(v).Some?
  }

  /** The value Joi hands back for an admitted value: numbers and booleans
      given as strings come back converted. */
  function Converted(rule: Rule, v: Value): Value {
    if |rule.only| > 0 then v
    else match rule.kind
      case Number => if AsNumber(v).Some? then Num(AsNumber(v).value) else v
      case Integer(_) => if AsNumber(v).Some? then Num(AsNumber(v).value) else v
      case Boolean => if AsBoolean(v).Some? then Bool(AsBoolean(v).value) else v
      case _ => v
  }

  /** What one key contributes when the object is admitted. */
  predicate KeyOk(rule: Rule, o: Object) {
    if rule.key in o then Conforms(rule, o[rule.key]) else !rule.required
  }

  /** The whole object is admitted: every declared key is fine and no other
      key is present. */
  predicate Admits(schema: Schema, o: Object) {
    && (forall i :: 0 <= i < |schema| ==> KeyOk(schema[i], o))
    && o.Keys <= KeysOf(schema)
  }

  function Quote(key: string): string {
    "\"" + key + "\""
  }

  function JoinComma(xs: seq<string>): string {
    if xs == [] then "" else if |xs| == 1 then xs[0] else xs[0] + ", " + JoinComma(xs[1..])
  }

  /** The `details[0].message` Joi reports for a present value, or the
      converted value. */
  function CheckValue(rule: Rule, v: Value): (r: Result<Value>)
    ensures r.Ok? <==> Conforms(rule, v)
    ensures r.Ok? ==> r.value == Converted(rule, v)
  {
    var name := Quote(rule.key);
    if |rule.only| > 0 then
      if v.Str? && v.s in rule.only then Ok(v)
      else Err(name + " must be one of [" + JoinComma(rule.only) + "]")
    else match rule.kind
      case Text =>
        if !v.Str? then Err(name + " must be a string")
        else if v.s == "" then Err(name + " is not allowed to be empty")
        else Ok(v)
      case Email =>
        if !v.Str? then Err(name + " must be a string")
        else if v.s == "" then Err(name + " is not allowed to be empty")
        else if !IsEmail(v.s) then Err(name + " must be a valid email")
        else Ok(v)
      case Number =>
        if AsNumber(v).None? then Err(name + " must be a number")
        else if !IsSafe(AsNumber(v).value) then Err(name + " must be a safe number")
        else Ok(Num(AsNumber(v).value))
      case Integer(min) =>
        if AsNumber(v).None? then Err(name + " must be a number")
        else if !IsSafe(AsNumber(v).value) then Err(name + " must be a safe number")
        else if !IsIntegral(AsNumber(v).value) then Err(name + " must be an integer")
        else if AsNumber(v).value < min as real then Err(name + " must be greater than or equal to " + ShowNat(min))
        else Ok(Num(AsNumber(v).value))
      case Boolean =>
        if AsBoolean(v).None? then Err(name + " must be a boolean")
        else Ok(Bool(AsBoolean(v).value))
  }

  /** One declared key: `Some` of its (converted or defaulted) value, `None`
      when it is absent and has no default. */
  function CheckKey(rule: Rule, o: Object): (r: Result<Option<Value>>)
    ensures r.Ok? <==> KeyOk(rule, o)
  {
    if rule.key in o then
      var c := CheckValue(rule, o[rule.key]);
      if c.Err? then Err(c.message) else Ok(Some(c.value))
    else if rule.required then Err(Quote(rule.key) + " is required")
    else Ok(rule.default)
  }

  /** The declared keys, in order, stopping at the first error. */
  function CheckKeys(rules: Schema, o: Object): (r: Result<Object>)
  {
    if rules == [] then Ok(map[])
    else
      var head := CheckKey(rules[0], o);
      if head.Err? then Err(head.message)
      else
        var rest := CheckKeys(rules[1..], o);
        if rest.Err? then rest
        else if head.value.Some? then Ok(rest.value[rules[0].key := head.value.value])
        else Ok(rest.value)
  }

  lemma {:induction false} CheckKeysAdmits(rules: Schema, o: Object)
    ensures CheckKeys(rules, o).Ok? <==> forall i :: 0 <= i < |rules| ==> KeyOk(rules[i], o)
  {
    if rules != [] {
      CheckKeysAdmits(rules[1..], o);
      assert forall i :: 1 <= i < |rules| ==> rules[i] == rules[1..][i - 1];
      if CheckKeys(rules, o).Ok? {
        assert KeyOk(rules[0], o);
      }
    }
  }

  /** Keys that come back from an admitted object, and what they hold:
      a present key comes back converted, an absent one with its default. */
  ghost predicate Returns(rules: Schema, o: Object, v: Object) {
    && v.Keys <= KeysOf(rules)
    && forall i :: 0 <= i < |rules| ==>
         if rules[i].key in o then rules[i].key in v && v[rules[i].key] == Converted(rules[i], o[rules[i].key])
         else if rules[i].default.Some? then rules[i].key in v && v[rules[i].key] == rules[i].default.value
         else rules[i].key !in v
  }

  /** Schema keys are pairwise distinct, as in an object literal. */
  predicate DistinctKeys(rules: Schema) {
    forall i, j :: 0 <= i < j < |rules| ==> rules[i].key != rules[j].key
  }

  lemma {:induction false} CheckKeysReturns(rules: Schema, o: Object)
    requires CheckKeys(rules, o).Ok?
    ensures DistinctKeys(rules) ==> Returns(rules, o, CheckKeys(rules, o).value)
  {
    if rules != [] && DistinctKeys(rules) {
      var tail := rules[1..];
      assert forall i :: 1 <= i < |rules| ==> rules[i] == tail[i - 1];
      CheckKeysReturns(tail, o);
      var v := CheckKeys(rules, o).value;
      var rv := CheckKeys(tail, o).value;
      forall i | 1 <= i < |rules|
        ensures rules[i].key != rules[0].key
      {
      }
      forall i | 0 <= i < |rules|
        ensures if rules[i].key in o then rules[i].key in v && v[rules[i].key] == Converted(rules[i], o[rules[i].key])
                else if rules[i].default.Some? then rules[i].key in v && v[rules[i].key] == rules[i].default.value
                else rules[i].key !in v
      {
        if i > 0 {
          assert tail[i - 1] == rules[i];
        }
      }
    }
  }

  /** The message Joi gives for the first unknown key. The model's objects
      are unordered, so it does not name which key. */
  const UnknownKeyDetail: string := "\"value\" contains a key that is not allowed"

  /** `schema.validate(o)`: the validated value, or `details[0].message`. */
  function Validate(schema: Schema, o: Object): (r: Result<Object>)
    ensures r.Ok? <==> Admits(schema, o)
    ensures r.Ok? && DistinctKeys(schema) ==> Returns(schema, o, r.value)
  {
    CheckKeysAdmits(schema, o);
    var checked := CheckKeys(schema, o);
    if checked.Err? then checked
    else if !(o.Keys <= KeysOf(schema)) then Err(UnknownKeyDetail)
    else
      CheckKeysReturns(schema, o);
      checked
  }

  /** The message of a rejection, "" when the object is admitted. */
  function Complaint(schema: Schema, o: Object): string {
    var r := Validate(schema, o);
    if r.Err? then r.message else ""
  }

  /** Validating a bare value (`Joi.string().valid(...).required()` applied
      to one argument): Joi labels it "value". */
  function ValidateOne(rule: Rule, v: Option<Value>): (r: Result<Option<Value>>)
    requires rule.key == "value"
    ensures r.Ok? <==> (if v.Some? then Conforms(rule, v.value) else !rule.required)
  {
    CheckKey(rule, if v.Some? then map["value" := v.value] else map[])
  }

  /** `Joi.boolean()` converts "TRUE" and "False" as it converts "true" and
      "false", and refuses other words. */
  lemma BooleanWordsIgnoreCase()
    ensures AsBoolean(Str("TRUE")) == Some(true) && AsBoolean(Str("False")) == Some(false)
    ensures AsBoolean(Str("yes")).None?
  {
    assert Lower("TRUE") == "true";
    assert Lower("False") == "false";
    assert Lower("yes") == "yes";
  }

  /** `Joi.number()` refuses a value past `Number.MAX_SAFE_INTEGER` with
      its own message, before any `integer()` or `min()` rule. */
  lemma UnsafeNumberRefused(key: string, min: nat)
    ensures CheckValue(Rule(key, Number, true, [], None), Num((MaxSafe + 1) as real)) == Err(Quote(key) + " must be a safe number")
    ensures CheckValue(Rule(key, Integer(min), true, [], None), Num((MaxSafe + 1) as real)) == Err(Quote(key) + " must be a safe number")
    ensures CheckValue(Rule(key, Number, true, [], None), Num(MaxSafe as real)).Ok?
  {
  }
}
