/** What `PathSegment.evaluate` computes, as functions: the template with
    each template parameter's placeholder replaced, followed by the matrix
    parameters in the `;name` / `;name=value` notation of section 3.3 of
    RFC 3986. The method in module `PathSegments` is proved to compute it. */
module Evaluation {
  import opened Wrappers
  import opened Params
  import opened Replace
  import opened Analysis

  /** The `IllegalArgumentException`s thrown for a missing required value. */
  datatype EvalError = MissingTemplateValue(name: string) | MissingMatrixValue(name: string)

  /** The bare placeholder text `{name}` that substitution looks for. */
  function Placeholder(name: string): string {
    "{" + name + "}"
  }

  /** A character with a meaning in a Java regular expression. */
  predicate IsRegexMeta(c: char) {
    c in "\\^$.|?*+()[]{}"
  }

  /** A name that the pattern `"\\{" + name + "\\}"` matches literally. */
  predicate IsRegexLiteral(name: string) {
    forall k :: 0 <= k < |name| ==> !IsRegexMeta(name[k])
  }

  /** A replacement that `replaceAll` inserts verbatim: no `$`, no `\`. */
  predicate IsReplacementLiteral(v: string) {
    forall k :: 0 <= k < |v| ==> v[k] != '$' && v[k] != '\\'
  }

  /** A `null` value map is treated as an empty one. */
  function ValuesOf(values: Option<map<string, Value>>): map<string, Value> {
    if values.Some? then values.value else map[]
  }

  /** The text substituted for one template parameter: the value's string
      form, `""` when it is absent and optional, an error when it is absent
      and required. */
  function TemplateValue(p: Param, vals: map<string, Value>): (r: Result<string, EvalError>)
    ensures r.Err? <==> p.name !in vals && IsRequired(p)
    ensures r.Err? ==> r.error == MissingTemplateValue(p.name)
  {
    if p.name in vals then Ok(StringOf(vals[p.name]))
    else if IsRequired(p) then Err(MissingTemplateValue(p.name))
    else Ok("")
  }

  /** The template loop: each parameter in turn replaces every `{name}` left
      in the running string. */
  function Substitute(s: string, ps: seq<Param>, vals: map<string, Value>): (r: Result<string, EvalError>)
    ensures r.Err? <==> exists k :: 0 <= k < |ps| && ps[k].name !in vals && IsRequired(ps[k])
    ensures r.Err? ==> r.error.MissingTemplateValue?
    decreases |ps|
  {
    if ps == [] then Ok(s)
    else
      match TemplateValue(ps[0], vals)
      case Err(e) => Err(e)
      case Ok(v) => Substitute(ReplaceAll(s, Placeholder(ps[0].name), v), ps[1..], vals)
  }

  /** One step of the template loop for a parameter that has a value: every
      `{name}` is replaced by the value's string form, and the loop goes on
      with the next parameter. */
  lemma SubstitutePresentValue(s: string, p: Param, rest: seq<Param>, vals: map<string, Value>)
    requires p.name in vals
    ensures Substitute(s, [p] + rest, vals) ==
      Substitute(ReplaceAll(s, Placeholder(p.name), StringOf(vals[p.name])), rest, vals)
  {
    assert ([p] + rest)[0] == p && ([p] + rest)[1..] == rest;
  }

  /** One step of the template loop for an optional parameter without a
      value: every `{name}` is replaced by the empty string, and the loop
      goes on with the next parameter. */
  lemma SubstituteAbsentOptional(s: string, p: Param, rest: seq<Param>, vals: map<string, Value>)
    requires p.name !in vals && !IsRequired(p)
    ensures Substitute(s, [p] + rest, vals) == Substitute(ReplaceAll(s, Placeholder(p.name), ""), rest, vals)
  {
    assert ([p] + rest)[0] == p && ([p] + rest)[1..] == rest;
  }

  /** What one matrix parameter appends: `;name` for `true`, nothing for
      `false`, for `null` or for an absent optional value, `;name=value`
      otherwise, and an error for an absent required value. */
  function Contribution(m: Param, vals: map<string, Value>): (r: Result<string, EvalError>)
    ensures r.Err? <==> m.name !in vals && IsRequired(m)
    ensures r.Err? ==> r.error == MissingMatrixValue(m.name)
    ensures r.Ok? && r.value != "" ==> |r.value| > |m.name| && r.value[..|m.name| + 1] == ";" + m.name
  {
    if m.name in vals then
      match vals[m.name]
      case NullV => Ok("")
      case BoolV(b) => Ok(if b then ";" + m.name else "")
      case StrV(s) => Ok(";" + m.name + "=" + s)
    else if IsRequired(m) then Err(MissingMatrixValue(m.name))
    else Ok("")
  }

  /** The matrix loop: the contributions in list order. */
  function MatrixSuffix(ms: seq<Param>, vals: map<string, Value>): (r: Result<string, EvalError>)
    ensures r.Err? <==> exists k :: 0 <= k < |ms| && ms[k].name !in vals && IsRequired(ms[k])
    ensures r.Err? ==> r.error.MissingMatrixValue?
    decreases |ms|
  {
    if ms == [] then Ok("")
    else
      match Contribution(ms[0], vals)
      case Err(e) => Err(e)
      case Ok(c) =>
        match MatrixSuffix(ms[1..], vals)
        case Err(e) => Err(e)
        case Ok(r) => Ok(c + r)
  }

  /** `segment.evaluate(values)`: the template errors are checked first. */
  function Evaluate(v: SegmentView, values: Option<map<string, Value>>): (r: Result<string, EvalError>)
    requires v.template.Some?
    ensures r.Err? <==>
      (exists p :: (p in v.templateParameters || p in v.matrixParameters) &&
         p.name !in ValuesOf(values) && IsRequired(p))
  {
    var vals := ValuesOf(values);
    match Substitute(v.template.value, v.templateParameters, vals)
    case Err(e) => Err(e)
    case Ok(s) =>
      match MatrixSuffix(v.matrixParameters, vals)
      case Err(e) => Err(e)
      case Ok(m) => Ok(s + m)
  }

  /** The inputs on which the literal model is what Java does: a non-null
      template (a resource-type segment has none, and `evaluate` then throws
      a null-reference exception), template parameter names without regular
      expression metacharacters, and template values that are not `null`
      (whose `toString()` would throw) and carry no `$` or `\`. */
  ghost predicate WithinModel(v: SegmentView, values: Option<map<string, Value>>) {
    v.template.Some? &&
    forall p :: p in v.templateParameters ==>
      IsRegexLiteral(p.name) &&
      (p.name in ValuesOf(values) ==>
        ValuesOf(values)[p.name] != NullV && IsReplacementLiteral(StringOf(ValuesOf(values)[p.name])))
  }

  /** A required template parameter without a value makes the whole
      evaluation fail with a missing-template-value error, whatever else is
      supplied (an earlier missing one may be the one reported). */
  lemma {:induction false} MissingTemplateValueFails(s: string, ps: seq<Param>, vals: map<string, Value>, k: nat)
    requires k < |ps| && IsRequired(ps[k]) && ps[k].name !in vals
    ensures Substitute(s, ps, vals).Err? && Substitute(s, ps, vals).error.MissingTemplateValue?
    decreases |ps|
  {
    match TemplateValue(ps[0], vals)
    case Err(e) =>
    case Ok(v) =>
      MissingTemplateValueFails(ReplaceAll(s, Placeholder(ps[0].name), v), ps[1..], vals, k - 1);
  }

  /** Likewise for a required matrix parameter: evaluation fails. */
  lemma {:induction false} MissingMatrixValueFails(ms: seq<Param>, vals: map<string, Value>, k: nat)
    requires k < |ms| && IsRequired(ms[k]) && ms[k].name !in vals
    ensures MatrixSuffix(ms, vals).Err? && MatrixSuffix(ms, vals).error.MissingMatrixValue?
    decreases |ms|
  {
    if k > 0 {
      MissingMatrixValueFails(ms[1..], vals, k - 1);
    }
  }

  /** A required parameter of either kind that has no value makes
      `evaluate` throw. */
  lemma MissingRequiredValueFails(v: SegmentView, values: Option<map<string, Value>>, p: Param)
    requires v.template.Some?
    requires p in v.templateParameters || p in v.matrixParameters
    requires IsRequired(p) && p.name !in ValuesOf(values)
    ensures Evaluate(v, values).Err?
  {
    var vals := ValuesOf(values);
    if p in v.templateParameters {
      var k :| 0 <= k < |v.templateParameters| && v.templateParameters[k] == p;
      MissingTemplateValueFails(v.template.value, v.templateParameters, vals, k);
    } else {
      var k :| 0 <= k < |v.matrixParameters| && v.matrixParameters[k] == p;
      MissingMatrixValueFails(v.matrixParameters, vals, k);
    }
  }

  /** Matrix contributions are independent of each other: the suffix of
      `a + b` is the suffix of `a` followed by that of `b`, an error in `a`
      winning. */
  lemma {:induction false} MatrixSuffixConcat(a: seq<Param>, b: seq<Param>, vals: map<string, Value>)
    ensures MatrixSuffix(a + b, vals) ==
      match MatrixSuffix(a, vals)
      case Err(e) => Err(e)
      case Ok(x) =>
        match MatrixSuffix(b, vals)
        case Err(e) => Err(e)
        case Ok(y) => Ok(x + y)
    decreases |a|
  {
    if a == [] {
      assert a + b == b;
      if MatrixSuffix(b, vals).Ok? {
        assert "" + MatrixSuffix(b, vals).value == MatrixSuffix(b, vals).value;
      }
    } else {
      assert (a + b)[0] == a[0] && (a + b)[1..] == a[1..] + b;
      MatrixSuffixConcat(a[1..], b, vals);
      match Contribution(a[0], vals)
      case Err(e) =>
      case Ok(c) =>
        match MatrixSuffix(a[1..], vals)
        case Err(e) =>
        case Ok(x) =>
          match MatrixSuffix(b, vals)
          case Err(e) =>
          case Ok(y) =>
            assert c + (x + y) == c + x + y;
    }
  }

  /** Appending a matrix parameter to a segment appends its contribution to
      the rendered segment, or fails with its error. */
  lemma EvaluateAppendedMatrixParam(v: SegmentView, values: Option<map<string, Value>>, m: Param)
    requires v.template.Some? && Evaluate(v, values).Ok?
    ensures Evaluate(v.(matrixParameters := v.matrixParameters + [m]), values) ==
      match Contribution(m, ValuesOf(values))
      case Err(e) => Err(e)
      case Ok(c) => Ok(Evaluate(v, values).value + c)
  {
    var vals := ValuesOf(values);
    var s := Substitute(v.template.value, v.templateParameters, vals).value;
    var x := MatrixSuffix(v.matrixParameters, vals).value;
    MatrixSuffixSnoc(v.matrixParameters, m, vals);
    if Contribution(m, vals).Ok? {
      var c := Contribution(m, vals).value;
      assert s + (x + c) == s + x + c;
    }
  }

  lemma MatrixSuffixSnoc(ms: seq<Param>, m: Param, vals: map<string, Value>)
    requires MatrixSuffix(ms, vals).Ok?
    ensures MatrixSuffix(ms + [m], vals) ==
      match Contribution(m, vals)
      case Err(e) => Err(e)
      case Ok(c) => Ok(MatrixSuffix(ms, vals).value + c)
  {
    MatrixSuffixConcat(ms, [m], vals);
    assert [m][1..] == [];
    if Contribution(m, vals).Ok? {
      var c := Contribution(m, vals).value;
      assert MatrixSuffix([m], vals) == Ok(c + "");
      assert c + "" == c;
    }
  }

  /** What a matrix parameter appended to a segment adds to the rendered
      segment: `;name` for `true`; nothing for `false`, for a `null` value
      (even when the parameter is required) or for an absent optional value,
      so those render exactly as if the parameter were not there;
      `;name=value` for any other value; and an error when a required value
      is absent. */
  lemma AppendedMatrixParam(v: SegmentView, values: Option<map<string, Value>>, m: Param)
    requires v.template.Some? && Evaluate(v, values).Ok?
    ensures var r := Evaluate(v, values).value;
      var vals := ValuesOf(values);
      var e := Evaluate(v.(matrixParameters := v.matrixParameters + [m]), values);
      (m.name in vals && vals[m.name] == BoolV(true) ==> e == Ok(r + ";" + m.name)) &&
      (m.name in vals && vals[m.name] == BoolV(false) ==> e == Ok(r)) &&
      (m.name in vals && vals[m.name] == NullV ==> e == Ok(r)) &&
      (m.name in vals && vals[m.name].StrV? ==> e == Ok(r + ";" + m.name + "=" + vals[m.name].s)) &&
      (m.name !in vals && !IsRequired(m) ==> e == Ok(r)) &&
      (m.name !in vals && IsRequired(m) ==> e == Err(MissingMatrixValue(m.name)))
  {
    var r := Evaluate(v, values).value;
    var vals := ValuesOf(values);
    EvaluateAppendedMatrixParam(v, values, m);
    assert r + "" == r;
    assert r + (";" + m.name) == r + ";" + m.name;
    if m.name in vals && vals[m.name].StrV? {
      assert r + (";" + m.name + "=" + vals[m.name].s) == r + ";" + m.name + "=" + vals[m.name].s;
    }
  }

  /** A template in which no template parameter's `{name}` occurs comes
      back unchanged from the template loop, once no required value is
      missing; `evaluate` then only appends matrix contributions. */
  lemma {:induction false} TemplateWithoutPlaceholdersUnchanged(s: string, ps: seq<Param>, vals: map<string, Value>)
    requires forall p :: p in ps ==> Free(s, Placeholder(p.name))
    requires forall p :: p in ps ==> p.name in vals || !IsRequired(p)
    ensures Substitute(s, ps, vals) == Ok(s)
    decreases |ps|
  {
    if ps != [] {
      assert ps[0] in ps;
      assert forall p :: p in ps[1..] ==> p in ps;
      TemplateWithoutPlaceholdersUnchanged(s, ps[1..], vals);
    }
  }

  /** Query and header parameters never reach the rendered segment. */
  lemma QueryAndHeaderIgnored(v: SegmentView, values: Option<map<string, Value>>, q: seq<Param>, h: seq<Param>)
    requires v.template.Some?
    ensures Evaluate(v.(queryParameters := q, headerParameters := h), values) == Evaluate(v, values)
  {
  }
}
