/** The `PathSegment` class: its constructors fill the parameter lists in the
    source's loops, and `Evaluate` rebuilds the segment string in its two
    loops. Each is proved to compute the functional view given in modules
    `Analysis` and `Evaluation`, where the properties are proved. */
module PathSegments {
  import opened Wrappers
  import opened Params
  import opened Scanner
  import opened Replace
  import opened Analysis
  import opened Evaluation

  /** `acc` in front of a successful result. */
  function Prefixed(acc: string, r: Result<string, EvalError>): Result<string, EvalError> {
    match r
    case Err(e) => Err(e)
    case Ok(x) => Ok(acc + x)
  }

  /** One step of the placeholder scan: the first match, then the rest. */
  lemma ImplicitStep(s: string, pos: nat, sp: Span)
    requires pos <= |s| && NextPlaceholder(s, pos) == Some(sp)
    ensures ImplicitAll(s, SpansFrom(s, pos)) ==
            [Implicit(s[sp.start + 1..sp.end - 1])] + ImplicitAll(s, SpansFrom(s, sp.end))
  {
    var rest := SpansFrom(s, sp.end);
    assert SpansFrom(s, pos) == [sp] + rest;
    assert ([sp] + rest)[0] == sp && ([sp] + rest)[1..] == rest;
  }

  /** The text between the braces of a match. */
  lemma InnerOfMatch(s: string, sp: Span)
    requires sp.start + 2 <= sp.end <= |s|
    ensures MatchText(s, sp)[1..|MatchText(s, sp)| - 1] == s[sp.start + 1..sp.end - 1]
  {
    var inner := MatchText(s, sp)[1..sp.end - sp.start - 1];
    forall m | 0 <= m < |inner|
      ensures inner[m] == s[sp.start + 1..sp.end - 1][m]
    {
    }
  }

  /** One step of the binding scan: the first match, then the rest. */
  lemma BindStep(s: string, pos: nat, sp: Span, table: map<string, Param>)
    requires pos <= |s| && NextPlaceholder(s, pos) == Some(sp)
    ensures BindAll(s, SpansFrom(s, pos), table) ==
            [Bind(s, sp, table)] + BindAll(s, SpansFrom(s, sp.end), table)
  {
    var rest := SpansFrom(s, sp.end);
    assert SpansFrom(s, pos) == [sp] + rest;
    assert ([sp] + rest)[0] == sp && ([sp] + rest)[1..] == rest;
  }

  /** Moving the next element from the pending part to the done part. */
  lemma Shift<T>(done: seq<T>, x: T, pending: seq<T>, all: seq<T>)
    requires done + ([x] + pending) == all
    ensures (done + [x]) + pending == all
  {
    assert (done + [x]) + pending == done + ([x] + pending);
  }

  /** One step of the declaration loop: a failure ends the whole
      dereferencing, a null is skipped, a param is kept. */
  lemma DerefStep(ps: seq<Param>, i: nat, kept: seq<Param>, file: string, resolve: Resolver)
    requires i < |ps| && DerefAll(ps[..i], file, resolve) == Ok(kept)
    ensures Deref(ps[i], file, resolve).Err? ==>
      DerefAll(ps, file, resolve) == Err(Deref(ps[i], file, resolve).error)
    ensures Deref(ps[i], file, resolve) == Ok(None) ==>
      DerefAll(ps[..i + 1], file, resolve) == Ok(kept)
    ensures Deref(ps[i], file, resolve).Ok? && Deref(ps[i], file, resolve).value.Some? ==>
      DerefAll(ps[..i + 1], file, resolve) == Ok(kept + [Deref(ps[i], file, resolve).value.value])
  {
    assert ps[..i + 1][..i] == ps[..i] && ps[..i + 1][i] == ps[i];
    if Deref(ps[i], file, resolve).Err? {
      assert ps == ps[..i + 1] + ps[i + 1..];
      DerefAllConcat(ps[..i + 1], ps[i + 1..], file, resolve);
    }
  }

  /** Keeping one more param extends each bucket by at most that param. */
  lemma KeepStep(kept: seq<Param>, q: Param)
    ensures TemplateTable(kept + [q]) ==
      if IsTemplateStyle(q) then TemplateTable(kept)[q.name := q] else TemplateTable(kept)
    ensures forall st ::
              WithStyle(kept + [q], st) ==
              if q.style == Some(st) then WithStyle(kept, st) + [q] else WithStyle(kept, st)
  {
    assert (kept + [q])[..|kept|] == kept;
  }

  /** Prefixing twice is prefixing with the concatenation. */
  lemma PrefixedTwice(acc: string, c: string, rest: Result<string, EvalError>)
    ensures Prefixed(acc, Prefixed(c, rest)) == Prefixed(acc + c, rest)
  {
    if rest.Ok? {
      assert acc + (c + rest.value) == (acc + c) + rest.value;
    }
  }

  class PathSegment {
    var template: Option<string>
    var templateParameters: seq<Param>
    var matrixParameters: seq<Param>
    var queryParameters: seq<Param>
    var headerParameters: seq<Param>

    /** The five fields as a value. */
    function View(): SegmentView
      reads this
    {
      SegmentView(template, templateParameters, matrixParameters, queryParameters, headerParameters)
    }

    /** The `{.*?}` matcher loop of the string constructor: one implicit
        param per match, named by the text between the braces. */
    static method EmbeddedParams(template: string) returns (embedded: seq<Param>)
      ensures embedded == ImplicitAll(template, Placeholders(template))
    {
      ghost var all := ImplicitAll(template, Placeholders(template));
      embedded := [];
      var pos := 0;
      ghost var rest := SpansFrom(template, pos);
      var found := NextPlaceholder(template, pos);
      while found.Some?
        invariant pos <= |template| && found == NextPlaceholder(template, pos)
        invariant rest == SpansFrom(template, pos)
        invariant embedded + ImplicitAll(template, rest) == all
        decreases |template| - pos
      {
        var sp := found.value;
        var paramName := MatchText(template, sp);
        InnerOfMatch(template, sp);
        paramName := paramName[1..|paramName| - 1];
        ImplicitStep(template, pos, sp);
        embedded := embedded + [Implicit(paramName)];
        pos := sp.end;
        rest := SpansFrom(template, pos);
        found := NextPlaceholder(template, pos);
      }
      assert rest == [] && embedded + [] == embedded;
    }

    /** The `{.*?}` matcher loop of the resource constructor: per match, the
        declared template param of the extracted name, or else an implicit
        one with that name. */
    static method BoundParams(t: string, pathParameters: map<string, Param>) returns (bound: seq<Param>)
      ensures bound == BindAll(t, Placeholders(t), pathParameters)
    {
      ghost var all := BindAll(t, Placeholders(t), pathParameters);
      bound := [];
      var pos := 0;
      ghost var rest := SpansFrom(t, pos);
      var found := NextPlaceholder(t, pos);
      while found.Some?
        invariant pos <= |t| && found == NextPlaceholder(t, pos)
        invariant rest == SpansFrom(t, pos)
        invariant bound + BindAll(t, rest, pathParameters) == all
        decreases |t| - pos
      {
        var sp := found.value;
        var paramText := MatchText(t, sp);
        MatchTextIsPlaceholder(t, sp);
        var paramName := ExtractName(paramText);
        BindStep(t, pos, sp, pathParameters);
        Shift(bound, Bind(t, sp, pathParameters), BindAll(t, SpansFrom(t, sp.end), pathParameters), all);
        assert Bind(t, sp, pathParameters) ==
               if paramName in pathParameters then pathParameters[paramName] else Implicit(paramName);
        if paramName in pathParameters {
          bound := bound + [pathParameters[paramName]];
        } else {
          bound := bound + [Implicit(paramName)];
        }
        pos := sp.end;
        rest := SpansFrom(t, pos);
        found := NextPlaceholder(t, pos);
      }
      assert rest == [] && bound + [] == bound;
    }

    /** The field initialisation the resource constructors start with. */
    constructor Init(template: Option<string>)
      ensures View() == SegmentView(template, [], [], [], [])
    {
      this.template := template;
      templateParameters := [];
      matrixParameters := [];
      queryParameters := [];
      headerParameters := [];
    }

    /** `new PathSegment(template, matrixParameters)`; the one-argument
        constructor is this one with `None`. */
    constructor FromTemplate(template: string, matrixNames: Option<seq<string>>)
      ensures View() == AnalyzeTemplate(template, matrixNames)
    {
      var embedded := EmbeddedParams(template);
      var named: seq<Param> := [];
      if matrixNames.Some? {
        named := MatrixParams(matrixNames.value);
      }
      this.template := Some(template);
      templateParameters := embedded;
      matrixParameters := named;
      queryParameters := [];
      headerParameters := [];
    }

    /** The loop over the matrix parameter names of the string constructor:
        one matrix-style param per name, in order. */
    static method MatrixParams(names: seq<string>) returns (named: seq<Param>)
      ensures named == MatrixNamedAll(names)
    {
      named := [];
      var i := 0;
      while i < |names|
        invariant i <= |names|
        invariant named + MatrixNamedAll(names[i..]) == MatrixNamedAll(names)
      {
        assert names[i..] == [names[i]] + names[i + 1..];
        named := named + [MatrixNamed(names[i])];
        i := i + 1;
      }
      assert names[i..] == [] && named + [] == named;
    }

    /** The declaration loop of the resource constructor: each declared
        param is dereferenced; template-style ones go to the returned table
        (a later name replacing an earlier one), the others are appended to
        the list of their style. */
    method CollectResourceParams(ps: seq<Param>, file: string, resolve: Resolver)
      returns (res: Result<map<string, Param>, InvalidWadl>, ghost kept: seq<Param>)
      modifies this
      ensures res.Err? ==> DerefAll(ps, file, resolve) == Err(res.error)
      ensures res.Ok? ==> DerefAll(ps, file, resolve) == Ok(kept) && res.value == TemplateTable(kept)
      ensures res.Ok? ==> View() == SegmentView(old(template), old(templateParameters),
        WithStyle(kept, Matrix), WithStyle(kept, Query), WithStyle(kept, Header))
    {
      var pathParameters: map<string, Param> := map[];
      var matrix, query, header := [], [], [];
      kept := [];
      var i := 0;
      while i < |ps|
        invariant i <= |ps| && DerefAll(ps[..i], file, resolve) == Ok(kept)
        invariant unchanged(this)
        invariant pathParameters == TemplateTable(kept)
        invariant matrix == WithStyle(kept, Matrix)
        invariant query == WithStyle(kept, Query)
        invariant header == WithStyle(kept, Header)
      {
        var p := ps[i];
        DerefStep(ps, i, kept, file, resolve);
        var d := Deref(p, file, resolve);
        if d.Err? {
          return Err(d.error), kept;
        }
        if d.value.Some? {
          var q := d.value.value;
          KeepStep(kept, q);
          if q.style.None? || q.style == Some(Template) {
            pathParameters := pathParameters[q.name := q];
          } else if q.style == Some(Matrix) {
            matrix := matrix + [q];
          } else if q.style == Some(Query) {
            query := query + [q];
          } else if q.style == Some(Header) {
            header := header + [q];
          }
          kept := kept + [q];
        }
        i := i + 1;
      }
      assert ps[..i] == ps;
      matrixParameters, queryParameters, headerParameters := matrix, query, header;
      return Ok(pathParameters), kept;
    }

    /** `new PathSegment(resource, file, idMap)`: the exception the resolver
        may throw is the `Err` result; otherwise a fresh segment. */
    static method FromResource(resource: Resource, file: string, resolve: Resolver)
      returns (r: Result<PathSegment, InvalidWadl>)
      ensures AnalyzeResource(resource, file, resolve).Err? ==>
        r == Err(AnalyzeResource(resource, file, resolve).error)
      ensures AnalyzeResource(resource, file, resolve).Ok? ==>
        r.Ok? && fresh(r.value) && r.value.View() == AnalyzeResource(resource, file, resolve).value
    {
      var t := PathOf(resource);
      var seg := new PathSegment.Init(Some(t));
      var collected, kept := seg.CollectResourceParams(resource.params, file, resolve);
      if collected.Err? {
        return Err(collected.error);
      }
      var bound := BoundParams(t, collected.value);
      seg.templateParameters := bound;
      return Ok(seg);
    }

    /** The declaration loop of the resource-type constructor: each declared
        param is dereferenced and appended to the list of its style; params
        of template style are dropped. */
    method CollectResourceTypeParams(ps: seq<Param>, file: string, resolve: Resolver)
      returns (failure: Option<InvalidWadl>, ghost kept: seq<Param>)
      modifies this
      ensures failure.Some? ==> DerefAll(ps, file, resolve) == Err(failure.value)
      ensures failure.None? ==> DerefAll(ps, file, resolve) == Ok(kept)
      ensures failure.None? ==> View() == SegmentView(old(template), old(templateParameters),
        WithStyle(kept, Matrix), WithStyle(kept, Query), WithStyle(kept, Header))
    {
      var matrix, query, header := [], [], [];
      kept := [];
      var i := 0;
      while i < |ps|
        invariant i <= |ps| && DerefAll(ps[..i], file, resolve) == Ok(kept)
        invariant unchanged(this)
        invariant matrix == WithStyle(kept, Matrix)
        invariant query == WithStyle(kept, Query)
        invariant header == WithStyle(kept, Header)
      {
        var p := ps[i];
        DerefStep(ps, i, kept, file, resolve);
        var d := Deref(p, file, resolve);
        if d.Err? {
          return Some(d.error), kept;
        }
        if d.value.Some? {
          var q := d.value.value;
          KeepStep(kept, q);
          if q.style == Some(Query) {
            query := query + [q];
          } else if q.style == Some(Matrix) {
            matrix := matrix + [q];
          } else if q.style == Some(Header) {
            header := header + [q];
          }
          kept := kept + [q];
        }
        i := i + 1;
      }
      assert ps[..i] == ps;
      matrixParameters, queryParameters, headerParameters := matrix, query, header;
      return None, kept;
    }

    /** `new PathSegment(resourceType, file, idMap)`: no template, and only
        matrix, query and header params are kept. */
    static method FromResourceType(rt: ResourceType, file: string, resolve: Resolver)
      returns (r: Result<PathSegment, InvalidWadl>)
      ensures AnalyzeResourceType(rt, file, resolve).Err? ==>
        r == Err(AnalyzeResourceType(rt, file, resolve).error)
      ensures AnalyzeResourceType(rt, file, resolve).Ok? ==>
        r.Ok? && fresh(r.value) && r.value.View() == AnalyzeResourceType(rt, file, resolve).value
    {
      var seg := new PathSegment.Init(None);
      var failure, kept := seg.CollectResourceTypeParams(rt.params, file, resolve);
      if failure.Some? {
        return Err(failure.value);
      }
      return Ok(seg);
    }

    /** `evaluate(parameterValues)`: the template with each template
        parameter substituted, then the matrix contributions; a missing
        required value is the `Err` result. */
    method Evaluate(values: Option<map<string, Value>>) returns (r: Result<string, EvalError>)
      requires WithinModel(View(), values)
      ensures r == Evaluation.Evaluate(View(), values)
    {
      var retVal := template.value;
      var parameterValues := if values.Some? then values.value else map[];
      var i := 0;
      while i < |templateParameters|
        invariant i <= |templateParameters|
        invariant Substitute(retVal, templateParameters[i..], parameterValues) ==
                  Substitute(template.value, templateParameters, parameterValues)
      {
        var param := templateParameters[i];
        var paramValue := "";
        assert templateParameters[i..][0] == param && templateParameters[i..][1..] == templateParameters[i + 1..];
        if param.name in parameterValues {
          paramValue := StringOf(parameterValues[param.name]);
        } else if IsRequired(param) {
          return Err(MissingTemplateValue(param.name));
        }
        retVal := ReplaceAll(retVal, Placeholder(param.name), paramValue);
        i := i + 1;
      }
      var buf := retVal;
      assert matrixParameters[0..] == matrixParameters;
      var j := 0;
      while j < |matrixParameters|
        invariant j <= |matrixParameters|
        invariant Prefixed(retVal, MatrixSuffix(matrixParameters, parameterValues)) ==
                  Prefixed(buf, MatrixSuffix(matrixParameters[j..], parameterValues))
      {
        var param := matrixParameters[j];
        assert matrixParameters[j..][0] == param && matrixParameters[j..][1..] == matrixParameters[j + 1..];
        var paramObject := NullV;
        if param.name in parameterValues {
          paramObject := parameterValues[param.name];
        } else if IsRequired(param) {
          return Err(MissingMatrixValue(param.name));
        }
        var added := "";
        if paramObject.BoolV? {
          if paramObject.b {
            added := ";" + param.name;
          }
        } else if paramObject.StrV? {
          added := ";" + param.name + "=" + StringOf(paramObject);
        }
        assert Contribution(param, parameterValues) == Ok(added);
        assert MatrixSuffix(matrixParameters[j..], parameterValues) ==
               Prefixed(added, MatrixSuffix(matrixParameters[j + 1..], parameterValues));
        PrefixedTwice(buf, added, MatrixSuffix(matrixParameters[j + 1..], parameterValues));
        buf := buf + added;
        j := j + 1;
      }
      assert buf + "" == buf;
      return Ok(buf);
    }
  }
}
