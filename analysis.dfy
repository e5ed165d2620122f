/** What the three `PathSegment` constructors compute, as functions: the
    template, the parameters bound to its placeholders, and the matrix, query
    and header parameters declared beside it. The constructors in module
    `PathSegments` are proved to build exactly these views. */
module Analysis {
  import opened Wrappers
  import opened Params
  import opened Scanner

  /** The five fields of a `PathSegment`. A `None` template is Java's `null`. */
  datatype SegmentView = SegmentView(
    template: Option<string>,
    templateParameters: seq<Param>,
    matrixParameters: seq<Param>,
    queryParameters: seq<Param>,
    headerParameters: seq<Param>)

  /** A WADL `resource` element: its `path` attribute and its child params. */
  datatype Resource = Resource(path: Option<string>, params: seq<Param>)

  /** A WADL `resource_type` element: only its child params matter here. */
  datatype ResourceType = ResourceType(params: seq<Param>)

  /** `InvalidWADLException`, raised by the resolver. */
  datatype InvalidWadl = InvalidWadl(message: string)

  /** `ElementResolver.resolve(file, href, p)`: the referenced definition,
      `null` (`None`), or an exception. */
  type Resolver = (string, string, Param) -> Result<Option<Param>, InvalidWadl>

  /** `derefIfRequired(p, file, idMap)`: only a non-empty `href` can make
      the outcome anything but `p` itself. */
  function Deref(p: Param, file: string, resolve: Resolver): (r: Result<Option<Param>, InvalidWadl>)
    ensures r != Ok(Some(p)) ==> p.href.Some? && |p.href.value| > 0
  {
    if p.href.Some? && |p.href.value| > 0 then resolve(file, p.href.value, p) else Ok(Some(p))
  }

  /** `derefIfRequired` gives back `p` itself, whatever the resolver would
      say, exactly when `href` is null or empty; otherwise what it returns is
      the resolver's answer, failures included. */
  lemma DerefSkipsResolverIff(p: Param, file: string)
    ensures (forall resolve: Resolver :: Deref(p, file, resolve) == Ok(Some(p)))
        <==> (p.href.None? || p.href == Some(""))
    ensures p.href.Some? && p.href != Some("") ==>
      forall resolve: Resolver :: Deref(p, file, resolve) == resolve(file, p.href.value, p)
  {
    if p.href.Some? && p.href != Some("") {
      var failing: Resolver := (f, h, q) => Err(InvalidWadl(h));
      assert Deref(p, file, failing).Err?;
    }
  }

  /** The params of a declaration after dereferencing, in declaration order:
      a `null` result is dropped, the first resolver failure is the result. */
  function DerefAll(ps: seq<Param>, file: string, resolve: Resolver): (r: Result<seq<Param>, InvalidWadl>)
    ensures r.Ok? ==> |r.value| <= |ps|
    ensures r.Ok? ==> forall j :: 0 <= j < |ps| ==> Deref(ps[j], file, resolve).Ok?
    decreases |ps|
  {
    if ps == [] then Ok([])
    else
      match DerefAll(ps[..|ps| - 1], file, resolve)
      case Err(e) => Err(e)
      case Ok(kept) =>
        match Deref(ps[|ps| - 1], file, resolve)
        case Err(e) => Err(e)
        case Ok(None) => Ok(kept)
        case Ok(Some(q)) => Ok(kept + [q])
  }

  /** Combining the dereferenced halves of a declaration list. */
  function Then(a: Result<seq<Param>, InvalidWadl>, b: Result<seq<Param>, InvalidWadl>): Result<seq<Param>, InvalidWadl> {
    match a
    case Err(e) => Err(e)
    case Ok(x) =>
      match b
      case Err(e) => Err(e)
      case Ok(y) => Ok(x + y)
  }

  /** Dereferencing works declaration by declaration: the result for `a + b`
      is that for `a` followed by that for `b`, and a failure in `a` wins. */
  lemma {:induction false} DerefAllConcat(a: seq<Param>, b: seq<Param>, file: string, resolve: Resolver)
    ensures DerefAll(a + b, file, resolve) == Then(DerefAll(a, file, resolve), DerefAll(b, file, resolve))
    decreases |b|
  {
    if b == [] {
      assert a + b == a;
      if DerefAll(a, file, resolve).Ok? {
        assert DerefAll(a, file, resolve).value + [] == DerefAll(a, file, resolve).value;
      }
    } else {
      var b' := b[..|b| - 1];
      assert (a + b)[..|a + b| - 1] == a + b';
      assert (a + b)[|a + b| - 1] == b[|b| - 1];
      DerefAllConcat(a, b', file, resolve);
      match DerefAll(a, file, resolve)
      case Err(e) =>
      case Ok(x) =>
        match DerefAll(b', file, resolve)
        case Err(e) =>
        case Ok(y) =>
          match Deref(b[|b| - 1], file, resolve)
          case Err(e) =>
          case Ok(None) =>
          case Ok(Some(q)) =>
            assert x + (y + [q]) == x + y + [q];
    }
  }

  /** A declaration whose reference dereferences to `null` is skipped
      entirely: dropping it from the declaration list changes nothing. */
  lemma NullDerefIsSkipped(ps: seq<Param>, k: nat, file: string, resolve: Resolver)
    requires k < |ps| && Deref(ps[k], file, resolve) == Ok(None)
    ensures DerefAll(ps, file, resolve) == DerefAll(ps[..k] + ps[k + 1..], file, resolve)
  {
    var a, x, b := ps[..k], [ps[k]], ps[k + 1..];
    assert ps == a + (x + b);
    assert x[..0] == [] && x[0] == ps[k];
    assert DerefAll(x, file, resolve) == Ok([]);
    DerefAllConcat(x, b, file, resolve);
    var rb := DerefAll(b, file, resolve);
    assert DerefAll(x + b, file, resolve) == rb by {
      if rb.Ok? {
        assert [] + rb.value == rb.value;
      }
    }
    DerefAllConcat(a, x + b, file, resolve);
    DerefAllConcat(a, b, file, resolve);
  }

  /** The first declaration whose dereferencing fails decides the outcome:
      `InvalidWADLException` propagates out of the constructor. */
  lemma FirstDerefFailureAborts(ps: seq<Param>, k: nat, file: string, resolve: Resolver)
    requires k < |ps| && Deref(ps[k], file, resolve).Err?
    requires forall j :: 0 <= j < k ==> Deref(ps[j], file, resolve).Ok?
    ensures DerefAll(ps, file, resolve) == Err(Deref(ps[k], file, resolve).error)
  {
    DerefPrefixOk(ps[..k], file, resolve);
    assert ps == ps[..k + 1] + ps[k + 1..];
    DerefAllConcat(ps[..k + 1], ps[k + 1..], file, resolve);
    assert ps[..k + 1][..k] == ps[..k];
  }

  /** Without a failing declaration, dereferencing succeeds. */
  lemma {:induction false} DerefPrefixOk(ps: seq<Param>, file: string, resolve: Resolver)
    requires forall j :: 0 <= j < |ps| ==> Deref(ps[j], file, resolve).Ok?
    ensures DerefAll(ps, file, resolve).Ok?
  {
    if ps != [] {
      DerefPrefixOk(ps[..|ps| - 1], file, resolve);
    }
  }

  /** The `pathParameters` map: template-style (or unstyled) params by
      name, a later declaration overwriting an earlier one. */
  function TemplateTable(kept: seq<Param>): (t: map<string, Param>)
    ensures forall n :: n in t ==> t[n].name == n && IsTemplateStyle(t[n])
    decreases |kept|
  {
    if kept == [] then map[]
    else
      var q := kept[|kept| - 1];
      var t := TemplateTable(kept[..|kept| - 1]);
      if IsTemplateStyle(q) then t[q.name := q] else t
  }

  /** The table holds a name exactly when some template-style declaration
      has it, and then holds the LAST such declaration. */
  lemma {:induction false} TemplateTableLastWins(kept: seq<Param>, n: string)
    ensures n in TemplateTable(kept) <==>
      exists i :: 0 <= i < |kept| && IsTemplateStyle(kept[i]) && kept[i].name == n
    ensures n in TemplateTable(kept) ==>
      exists i :: 0 <= i < |kept| && TemplateTable(kept)[n] == kept[i] &&
        forall j :: i < j < |kept| ==> !(IsTemplateStyle(kept[j]) && kept[j].name == n)
    decreases |kept|
  {
    if kept != [] {
      var pre := kept[..|kept| - 1];
      var q := kept[|kept| - 1];
      TemplateTableLastWins(pre, n);
      if IsTemplateStyle(q) && q.name == n {
        assert TemplateTable(kept)[n] == kept[|kept| - 1];
      } else {
        assert TemplateTable(kept) == TemplateTable(pre) || TemplateTable(kept) == TemplateTable(pre)[q.name := q];
        if exists i :: 0 <= i < |kept| && IsTemplateStyle(kept[i]) && kept[i].name == n {
          var i :| 0 <= i < |kept| && IsTemplateStyle(kept[i]) && kept[i].name == n;
          assert i < |pre| && pre[i] == kept[i];
        }
        if n in TemplateTable(kept) {
          var i :| 0 <= i < |pre| && TemplateTable(pre)[n] == pre[i] &&
            forall j :: i < j < |pre| ==> !(IsTemplateStyle(pre[j]) && pre[j].name == n);
          assert kept[i] == pre[i];
          assert forall j :: i < j < |kept| - 1 ==> kept[j] == pre[j];
        }
      }
    }
  }

  /** The params of one style, in declaration order: the `matrixParameters`,
      `queryParameters` and `headerParameters` lists. */
  function WithStyle(kept: seq<Param>, st: Style): (r: seq<Param>)
    ensures forall q :: q in r ==> q in kept && q.style == Some(st)
    decreases |kept|
  {
    if kept == [] then []
    else
      var q := kept[|kept| - 1];
      var r := WithStyle(kept[..|kept| - 1], st);
      if q.style == Some(st) then r + [q] else r
  }

  /** Every declaration of the style is in its list... */
  lemma {:induction false} WithStyleKeepsAll(kept: seq<Param>, st: Style, i: nat)
    requires i < |kept| && kept[i].style == Some(st)
    ensures kept[i] in WithStyle(kept, st)
    decreases |kept|
  {
    if i < |kept| - 1 {
      WithStyleKeepsAll(kept[..|kept| - 1], st, i);
    }
  }

  /** ...and the lists keep declaration order: the list for `a + b` is the
      list for `a` followed by the list for `b`. */
  lemma {:induction false} WithStyleConcat(a: seq<Param>, b: seq<Param>, st: Style)
    ensures WithStyle(a + b, st) == WithStyle(a, st) + WithStyle(b, st)
    decreases |b|
  {
    if b == [] {
      assert a + b == a;
    } else {
      assert (a + b)[..|a + b| - 1] == a + b[..|b| - 1];
      assert (a + b)[|a + b| - 1] == b[|b| - 1];
      WithStyleConcat(a, b[..|b| - 1], st);
    }
  }

  /** `Matcher.group()` of a match. */
  function MatchText(s: string, sp: Span): string
    requires sp.start <= sp.end <= |s|
  {
    s[sp.start..sp.end]
  }

  /** The text of a placeholder match is a placeholder text on its own. */
  lemma MatchTextIsPlaceholder(s: string, sp: Span)
    requires IsPlaceholderAt(s, sp.start, sp.end)
    ensures IsPlaceholderText(MatchText(s, sp))
  {
    var t := MatchText(s, sp);
    assert forall m :: 1 <= m < |t| - 1 ==> t[m] == s[sp.start + m];
  }

  /** The matches of a whole scan all lie within the string. */
  ghost predicate AllPlaceholders(s: string, spans: seq<Span>) {
    forall k :: 0 <= k < |spans| ==> IsPlaceholderAt(s, spans[k].start, spans[k].end)
  }

  /** String constructor: a placeholder becomes a fresh param named by the
      raw text between its braces. */
  function ImplicitAll(s: string, spans: seq<Span>): seq<Param>
    requires AllPlaceholders(s, spans)
  {
    if spans == [] then []
    else [Implicit(s[spans[0].start + 1..spans[0].end - 1])] + ImplicitAll(s, spans[1..])
  }

  /** Resource constructor: the declared template-style param named by the
      extracted name, or else a fresh one carrying only that name. */
  function Bind(s: string, sp: Span, table: map<string, Param>): (r: Param)
    requires IsPlaceholderAt(s, sp.start, sp.end)
    ensures r in table.Values || r == Implicit(r.name)
  {
    MatchTextIsPlaceholder(s, sp);
    var name := ExtractName(MatchText(s, sp));
    if name in table then table[name] else Implicit(name)
  }

  function BindAll(s: string, spans: seq<Span>, table: map<string, Param>): seq<Param>
    requires AllPlaceholders(s, spans)
  {
    if spans == [] then []
    else [Bind(s, spans[0], table)] + BindAll(s, spans[1..], table)
  }

  /** A parameter per name of the matrix list; `null` gives none. */
  function MatrixNamedAll(names: seq<string>): seq<Param> {
    if names == [] then [] else [MatrixNamed(names[0])] + MatrixNamedAll(names[1..])
  }

  /** `new PathSegment(template, matrixParameters)`: one template param per
      placeholder, one matrix param per name, no query or header params. */
  function AnalyzeTemplate(template: string, matrixNames: Option<seq<string>>): (r: SegmentView)
    ensures r.template == Some(template)
    ensures |r.templateParameters| == |Placeholders(template)|
    ensures |r.matrixParameters| == if matrixNames.Some? then |matrixNames.value| else 0
    ensures r.queryParameters == [] && r.headerParameters == []
  {
    ImplicitAllLength(template, Placeholders(template));
    MatrixNamedAllLength(if matrixNames.Some? then matrixNames.value else []);
    SegmentView(
      Some(template),
      ImplicitAll(template, Placeholders(template)),
      if matrixNames.Some? then MatrixNamedAll(matrixNames.value) else [],
      [], [])
  }

  /** `resource.getPath() == null ? "" : resource.getPath()`. */
  function PathOf(resource: Resource): string {
    if resource.path.Some? then resource.path.value else ""
  }

  /** `new PathSegment(resource, file, idMap)`: the template is the path,
      one template param per placeholder, and each other list holds only
      params of its own style. */
  function AnalyzeResource(resource: Resource, file: string, resolve: Resolver): (r: Result<SegmentView, InvalidWadl>)
    ensures r.Ok? ==> r.value.template == Some(PathOf(resource))
    ensures r.Ok? ==> |r.value.templateParameters| == |Placeholders(PathOf(resource))|
    ensures r.Ok? ==> forall q :: q in r.value.matrixParameters ==> q.style == Some(Matrix)
    ensures r.Ok? ==> forall q :: q in r.value.queryParameters ==> q.style == Some(Query)
    ensures r.Ok? ==> forall q :: q in r.value.headerParameters ==> q.style == Some(Header)
  {
    var t := PathOf(resource);
    match DerefAll(resource.params, file, resolve)
    case Err(e) => Err(e)
    case Ok(kept) =>
      BindAllLength(t, Placeholders(t), TemplateTable(kept));
      Ok(SegmentView(
        Some(t),
        BindAll(t, Placeholders(t), TemplateTable(kept)),
        WithStyle(kept, Matrix), WithStyle(kept, Query), WithStyle(kept, Header)))
  }

  /** `new PathSegment(resourceType, file, idMap)`: no template, no template
      params, and each other list holds only params of its own style. */
  function AnalyzeResourceType(rt: ResourceType, file: string, resolve: Resolver): (r: Result<SegmentView, InvalidWadl>)
    ensures r.Ok? ==> r.value.template.None? && r.value.templateParameters == []
    ensures r.Ok? ==> forall q :: q in r.value.matrixParameters ==> q.style == Some(Matrix)
    ensures r.Ok? ==> forall q :: q in r.value.queryParameters ==> q.style == Some(Query)
    ensures r.Ok? ==> forall q :: q in r.value.headerParameters ==> q.style == Some(Header)
  {
    match DerefAll(rt.params, file, resolve)
    case Err(e) => Err(e)
    case Ok(kept) =>
      Ok(SegmentView(None, [], WithStyle(kept, Matrix), WithStyle(kept, Query), WithStyle(kept, Header)))
  }

  /** The k-th param made by the string constructor is that of the k-th match. */
  lemma {:induction false} ImplicitAllAt(s: string, spans: seq<Span>, k: nat)
    requires AllPlaceholders(s, spans) && k < |spans|
    ensures |ImplicitAll(s, spans)| == |spans|
    ensures ImplicitAll(s, spans)[k] == Implicit(s[spans[k].start + 1..spans[k].end - 1])
  {
    ImplicitAllLength(s, spans);
    if k > 0 {
      ImplicitAllAt(s, spans[1..], k - 1);
    }
  }

  lemma {:induction false} ImplicitAllLength(s: string, spans: seq<Span>)
    requires AllPlaceholders(s, spans)
    ensures |ImplicitAll(s, spans)| == |spans|
  {
    if spans != [] {
      ImplicitAllLength(s, spans[1..]);
    }
  }

  /** The k-th param bound by the resource constructor is that of the k-th match. */
  lemma {:induction false} BindAllAt(s: string, spans: seq<Span>, table: map<string, Param>, k: nat)
    requires AllPlaceholders(s, spans) && k < |spans|
    ensures |BindAll(s, spans, table)| == |spans|
    ensures BindAll(s, spans, table)[k] == Bind(s, spans[k], table)
  {
    BindAllLength(s, spans, table);
    if k > 0 {
      BindAllAt(s, spans[1..], table, k - 1);
    }
  }

  lemma {:induction false} BindAllLength(s: string, spans: seq<Span>, table: map<string, Param>)
    requires AllPlaceholders(s, spans)
    ensures |BindAll(s, spans, table)| == |spans|
  {
    if spans != [] {
      BindAllLength(s, spans[1..], table);
    }
  }

  lemma {:induction false} MatrixNamedAllAt(names: seq<string>, k: nat)
    requires k < |names|
    ensures |MatrixNamedAll(names)| == |names| && MatrixNamedAll(names)[k] == MatrixNamed(names[k])
  {
    MatrixNamedAllLength(names);
    if k > 0 {
      MatrixNamedAllAt(names[1..], k - 1);
    }
  }

  lemma {:induction false} MatrixNamedAllLength(names: seq<string>)
    ensures |MatrixNamedAll(names)| == |names|
  {
    if names != [] {
      MatrixNamedAllLength(names[1..]);
    }
  }

  /** String constructor: one template param per match, left to right, named
      by the raw text between the braces and carrying nothing else; one
      MATRIX param per supplied name, in order; no query or header params. */
  lemma TemplateSegmentShape(template: string, matrixNames: Option<seq<string>>)
    ensures var v := AnalyzeTemplate(template, matrixNames);
      var spans := Placeholders(template);
      v.template == Some(template) &&
      |v.templateParameters| == |spans| &&
      (forall k :: 0 <= k < |spans| ==>
        v.templateParameters[k] == Implicit(template[spans[k].start + 1..spans[k].end - 1])) &&
      |v.matrixParameters| == (if matrixNames.Some? then |matrixNames.value| else 0) &&
      (forall k :: 0 <= k < |v.matrixParameters| ==>
        v.matrixParameters[k] == MatrixNamed(matrixNames.value[k])) &&
      v.queryParameters == [] && v.headerParameters == []
  {
    var spans := Placeholders(template);
    ImplicitAllLength(template, spans);
    forall k | 0 <= k < |spans|
      ensures ImplicitAll(template, spans)[k] == Implicit(template[spans[k].start + 1..spans[k].end - 1])
    {
      ImplicitAllAt(template, spans, k);
    }
    if matrixNames.Some? {
      MatrixNamedAllLength(matrixNames.value);
      forall k | 0 <= k < |matrixNames.value|
        ensures MatrixNamedAll(matrixNames.value)[k] == MatrixNamed(matrixNames.value[k])
      {
        MatrixNamedAllAt(matrixNames.value, k);
      }
    }
  }

  /** Resource constructor, binding: one template param per match; for the
      k-th match, named `n` by the name extraction, it is the last
      template-style declaration named `n` if there is one, and otherwise a
      fresh param carrying only `n`. A query, matrix or header declaration is
      never bound, whatever its name. */
  lemma ResourceBinding(resource: Resource, file: string, resolve: Resolver, k: nat)
    requires AnalyzeResource(resource, file, resolve).Ok?
    requires k < |Placeholders(PathOf(resource))|
    ensures var v := AnalyzeResource(resource, file, resolve).value;
      var t := PathOf(resource);
      var sp := Placeholders(t)[k];
      var kept := DerefAll(resource.params, file, resolve).value;
      IsPlaceholderText(MatchText(t, sp)) &&
      var n := ExtractName(MatchText(t, sp));
      |v.templateParameters| == |Placeholders(t)| &&
      IsTemplateStyle(v.templateParameters[k]) && v.templateParameters[k].name == n &&
      ((exists i :: 0 <= i < |kept| && IsTemplateStyle(kept[i]) && kept[i].name == n) ==>
        exists i :: 0 <= i < |kept| && v.templateParameters[k] == kept[i] &&
          forall j :: i < j < |kept| ==> !(IsTemplateStyle(kept[j]) && kept[j].name == n)) &&
      ((forall i :: 0 <= i < |kept| ==> !(IsTemplateStyle(kept[i]) && kept[i].name == n)) ==>
        v.templateParameters[k] == Implicit(n))
  {
    var t := PathOf(resource);
    var spans := Placeholders(t);
    var kept := DerefAll(resource.params, file, resolve).value;
    var table := TemplateTable(kept);
    BindAllAt(t, spans, table, k);
    MatchTextIsPlaceholder(t, spans[k]);
    var n := ExtractName(MatchText(t, spans[k]));
    TemplateTableLastWins(kept, n);
    if n !in table {
      assert Bind(t, spans[k], table) == Implicit(n);
    }
  }

  /** Resource constructor, sorting by style: a declaration is in the list of
      its style exactly when it (after dereferencing) has that style; a
      template-style or unstyled one is in none of the three lists. */
  lemma ResourceSorting(resource: Resource, file: string, resolve: Resolver, st: Style, q: Param)
    requires AnalyzeResource(resource, file, resolve).Ok?
    ensures var v := AnalyzeResource(resource, file, resolve).value;
      var kept := DerefAll(resource.params, file, resolve).value;
      var list := match st
        case Matrix => v.matrixParameters
        case Query => v.queryParameters
        case Header => v.headerParameters
        case Template => [];
      (st != Template ==> (q in list <==> q in kept && q.style == Some(st))) &&
      (IsTemplateStyle(q) ==> q !in v.matrixParameters + v.queryParameters + v.headerParameters)
  {
    var kept := DerefAll(resource.params, file, resolve).value;
    if q in kept && q.style == Some(st) {
      var i :| 0 <= i < |kept| && kept[i] == q;
      WithStyleKeepsAll(kept, st, i);
    }
  }

  /** Resource-type constructor: no template and no template params, and the
      matrix, query and header lists are those a resource declaring the same
      params would get; template-style params are dropped. */
  lemma ResourceTypeShape(rt: ResourceType, file: string, resolve: Resolver, path: Option<string>)
    requires AnalyzeResourceType(rt, file, resolve).Ok?
    ensures var v := AnalyzeResourceType(rt, file, resolve).value;
      var w := AnalyzeResource(Resource(path, rt.params), file, resolve);
      v.template.None? && v.templateParameters == [] &&
      w.Ok? && v.matrixParameters == w.value.matrixParameters &&
      v.queryParameters == w.value.queryParameters && v.headerParameters == w.value.headerParameters &&
      forall q :: q in v.matrixParameters + v.queryParameters + v.headerParameters ==> !IsTemplateStyle(q)
  {
    var v := AnalyzeResourceType(rt, file, resolve).value;
    forall q | q in v.matrixParameters + v.queryParameters + v.headerParameters
      ensures !IsTemplateStyle(q)
    {
      assert q in v.matrixParameters || q in v.queryParameters || q in v.headerParameters;
    }
  }
}
