/** Concrete segments worked through the model: the example in the
    `evaluate` documentation, a repeated placeholder, a placeholder with a
    regular-expression constraint, and an omitted optional value. */
module Scenarios {
  import opened Wrappers
  import opened Params
  import opened Scanner
  import opened Replace
  import opened Analysis
  import opened Evaluation

  /** A candidate position where the pattern is not found. */
  lemma NotAt(s: string, pat: string, k: nat, i: nat)
    requires k + |pat| <= |s| && i < |pat| && s[k + i] != pat[i]
    ensures s[k..k + |pat|] != pat
  {
    assert s[k..k + |pat|][i] == s[k + i];
  }

  /** The documented segment's names and pieces, character by character. */
  lemma DocumentedLiterals()
    ensures Placeholder("p1") == "{p1}" && Placeholder("p2") == "{p2}"
    ensures "{p1}/{p2}"[1..3] == "p1" && "{p1}/{p2}"[6..8] == "p2"
    ensures "v1/v2" + ";p3=v3" == "v1/v2;p3=v3"
  {
  }

  lemma DocumentedPlaceholders()
    ensures Placeholders("{p1}/{p2}") == [Span(0, 4), Span(5, 9)]
  {
    var t := "{p1}/{p2}";
    assert CloseFrom(t, 1) == Some(3);
    assert NextPlaceholder(t, 0) == Some(Span(0, 4));
    assert CloseFrom(t, 6) == Some(8);
    assert NextPlaceholder(t, 4) == Some(Span(5, 9));
    assert NextPlaceholder(t, 9) == None;
    assert SpansFrom(t, 9) == [];
    assert SpansFrom(t, 4) == [Span(5, 9)];
  }

  lemma DocumentedSubstitution()
    ensures ReplaceAll("{p1}/{p2}", "{p1}", "v1") == "v1/{p2}"
    ensures ReplaceAll("v1/{p2}", "{p2}", "v2") == "v1/v2"
  {
    DocumentedFirstReplacement();
    DocumentedSecondReplacement();
  }

  lemma DocumentedFirstReplacement()
    ensures ReplaceAll("{p1}/{p2}", "{p1}", "v1") == "v1/{p2}"
  {
    var t := "{p1}/{p2}";
    assert t[0..4] == "{p1}";
    assert FindFrom(t, "{p1}", 0) == Some(0);
    SplitAt(t, "{p1}", 0);
    assert t[..0] == "" && t[4..] == "/{p2}";
    DocumentedRestKeepsSecond();
    assert Split(t, "{p1}") == ["", "/{p2}"];
  }

  lemma DocumentedRestKeepsSecond()
    ensures Split("/{p2}", "{p1}") == ["/{p2}"]
  {
    NotAt("/{p2}", "{p1}", 0, 0);
    NotAt("/{p2}", "{p1}", 1, 2);
    assert FindFrom("/{p2}", "{p1}", 2) == None;
    assert FindFrom("/{p2}", "{p1}", 1) == None;
    assert FindFrom("/{p2}", "{p1}", 0) == None;
  }

  lemma DocumentedSecondReplacement()
    ensures ReplaceAll("v1/{p2}", "{p2}", "v2") == "v1/v2"
  {
    var s1 := "v1/{p2}";
    NotAt(s1, "{p2}", 0, 0);
    NotAt(s1, "{p2}", 1, 0);
    NotAt(s1, "{p2}", 2, 0);
    assert s1[3..7] == "{p2}";
    assert FindFrom(s1, "{p2}", 3) == Some(3);
    assert FindFrom(s1, "{p2}", 2) == Some(3);
    assert FindFrom(s1, "{p2}", 1) == Some(3);
    assert FindFrom(s1, "{p2}", 0) == Some(3);
    SplitAt(s1, "{p2}", 3);
    assert s1[7..] == "" && s1[..3] == "v1/";
    assert Split("", "{p2}") == [""];
    assert Split(s1, "{p2}") == ["v1/", ""];
  }

  /** `"{p1}/{p2}"` with matrix parameter `p3` and values `v1`, `v2`, `v3`
      renders as `"v1/v2;p3=v3"`. */
  lemma DocumentedExample()
    ensures Evaluate(AnalyzeTemplate("{p1}/{p2}", Some(["p3"])),
                     Some(map["p1" := StrV("v1"), "p2" := StrV("v2"), "p3" := StrV("v3")]))
            == Ok("v1/v2;p3=v3")
  {
    DocumentedView();
    DocumentedEvaluation(Some(map["p1" := StrV("v1"), "p2" := StrV("v2"), "p3" := StrV("v3")]));
  }

  lemma DocumentedEvaluation(values: Option<map<string, Value>>)
    requires values == Some(map["p1" := StrV("v1"), "p2" := StrV("v2"), "p3" := StrV("v3")])
    ensures Evaluate(SegmentView(Some("{p1}/{p2}"), [Implicit("p1"), Implicit("p2")], [MatrixNamed("p3")], [], []), values)
      == Ok("v1/v2;p3=v3")
  {
    var vals := values.value;
    assert ValuesOf(values) == vals;
    DocumentedTemplatePart(vals);
    DocumentedMatrixPart(vals);
    EvaluateParts(SegmentView(Some("{p1}/{p2}"), [Implicit("p1"), Implicit("p2")], [MatrixNamed("p3")], [], []),
      values, "v1/v2", ";p3=v3");
    DocumentedLiterals();
  }

  /** The two loops of `evaluate` glued together. */
  lemma EvaluateParts(v: SegmentView, values: Option<map<string, Value>>, s: string, m: string)
    requires v.template.Some?
    requires Substitute(v.template.value, v.templateParameters, ValuesOf(values)) == Ok(s)
    requires MatrixSuffix(v.matrixParameters, ValuesOf(values)) == Ok(m)
    ensures Evaluate(v, values) == Ok(s + m)
  {
  }

  lemma DocumentedView()
    ensures AnalyzeTemplate("{p1}/{p2}", Some(["p3"])) ==
      SegmentView(Some("{p1}/{p2}"), [Implicit("p1"), Implicit("p2")], [MatrixNamed("p3")], [], [])
  {
    var t := "{p1}/{p2}";
    DocumentedPlaceholders();
    DocumentedLiterals();
    var ps := Placeholders(t);
    assert ImplicitAll(t, ps[1..]) == [Implicit("p2")];
    assert ImplicitAll(t, ps) == [Implicit("p1"), Implicit("p2")];
    assert MatrixNamedAll(["p3"]) == [MatrixNamed("p3")];
  }

  lemma DocumentedTemplatePart(vals: map<string, Value>)
    requires vals == map["p1" := StrV("v1"), "p2" := StrV("v2"), "p3" := StrV("v3")]
    ensures Substitute("{p1}/{p2}", [Implicit("p1"), Implicit("p2")], vals) == Ok("v1/v2")
  {
    DocumentedSubstitution();
    DocumentedLiterals();
    SubstituteOne("v1/{p2}", "p2", vals, "v2");
    SubstitutePresentValue("{p1}/{p2}", Implicit("p1"), [Implicit("p2")], vals);
    assert [Implicit("p1")] + [Implicit("p2")] == [Implicit("p1"), Implicit("p2")];
  }

  lemma DocumentedMatrixPart(vals: map<string, Value>)
    requires vals == map["p1" := StrV("v1"), "p2" := StrV("v2"), "p3" := StrV("v3")]
    ensures MatrixSuffix([MatrixNamed("p3")], vals) == Ok(";p3=v3")
  {
    assert MatrixNamed("p3").name == "p3";
    assert "p3" in vals && vals["p3"] == StrV("v3");
    assert ";" + "p3" + "=" + "v3" == ";p3=v3";
    assert Contribution(MatrixNamed("p3"), vals) == Ok(";p3=v3");
    assert [MatrixNamed("p3")][1..] == [];
    assert ";p3=v3" + "" == ";p3=v3";
  }

  lemma SubstituteOne(s: string, name: string, vals: map<string, Value>, v: string)
    requires name in vals && vals[name] == StrV(v)
    ensures Substitute(s, [Implicit(name)], vals) == Ok(ReplaceAll(s, Placeholder(name), v))
  {
    SubstitutePresentValue(s, Implicit(name), [], vals);
    assert [Implicit(name)] + [] == [Implicit(name)];
  }

  /** The repeated segment's name and pieces, character by character. */
  lemma RepeatedLiterals()
    ensures Placeholder("a") == "{a}"
    ensures "{a}-{a}"[1..2] == "a" && "{a}-{a}"[5..6] == "a"
  {
  }

  lemma RepeatedPlaceholders()
    ensures Placeholders("{a}-{a}") == [Span(0, 3), Span(4, 7)]
  {
    var t := "{a}-{a}";
    assert CloseFrom(t, 1) == Some(2);
    assert NextPlaceholder(t, 0) == Some(Span(0, 3));
    assert CloseFrom(t, 5) == Some(6);
    assert NextPlaceholder(t, 3) == Some(Span(4, 7));
    assert NextPlaceholder(t, 7) == None;
    assert SpansFrom(t, 7) == [];
    assert SpansFrom(t, 3) == [Span(4, 7)];
  }

  lemma RepeatedSubstitution()
    ensures ReplaceAll("{a}-{a}", "{a}", "1") == "1-1"
    ensures ReplaceAll("1-1", "{a}", "1") == "1-1"
  {
    RepeatedFirstReplacement();
    NotAt("1-1", "{a}", 0, 0);
    assert FindFrom("1-1", "{a}", 1) == None;
    assert FindFrom("1-1", "{a}", 0) == None;
  }

  lemma RepeatedFirstReplacement()
    ensures ReplaceAll("{a}-{a}", "{a}", "1") == "1-1"
  {
    RepeatedSplit();
    RepeatedJoin();
  }

  lemma RepeatedSplit()
    ensures Split("{a}-{a}", "{a}") == ["", "-", ""]
  {
    var t := "{a}-{a}";
    assert t[0..3] == "{a}";
    assert FindFrom(t, "{a}", 0) == Some(0);
    SplitAt(t, "{a}", 0);
    assert t[..0] == "" && t[3..] == "-{a}";
    RepeatedRestSplit();
  }

  lemma RepeatedJoin()
    ensures Join(["", "-", ""], "1") == "1-1"
  {
    assert ["", "-", ""] == [""] + ["-", ""];
    JoinFirst("", ["-", ""], "1");
    assert ["-", ""] == ["-"] + [""];
    JoinFirst("-", [""], "1");
    assert "" + "1" + ("-" + "1" + "") == "1-1";
  }

  lemma RepeatedRestSplit()
    ensures Split("-{a}", "{a}") == ["-", ""]
  {
    var s1 := "-{a}";
    NotAt(s1, "{a}", 0, 0);
    assert s1[1..4] == "{a}";
    assert FindFrom(s1, "{a}", 1) == Some(1);
    assert FindFrom(s1, "{a}", 0) == Some(1);
    SplitAt(s1, "{a}", 1);
    assert s1[4..] == "" && s1[..1] == "-";
    assert Split("", "{a}") == [""];
  }

  /** Every occurrence is replaced: `"{a}-{a}"` with `a = 1` gives `"1-1"`. */
  lemma RepeatedPlaceholder()
    ensures Evaluate(AnalyzeTemplate("{a}-{a}", None), Some(map["a" := StrV("1")])) == Ok("1-1")
  {
    RepeatedView();
    RepeatedEvaluation(Some(map["a" := StrV("1")]));
  }

  lemma RepeatedView()
    ensures AnalyzeTemplate("{a}-{a}", None) == SegmentView(Some("{a}-{a}"), [Implicit("a"), Implicit("a")], [], [], [])
  {
    var t := "{a}-{a}";
    RepeatedPlaceholders();
    RepeatedLiterals();
    var ps := Placeholders(t);
    assert ImplicitAll(t, ps[1..]) == [Implicit("a")];
    assert ImplicitAll(t, ps) == [Implicit("a"), Implicit("a")];
  }

  lemma RepeatedEvaluation(values: Option<map<string, Value>>)
    requires values == Some(map["a" := StrV("1")])
    ensures Evaluate(SegmentView(Some("{a}-{a}"), [Implicit("a"), Implicit("a")], [], [], []), values) == Ok("1-1")
  {
    var vals := values.value;
    assert ValuesOf(values) == vals;
    RepeatedSubstitution();
    RepeatedLiterals();
    SubstituteOne("1-1", "a", vals, "1");
    SubstitutePresentValue("{a}-{a}", Implicit("a"), [Implicit("a")], vals);
    assert [Implicit("a")] + [Implicit("a")] == [Implicit("a"), Implicit("a")];
    assert MatrixSuffix([], vals) == Ok("");
    EvaluateParts(SegmentView(Some("{a}-{a}"), [Implicit("a"), Implicit("a")], [], [], []), values, "1-1", "");
    assert "1-1" + "" == "1-1";
  }

  /** The name extracted from the constrained placeholder. */
  lemma ConstrainedName()
    ensures IsPlaceholderText("{id: [0-9]+}") && ExtractName("{id: [0-9]+}") == "id"
  {
    assert "{id: [0-9]+}" == "{" + "id" + "" + ":" + " [0-9]+" + "}";
    ExtractNameOfConstrained("id", "", " [0-9]+");
  }

  lemma ConstrainedPlaceholders()
    ensures Placeholders("{id: [0-9]+}") == [Span(0, 12)]
  {
    var t := "{id: [0-9]+}";
    assert CloseFrom(t, 1) == Some(11) by {
      assert t[11] == '}';
      assert forall k :: 1 <= k < 11 ==> t[k] != '}' && !IsLineTerminator(t[k]);
    }
    assert NextPlaceholder(t, 0) == Some(Span(0, 12));
    assert NextPlaceholder(t, 12) == None;
  }

  /** A constrained placeholder `{id: [0-9]+}` is bound to a parameter named
      `id`, but substitution looks only for the bare `{id}`, so the
      placeholder is left in the rendered segment. */
  lemma ConstrainedPlaceholderStays(file: string, resolve: Resolver)
    ensures var r := AnalyzeResource(Resource(Some("{id: [0-9]+}"), []), file, resolve);
      r.Ok? && r.value.templateParameters == [Implicit("id")] &&
      Evaluate(r.value, Some(map["id" := StrV("5")])) == Ok("{id: [0-9]+}")
  {
    ConstrainedView(file, resolve);
    ConstrainedEvaluation(Some(map["id" := StrV("5")]));
  }

  lemma ConstrainedView(file: string, resolve: Resolver)
    ensures AnalyzeResource(Resource(Some("{id: [0-9]+}"), []), file, resolve) ==
      Ok(SegmentView(Some("{id: [0-9]+}"), [Implicit("id")], [], [], []))
  {
    var t := "{id: [0-9]+}";
    ConstrainedPlaceholders();
    assert MatchText(t, Span(0, 12)) == t;
    ConstrainedName();
    assert DerefAll([], file, resolve) == Ok([]);
    assert TemplateTable([]) == map[];
    assert Bind(t, Span(0, 12), map[]) == Implicit("id");
    assert BindAll(t, [Span(0, 12)], map[]) == [Implicit("id")];
    assert WithStyle([], Matrix) == [] && WithStyle([], Query) == [] && WithStyle([], Header) == [];
  }

  lemma ConstrainedEvaluation(values: Option<map<string, Value>>)
    requires values == Some(map["id" := StrV("5")])
    ensures Evaluate(SegmentView(Some("{id: [0-9]+}"), [Implicit("id")], [], [], []), values) == Ok("{id: [0-9]+}")
  {
    var t := "{id: [0-9]+}";
    var vals := values.value;
    assert ValuesOf(values) == vals;
    assert Free(t, Placeholder("id")) by {
      assert Placeholder("id") == "{id}";
      assert forall m :: 1 <= m < 11 ==> t[m] != '}';
      forall k: nat | k + 4 <= |t|
        ensures !OccursAt(t, "{id}", k)
      {
        if k == 8 {
          NotAt(t, "{id}", 8, 0);
        } else {
          NotAt(t, "{id}", k, 3);
        }
      }
    }
    TemplateWithoutPlaceholdersUnchanged(t, [Implicit("id")], vals);
    assert MatrixSuffix([], vals) == Ok("");
    EvaluateParts(SegmentView(Some(t), [Implicit("id")], [], [], []), values, t, "");
    assert t + "" == t;
  }

  /** The segment with an omitted value: names and pieces. */
  lemma OptionalLiterals()
    ensures Placeholder("a") == "{a}" && Placeholder("b") == "{b}"
    ensures "{a}/{b}"[1..2] == "a" && "{a}/{b}"[5..6] == "b"
  {
  }

  lemma OptionalPlaceholders()
    ensures Placeholders("{a}/{b}") == [Span(0, 3), Span(4, 7)]
  {
    var t := "{a}/{b}";
    assert CloseFrom(t, 1) == Some(2);
    assert NextPlaceholder(t, 0) == Some(Span(0, 3));
    assert CloseFrom(t, 5) == Some(6);
    assert NextPlaceholder(t, 3) == Some(Span(4, 7));
    assert NextPlaceholder(t, 7) == None;
    assert SpansFrom(t, 7) == [];
    assert SpansFrom(t, 3) == [Span(4, 7)];
  }

  lemma OptionalView()
    ensures AnalyzeTemplate("{a}/{b}", None) == SegmentView(Some("{a}/{b}"), [Implicit("a"), Implicit("b")], [], [], [])
  {
    var t := "{a}/{b}";
    OptionalPlaceholders();
    OptionalLiterals();
    var ps := Placeholders(t);
    assert ImplicitAll(t, ps[1..]) == [Implicit("b")];
    assert ImplicitAll(t, ps) == [Implicit("a"), Implicit("b")];
  }

  lemma OptionalFirstReplacement()
    ensures ReplaceAll("{a}/{b}", "{a}", "x") == "x/{b}"
  {
    var t := "{a}/{b}";
    assert t[0..3] == "{a}";
    assert FindFrom(t, "{a}", 0) == Some(0);
    SplitAt(t, "{a}", 0);
    assert t[..0] == "" && t[3..] == "/{b}";
    OptionalRestKeepsSecond();
    assert Split(t, "{a}") == ["", "/{b}"];
  }

  lemma OptionalRestKeepsSecond()
    ensures Split("/{b}", "{a}") == ["/{b}"]
  {
    NotAt("/{b}", "{a}", 0, 0);
    NotAt("/{b}", "{a}", 1, 1);
    assert FindFrom("/{b}", "{a}", 2) == None;
    assert FindFrom("/{b}", "{a}", 1) == None;
    assert FindFrom("/{b}", "{a}", 0) == None;
  }

  lemma OptionalSecondReplacement()
    ensures ReplaceAll("x/{b}", "{b}", "") == "x/"
  {
    var s1 := "x/{b}";
    NotAt(s1, "{b}", 0, 0);
    NotAt(s1, "{b}", 1, 0);
    assert s1[2..5] == "{b}";
    assert FindFrom(s1, "{b}", 2) == Some(2);
    assert FindFrom(s1, "{b}", 1) == Some(2);
    assert FindFrom(s1, "{b}", 0) == Some(2);
    SplitAt(s1, "{b}", 2);
    assert s1[5..] == "" && s1[..2] == "x/";
    assert Split("", "{b}") == [""];
    assert Split(s1, "{b}") == ["x/", ""];
  }

  lemma OptionalEvaluation(values: Option<map<string, Value>>)
    requires values == Some(map["a" := StrV("x")])
    ensures Evaluate(SegmentView(Some("{a}/{b}"), [Implicit("a"), Implicit("b")], [], [], []), values) == Ok("x/")
  {
    var vals := values.value;
    assert ValuesOf(values) == vals;
    OptionalLiterals();
    OptionalFirstReplacement();
    OptionalSecondReplacement();
    SubstituteAbsentOptional("x/{b}", Implicit("b"), [], vals);
    assert [Implicit("b")] + [] == [Implicit("b")];
    SubstitutePresentValue("{a}/{b}", Implicit("a"), [Implicit("b")], vals);
    assert [Implicit("a")] + [Implicit("b")] == [Implicit("a"), Implicit("b")];
    assert MatrixSuffix([], vals) == Ok("");
    EvaluateParts(SegmentView(Some("{a}/{b}"), [Implicit("a"), Implicit("b")], [], [], []), values, "x/", "");
    assert "x/" + "" == "x/";
  }

  /** An optional template parameter without a value is replaced by the
      empty string: `"{a}/{b}"` with only `a = x` gives `"x/"`. */
  lemma OptionalValueOmitted()
    ensures Evaluate(AnalyzeTemplate("{a}/{b}", None), Some(map["a" := StrV("x")])) == Ok("x/")
  {
    OptionalView();
    OptionalEvaluation(Some(map["a" := StrV("x")]));
  }
}
