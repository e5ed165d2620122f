# WADL path segments in Dafny

This project models `PathSegment`, the path-segment template engine of the WADL
tooling (`org.jvnet.ws.wadl.ast.PathSegment`). A path segment is a template
such as `{p1}/{p2}`. It carries four lists of WADL `param` declarations:
template, matrix, query and header parameters. The engine has three parts:

- **Template analysis.** There are three constructors. The string constructor
  takes a template and a list of matrix-parameter names. The `Resource`
  constructor reads a resource declaration; the `ResourceType` constructor reads a
  resource-type declaration.
  - The string constructor and the `Resource` constructor scan the template
    for lazy `{...}` placeholders. The `ResourceType` constructor has no
    template and scans nothing.
  - The string constructor makes a fresh param for each placeholder, named by
    the text between the braces.
  - The `Resource` and `ResourceType` constructors sort the declared params by
    style.
  - Only the `Resource` constructor binds a placeholder to a declared
    template-style param. When no such declaration has the name, it makes a
    fresh param that carries only the name.
  - The resource constructor takes the name from a placeholder with the pattern
    `(\{(\w*)(\s*:.*?)?\})` and the replacement `$2`, so `{id: [0-9]+}` is bound
    to `id`.
- **Reference dereferencing.** `derefIfRequired` returns a param as it is when its
  `href` is null or empty. Otherwise it asks an external resolver, which may
  fail. It may also return null, and then the param is skipped.
- **Evaluation.** `evaluate` substitutes values into the template. It then appends
  the matrix parameters as `;name` or `;name=value`, following the
  segment-parameter convention of section 3.3 of RFC 3986.

The project has these modules:

- `Params` (`params.dfy`): the `Param` declaration and the runtime `Value`.
- `Scanner` (`scanner.dfy`): a hand-written matcher for the regular expression
  `\{.*?\}`, the `find()` loop, and the `$2` name extraction.
- `Replace` (`replace.dfy`): `String.replaceAll` with a literal pattern and a
  literal replacement.
- `Analysis` (`analysis.dfy`): the three constructors and `derefIfRequired` as
  functions on a value view of a segment (`SegmentView`).
- `Evaluation` (`evaluation.dfy`): `evaluate` as a function.
- `PathSegments` (`path_segment.dfy`): the `PathSegment` class.
  - Its constructor and factory methods fill the fields in loops.
  - Its `Evaluate` method rebuilds the string in two loops.
  - Each method is proved equal to the functional specification above.
- `Scenarios` (`scenarios.dfy`): the documented example, two quirks and an
  omitted optional value, worked through.

Java `null` becomes `None` (an absent attribute, a null map or a null
resolver answer). A thrown `InvalidWADLException` or `IllegalArgumentException`
becomes an `Err` result. The resolver and the WADL file URI are parameters:
`resolve` is any function `(file, href, param) -> Result<Option<Param>, InvalidWadl>`.

Name extraction does no trimming. The name is the run of `\w` characters
right after the `{`. It is followed by optional white space, then a `:` and a
constraint, or the closing `}`. A placeholder the name pattern does not match
keeps its whole text, braces included. For example, in `{ id }` the space
before `id` stops the `\w*` group from reaching a `:` or the `}`, so the name is
`{ id }` itself (`Scanner.ExtractNameKeepsSpacedText`).

## Model

| member | source | states |
|---|---|---|
| Scanner.CloseFrom | wadl/wadl-core/src/main/java/org/jvnet/ws/wadl/ast/PathSegment.java:85-87 | where the lazy `.*?` stops is a `}` with no `}` or line terminator before it |
| Scanner.CloseFromNone | wadl/wadl-core/src/main/java/org/jvnet/ws/wadl/ast/PathSegment.java:85-87 | when the lazy scan finds no end, no later `}` can close a match from that point |
| Scanner.NextPlaceholder | wadl/wadl-core/src/main/java/org/jvnet/ws/wadl/ast/PathSegment.java:85-87 | each `matcher.find()` result is a placeholder match at or after the search position |
| Scanner.NextPlaceholderIsLeftmost | wadl/wadl-core/src/main/java/org/jvnet/ws/wadl/ast/PathSegment.java:85-87 | `find()` returns the leftmost match: no placeholder starts before it, and when nothing is found none starts anywhere after the position |
| Scanner.SpansFrom | wadl/wadl-core/src/main/java/org/jvnet/ws/wadl/ast/PathSegment.java:85-93 | every match the `find()` loop visits is a placeholder, and the matches are in order and do not overlap |
| Scanner.SpansCoverEveryPlaceholder | wadl/wadl-core/src/main/java/org/jvnet/ws/wadl/ast/PathSegment.java:137-139 | nothing is skipped: every position where a placeholder could start lies inside one of the matches found |
| Scanner.NoBraceNoPlaceholders | wadl/wadl-core/src/main/java/org/jvnet/ws/wadl/ast/PathSegment.java:85-87 | a template without `{` has no placeholder matches |
| Scanner.RunLengthOfRun | wadl/wadl-core/src/main/java/org/jvnet/ws/wadl/ast/PathSegment.java:48 | a greedy `\w*` or `\s*` consumes exactly the leading run of its class |
| Scanner.FirstNameMatch | wadl/wadl-core/src/main/java/org/jvnet/ws/wadl/ast/PathSegment.java:48 | the name pattern's search returns its leftmost match position, or nothing when no position matches |
| Scanner.Placeholders | wadl/wadl-core/src/main/java/org/jvnet/ws/wadl/ast/PathSegment.java:85-93 | the matches the `find()` loop visits from the start of the template are placeholders, in order and not overlapping |
| Scanner.ExtractName | wadl/wadl-core/src/main/java/org/jvnet/ws/wadl/ast/PathSegment.java:147-148 | the text comes back whole exactly when the name pattern matches nowhere in it; otherwise the text before the match is kept and the match is replaced by word characters only, so the result is shorter, has no `}` and keeps nothing of a `:` constraint (`ExtractNameOfBare` and `ExtractNameOfConstrained` give the name itself) |
| Scanner.ExtractNameOfBare | wadl/wadl-core/src/main/java/org/jvnet/ws/wadl/ast/PathSegment.java:147-148 | `{w}` with word characters `w` is a placeholder, and the extracted name is `w` |
| Scanner.ExtractNameOfConstrained | wadl/wadl-core/src/main/java/org/jvnet/ws/wadl/ast/PathSegment.java:147-148 | `{w  : c}` (word characters, spaces, a colon, a constraint) is a placeholder, and the extracted name is `w` |
| Scanner.ExtractNameKeepsSpacedText | wadl/wadl-core/src/main/java/org/jvnet/ws/wadl/ast/PathSegment.java:48 | with a space before the name the pattern does not match, and `{ id }` is returned whole, braces included |
| Replace.FindFrom | wadl/wadl-core/src/main/java/org/jvnet/ws/wadl/ast/PathSegment.java:281-282 | the search result is an occurrence of the pattern at or after the start |
| Replace.FindFromIsLeftmost | wadl/wadl-core/src/main/java/org/jvnet/ws/wadl/ast/PathSegment.java:281-282 | no occurrence lies before the one found, and there is none when nothing is found |
| Replace.SplitJoinRoundTrip | wadl/wadl-core/src/main/java/org/jvnet/ws/wadl/ast/PathSegment.java:281-282 | splitting at the occurrences and joining with the pattern gives the string back, so `replaceAll` changes only the occurrences |
| Replace.SplitPiecesAreFree | wadl/wadl-core/src/main/java/org/jvnet/ws/wadl/ast/PathSegment.java:281-282 | no piece between replacements contains the pattern, so every occurrence is replaced |
| Replace.ReplaceAll | wadl/wadl-core/src/main/java/org/jvnet/ws/wadl/ast/PathSegment.java:281-282 | a string without the pattern is returned unchanged, whatever the replacement |
| Analysis.Deref | wadl/wadl-core/src/main/java/org/jvnet/ws/wadl/ast/PathSegment.java:202-208 | only a non-empty `href` can make the result differ from the param itself |
| Analysis.DerefAll | wadl/wadl-core/src/main/java/org/jvnet/ws/wadl/ast/PathSegment.java:122-125 | when the declaration loop succeeds, every dereference succeeded and at most one param is kept per declaration |
| Analysis.DerefSkipsResolverIff | wadl/wadl-core/src/main/java/org/jvnet/ws/wadl/ast/PathSegment.java:202-208 | the param comes back unchanged for every resolver exactly when `href` is null or empty; otherwise the result is the resolver's answer, failures included |
| Analysis.DerefAllConcat | wadl/wadl-core/src/main/java/org/jvnet/ws/wadl/ast/PathSegment.java:122-125 | dereferencing `a + b` is dereferencing `a`, then `b`, and the first failure wins |
| Analysis.NullDerefIsSkipped | wadl/wadl-core/src/main/java/org/jvnet/ws/wadl/ast/PathSegment.java:123-125 | a declaration that dereferences to null leaves the outcome as if it were absent |
| Analysis.FirstDerefFailureAborts | wadl/wadl-core/src/main/java/org/jvnet/ws/wadl/ast/PathSegment.java:122-123 | the first declaration whose resolver call fails makes the constructor fail with that error |
| Analysis.DerefPrefixOk | wadl/wadl-core/src/main/java/org/jvnet/ws/wadl/ast/PathSegment.java:122-123 | when every dereference succeeds, the declaration loop succeeds |
| Analysis.TemplateTable | wadl/wadl-core/src/main/java/org/jvnet/ws/wadl/ast/PathSegment.java:126-127 | every entry of the path-parameter table is a template-style param stored under its own name |
| Analysis.TemplateTableLastWins | wadl/wadl-core/src/main/java/org/jvnet/ws/wadl/ast/PathSegment.java:121-127 | a name is in the table if and only if a template-style declaration has it, and its entry is the last such declaration |
| Analysis.WithStyle | wadl/wadl-core/src/main/java/org/jvnet/ws/wadl/ast/PathSegment.java:128-133 | a style's list holds only kept declarations of that style |
| Analysis.WithStyleKeepsAll | wadl/wadl-core/src/main/java/org/jvnet/ws/wadl/ast/PathSegment.java:128-133 | every kept declaration of that style is in the style's list |
| Analysis.WithStyleConcat | wadl/wadl-core/src/main/java/org/jvnet/ws/wadl/ast/PathSegment.java:128-133 | a style's list is built in declaration order: the list for `a + b` is that for `a` followed by that for `b` |
| Analysis.MatchTextIsPlaceholder | wadl/wadl-core/src/main/java/org/jvnet/ws/wadl/ast/PathSegment.java:139-140 | the text of a match, `matcher.group()`, is a whole placeholder on its own |
| Analysis.ImplicitAllAt | wadl/wadl-core/src/main/java/org/jvnet/ws/wadl/ast/PathSegment.java:87-93 | the string constructor makes one param per match, and the k-th is named by the text between the braces of the k-th match |
| Analysis.BindAllAt | wadl/wadl-core/src/main/java/org/jvnet/ws/wadl/ast/PathSegment.java:139-159 | the resource constructor makes one param per match, and the k-th is the binding of the k-th match |
| Analysis.MatrixNamedAllAt | wadl/wadl-core/src/main/java/org/jvnet/ws/wadl/ast/PathSegment.java:95-101 | the k-th matrix param is a MATRIX-style param named by the k-th supplied name |
| Analysis.Bind | wadl/wadl-core/src/main/java/org/jvnet/ws/wadl/ast/PathSegment.java:147-158 | a placeholder is bound to a param from the path-parameter table, or to a fresh param that carries only a name |
| Analysis.AnalyzeTemplate | wadl/wadl-core/src/main/java/org/jvnet/ws/wadl/ast/PathSegment.java:77-103 | string constructor: the template is kept, one template param per placeholder, one matrix param per name (none for a null list), no query or header params |
| Analysis.AnalyzeResource | wadl/wadl-core/src/main/java/org/jvnet/ws/wadl/ast/PathSegment.java:113-160 | resource constructor: the template is the path (`""` when null), one template param per placeholder, and the matrix, query and header lists hold only params of their own style |
| Analysis.AnalyzeResourceType | wadl/wadl-core/src/main/java/org/jvnet/ws/wadl/ast/PathSegment.java:170-191 | resource-type constructor: no template, no template params, and the matrix, query and header lists hold only params of their own style |
| Analysis.TemplateSegmentShape | wadl/wadl-core/src/main/java/org/jvnet/ws/wadl/ast/PathSegment.java:77-103 | string constructor: one param per match, in order, named by the raw text between the braces; one MATRIX param per name, in order; no matrix list gives none; query and header lists are empty |
| Analysis.ResourceBinding | wadl/wadl-core/src/main/java/org/jvnet/ws/wadl/ast/PathSegment.java:114-159 | resource constructor: one param per match, named by the extracted name; it is the last template-style declaration with that name, else a fresh param with only that name (a null path is `""`) |
| Analysis.ResourceSorting | wadl/wadl-core/src/main/java/org/jvnet/ws/wadl/ast/PathSegment.java:120-134 | a param is in the matrix, query or header list if and only if it is a kept declaration of that style; template-style params are in none of them |
| Analysis.ResourceTypeShape | wadl/wadl-core/src/main/java/org/jvnet/ws/wadl/ast/PathSegment.java:170-189 | resource-type constructor: no template, no template params; the matrix, query and header lists are those the resource constructor builds from the same declarations, and hold no template-style param |
| Evaluation.TemplateValue | wadl/wadl-core/src/main/java/org/jvnet/ws/wadl/ast/PathSegment.java:276-280 | the value for one template param is an error exactly when it is absent and required, and that error is a missing-template-value error for its name (the text substituted otherwise is stated by the two rows below) |
| Evaluation.SubstitutePresentValue | wadl/wadl-core/src/main/java/org/jvnet/ws/wadl/ast/PathSegment.java:274-282 | for a param with a value, one step of the template loop replaces every `{name}` by the value's string form and goes on with the next param |
| Evaluation.SubstituteAbsentOptional | wadl/wadl-core/src/main/java/org/jvnet/ws/wadl/ast/PathSegment.java:274-282 | for an optional param without a value, one step of the template loop replaces every `{name}` by the empty string and goes on with the next param |
| Evaluation.Substitute | wadl/wadl-core/src/main/java/org/jvnet/ws/wadl/ast/PathSegment.java:272-283 | the template loop fails exactly when some template param is absent and required, and then with a missing-template-value error |
| Evaluation.Contribution | wadl/wadl-core/src/main/java/org/jvnet/ws/wadl/ast/PathSegment.java:289-309 | one matrix param fails exactly when it is absent and required; a non-empty contribution starts with `;` and the name |
| Evaluation.MatrixSuffix | wadl/wadl-core/src/main/java/org/jvnet/ws/wadl/ast/PathSegment.java:285-310 | the matrix loop fails exactly when some matrix param is absent and required, and then with a missing-matrix-value error |
| Evaluation.Evaluate | wadl/wadl-core/src/main/java/org/jvnet/ws/wadl/ast/PathSegment.java:268-312 | `evaluate` fails exactly when some template or matrix param is absent and required |
| Evaluation.MissingTemplateValueFails | wadl/wadl-core/src/main/java/org/jvnet/ws/wadl/ast/PathSegment.java:276-280 | a required template param without a value makes the template loop fail with a missing-template-value error |
| Evaluation.MissingMatrixValueFails | wadl/wadl-core/src/main/java/org/jvnet/ws/wadl/ast/PathSegment.java:289-293 | a required matrix param without a value makes the matrix loop fail with a missing-matrix-value error |
| Evaluation.MissingRequiredValueFails | wadl/wadl-core/src/main/java/org/jvnet/ws/wadl/ast/PathSegment.java:268-293 | a required template or matrix param without a value makes `evaluate` fail |
| Evaluation.MatrixSuffixConcat | wadl/wadl-core/src/main/java/org/jvnet/ws/wadl/ast/PathSegment.java:285-310 | the matrix suffix of `a + b` is that of `a` followed by that of `b`, and the first error wins |
| Evaluation.MatrixSuffixSnoc | wadl/wadl-core/src/main/java/org/jvnet/ws/wadl/ast/PathSegment.java:285-310 | one more matrix param appends its own contribution, or fails with its own error |
| Evaluation.EvaluateAppendedMatrixParam | wadl/wadl-core/src/main/java/org/jvnet/ws/wadl/ast/PathSegment.java:284-311 | the result is the substituted template followed by the matrix contributions in list order |
| Evaluation.AppendedMatrixParam | wadl/wadl-core/src/main/java/org/jvnet/ws/wadl/ast/PathSegment.java:289-309 | `true` appends `;name`, `false` nothing, a null value nothing (even when required), another value `;name=v`, an absent optional param nothing, an absent required one an error |
| Evaluation.TemplateWithoutPlaceholdersUnchanged | wadl/wadl-core/src/main/java/org/jvnet/ws/wadl/ast/PathSegment.java:272-283 | a template with no `{name}` of any parameter comes out of the template loop unchanged |
| Evaluation.QueryAndHeaderIgnored | wadl/wadl-core/src/main/java/org/jvnet/ws/wadl/ast/PathSegment.java:262-311 | the query and header lists never affect the result |
| PathSegments.PathSegment.EmbeddedParams | wadl/wadl-core/src/main/java/org/jvnet/ws/wadl/ast/PathSegment.java:85-93 | the matcher loop of the string constructor builds one implicit param per match, in order |
| PathSegments.PathSegment.MatrixParams | wadl/wadl-core/src/main/java/org/jvnet/ws/wadl/ast/PathSegment.java:95-102 | the name loop builds one MATRIX param per name, in order |
| PathSegments.PathSegment.BoundParams | wadl/wadl-core/src/main/java/org/jvnet/ws/wadl/ast/PathSegment.java:137-159 | the matcher loop of the resource constructor binds each match to the table entry of its extracted name, else to a fresh param |
| PathSegments.PathSegment.Init | wadl/wadl-core/src/main/java/org/jvnet/ws/wadl/ast/PathSegment.java:114-118 | a new segment has the given template and four empty lists |
| PathSegments.PathSegment.FromTemplate | wadl/wadl-core/src/main/java/org/jvnet/ws/wadl/ast/PathSegment.java:77-103 | the constructed segment's fields are the string-constructor analysis of the template and names |
| PathSegments.PathSegment.CollectResourceParams | wadl/wadl-core/src/main/java/org/jvnet/ws/wadl/ast/PathSegment.java:120-134 | the declaration loop fails with the first resolver failure; otherwise it returns the last-wins template table and sets the three style lists of the kept declarations |
| PathSegments.PathSegment.FromResource | wadl/wadl-core/src/main/java/org/jvnet/ws/wadl/ast/PathSegment.java:113-160 | the resource constructor fails exactly when the analysis fails, with the same error; otherwise it gives a fresh segment whose fields are the analysis |
| PathSegments.PathSegment.CollectResourceTypeParams | wadl/wadl-core/src/main/java/org/jvnet/ws/wadl/ast/PathSegment.java:177-189 | the resource-type declaration loop fails with the first resolver failure; otherwise it sets the three style lists of the kept declarations |
| PathSegments.PathSegment.FromResourceType | wadl/wadl-core/src/main/java/org/jvnet/ws/wadl/ast/PathSegment.java:170-191 | the resource-type constructor fails exactly when the analysis fails; otherwise it gives a fresh segment whose fields are the analysis |
| PathSegments.PathSegment.Evaluate | wadl/wadl-core/src/main/java/org/jvnet/ws/wadl/ast/PathSegment.java:268-312 | the two loops compute the evaluation function: the substituted template followed by the matrix contributions, or the first missing-value error |
| Scenarios.DocumentedExample | wadl/wadl-core/src/main/java/org/jvnet/ws/wadl/ast/PathSegment.java:257-262 | `{p1}/{p2}` with matrix param `p3` and values `v1`, `v2`, `v3` evaluates to `v1/v2;p3=v3` |
| Scenarios.RepeatedPlaceholder | wadl/wadl-core/src/main/java/org/jvnet/ws/wadl/ast/PathSegment.java:281-282 | every occurrence is replaced: `{a}-{a}` with `a = 1` evaluates to `1-1` |
| Scenarios.ConstrainedPlaceholderStays | wadl/wadl-core/src/main/java/org/jvnet/ws/wadl/ast/PathSegment.java:281-282 | `{id: [0-9]+}` is bound to `id`, but substitution looks only for `{id}`, so the placeholder stays in the output |
| Scenarios.OptionalValueOmitted | wadl/wadl-core/src/main/java/org/jvnet/ws/wadl/ast/PathSegment.java:274-282 | an optional template param without a value is replaced by the empty string: `{a}/{b}` with only `a = x` evaluates to `x/` |

## Left out

- Full `java.util.regex`: only the three patterns the engine uses are modelled. These are the lazy `\{.*?\}` scan, the name pattern with `$2`, and the literal `\{name\}` substitution.
- PathSegments.PathSegment.Evaluate: requires `WithinModel`, so it says nothing about the inputs where Java does not do a literal replace. On those inputs Java throws or substitutes something else:
  - A template param name with a regular-expression metacharacter is compiled as part of a pattern. A name containing `{` (for example the text `{ id }` kept by name extraction) makes `Pattern.compile` throw `PatternSyntaxException`, so such a segment cannot be evaluated at all in Java.
  - A template value containing `$` or `\` is read as replacement syntax, and `replaceAll` can throw.
  - A template value that is present but null throws a null-reference exception at its `toString()`.
  - A null template (a resource-type segment) throws a null-reference exception.
- Evaluation.Evaluate: requires only a present template, and on the inputs above it does not match Java. It treats names and values literally: a name containing `{` leaves the text unchanged and gives `Ok`, a `$` or `\` is inserted as it is, and a present null template value is substituted as `"null"`. Where Java throws instead, the lemmas about it (`Evaluation.MissingRequiredValueFails`, `Evaluation.EvaluateAppendedMatrixParam`, `Evaluation.AppendedMatrixParam`, `Evaluation.QueryAndHeaderIgnored`) describe the literal model, not Java; `PathSegments.PathSegment.Evaluate` connects them to Java only within `WithinModel`.
- A null-reference exception from a null template passed to the string constructor: the template is a `string`, never null.
- The WADL schema types `Param`, `Resource` and `ResourceType`: only the attributes the engine reads are modelled (name, style, required, href, path, child params). Object identity of params is not modelled; a bound param is the declaration value itself.
- `ElementResolver` and the file `URI`: `ElementResolver` is not part of this model. Both are parameters, and the resolver is any function that may fail or return nothing.
- The text of `AstMessages` errors: an error carries only its kind and the param name.
- `toString()` of arbitrary objects: a value is a boolean, a string standing for its `toString()` text, or null.
- The four getters: they return the fields, which the class exposes as `View()`.
- Update in place: Java appends directly to the field lists inside the loops. The model's methods build local lists and assign the fields after the loop, so a reader never sees half-filled lists in the model. The resource constructor's failure leaves a partly filled object in Java; in the model the failed factory returns only the error.
