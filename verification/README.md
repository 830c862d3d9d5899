# cljs-devtools templating, modelled in Dafny

This project models the templating engine of cljs-devtools
(`devtools.formatters.templating`, here in its compiled JavaScript form
`docs/js/out/devtools/formatters/templating.js`). The engine turns loosely
typed markup into the nodes a browser's custom-formatter host paints:

- groups: host arrays carrying the group mark;
- templates: `[tag, attributes, children...]` arrays carrying the template mark;
- surrogates: `{target, header, body, startIndex}` records carrying the surrogate mark;
- references: groups whose element 0 is `"object"`.

Markup can mix literals, preference keywords, deferred functions and nested
ClojureScript vectors.

The model has four modules:

- `Values` (`values.dfy`): one `Value` datatype. It covers nil, booleans, numbers,
  strings, keywords, host functions, ClojureScript sequential collections, host
  arrays with their set of marks, plain host objects and the surrogate record.
  It also holds the mark tests (`group?`, `template?`, `surrogate?`,
  `reference?`), ClojureScript truthiness, and the `Host` record that stands
  for the engine's collaborators.
- `Results` (`results.dfy`): the failures the engine raises, a `Result` type,
  and the diagnostic context (render stack and render path).
- `Constructors` (`constructors.dfy`): make-group, make-template,
  concat-templates!, extend-template!, make-surrogate and its four accessors,
  and make-reference.
- `Interpreter` (`interpreter.dfy`): render-json-ml\*, render-special,
  render-subtree, emptyish?, surrogate-markup?, render-json-ml, and the
  resolution loop render-markup\*.

The engine's collaborators become fields of `Host`:

- `pref` is the preference lookup `helpers.pref`;
- `call` invokes a host function;
- `currentState` is `state.get_current_state()`.

Where a property depends on how `pref` behaves, the lemma states that as a
requirement. One such requirement is that `pref` leaves non-keywords alone
(`PrefFixesNonKeywords`). Another is that `pref("object")` is `"object"`.

The render stack and render path are dynamic variables in the engine. In the
model they are a `Ctx` value. Each rendering call takes a `Ctx` and hands back
the context as it stands once the call has returned. Each binding saves the
caller's context and restores it on exit, as the `finally` blocks do.
`RenderAll` renders siblings one after another, and each sibling gets the
context its predecessor left. So the proof that the context is restored after
every call, including failed ones, is inductive.

Markup failures record the path and stack current when they were raised. The
contracts state how those records extend the caller's context.

Behaviours of the code worth noting, all of which the model follows:

- extend-template! is not the same operation as concat-templates!. It hands its
  whole argument list over as one template, so each argument becomes one
  element (lines 358-359).
- surrogate-markup? compares the raw first element with `"surrogate"`. It does
  not compare the resolved one (line 537).
- make-template keeps a scalar child only when its resolved value is truthy. So
  `false` is dropped as well as nil (line 222).
- A start index of `false` becomes 0, the same as nil (line 411).
- make-group splices a collection's elements as they are, without resolving
  them (line 115).
- `empty?` and `into-array` throw on values `seq` does not accept, such as
  numbers, keywords and plain objects. So make-template fails when the resolved
  style is one of those (line 209). concat-templates! fails the same way
  (line 325). The model has a `NotSeqable` failure for both.
- render-special calls make-surrogate through `apply`. More than four arguments
  hit the arity error at line 392. The model calls this `InvalidArity`.

## Model

| member | source | states |
|---|---|---|
| Values.MarkAs | docs/js/out/devtools/formatters/templating.js:10-75 | marking keeps the array's elements; the marked value passes exactly the tests it passed before plus the one for the new mark |
| Values.MarkingAGroup | docs/js/out/devtools/formatters/templating.js:76-83 | a group-marked array is a reference exactly when its element 0 is "object"; the group mark leaves the template and surrogate tests unchanged |
| Constructors.MakeGroup | docs/js/out/devtools/formatters/templating.js:104-176 | the result is a group-marked array and is neither a template nor a surrogate |
| Constructors.MakeGroupAppend | docs/js/out/devtools/formatters/templating.js:104-176 | items are processed in order: the group of a + b is the group of a followed by the group of b |
| Constructors.MakeGroupSingle | docs/js/out/devtools/formatters/templating.js:112-119 | a nil item adds nothing, a collection item adds its elements unresolved, any other item adds its resolved preference |
| Constructors.MakeGroupMembers | docs/js/out/devtools/formatters/templating.js:104-176 | a value is in the group exactly when some item contributes it |
| Constructors.MakeGroupExample | docs/js/out/devtools/formatters/templating.js:104-176 | make-group(1, [2 3], nil, 4) is the flat group [1, 2, 3, 4] |
| Constructors.BuildGroup | docs/js/out/devtools/formatters/templating.js:104-176 | the push loop over the items builds the same group |
| Constructors.KeepPref | docs/js/out/devtools/formatters/templating.js:219 | keep with pref never yields nil and never yields more elements than it was given |
| Constructors.KeepPrefMembers | docs/js/out/devtools/formatters/templating.js:219 | a value is kept exactly when it is not nil and is the resolved preference of some element |
| Constructors.TemplateChildren | docs/js/out/devtools/formatters/templating.js:210-287 | the children make-template appends never include nil |
| Constructors.MakeTemplate | docs/js/out/devtools/formatters/templating.js:206-290 | succeeds exactly when the resolved style is seqable, otherwise fails naming it; the result is a template-marked array that starts with the resolved tag; element 1 is `{}` when the resolved style is empty and `{"style": style}` otherwise; no child is nil |
| Constructors.MakeTemplateElements | docs/js/out/devtools/formatters/templating.js:206-290 | a template's elements are the resolved tag, the attributes object, and the children's contributions in order |
| Constructors.MakeTemplateAppend | docs/js/out/devtools/formatters/templating.js:210-287 | children are processed in order: the children of a + b are those of a followed by those of b |
| Constructors.MakeTemplateSingle | docs/js/out/devtools/formatters/templating.js:216-229 | a nil child adds nothing; a collection adds its non-nil resolved elements; a scalar adds its resolved value only when that value is truthy |
| Constructors.IntoArray | docs/js/out/devtools/formatters/templating.js:325 | into-array succeeds exactly on seqable values; it yields the elements of an array or collection, the one-character strings of a string, and nothing for nil |
| Constructors.AppendedElements | docs/js/out/devtools/formatters/templating.js:325 | the appended elements exist exactly when every resolved template is seqable |
| Constructors.ConcatTemplates | docs/js/out/devtools/formatters/templating.js:324-326 | succeeds exactly when every resolved template is seqable; the result is a new template-marked array that begins with the given template's elements |
| Constructors.ConcatTemplatesInSteps | docs/js/out/devtools/formatters/templating.js:324-326 | appending a + b at once equals appending a and then appending b to that result |
| Constructors.ConcatTemplatesSingle | docs/js/out/devtools/formatters/templating.js:324-326 | a template resolving to nil adds nothing; an array or collection adds its elements; a string adds its characters |
| Constructors.ExtendTemplate | docs/js/out/devtools/formatters/templating.js:358-360 | the result is a template-marked array that begins with the given template's elements |
| Constructors.ExtendTemplateAppendsArgs | docs/js/out/devtools/formatters/templating.js:338-360 | each argument becomes exactly one element, in order; with no arguments the elements are unchanged |
| Constructors.ExtendDiffersFromConcat | docs/js/out/devtools/formatters/templating.js:324-360 | concat-templates! splices a collection while extend-template! appends it whole |
| Constructors.MakeSurrogate | docs/js/out/devtools/formatters/templating.js:372-419 | succeeds exactly with at most three optional arguments, otherwise fails with the arity; the result is surrogate-marked, and neither a template nor a group |
| Constructors.GetSurrogateTarget | docs/js/out/devtools/formatters/templating.js:423-430 | succeeds exactly on surrogates; anything else fails the surrogate assertion |
| Constructors.GetSurrogateHeader | docs/js/out/devtools/formatters/templating.js:431-438 | succeeds exactly on surrogates; anything else fails the surrogate assertion |
| Constructors.GetSurrogateBody | docs/js/out/devtools/formatters/templating.js:439-446 | succeeds exactly on surrogates; anything else fails the surrogate assertion |
| Constructors.GetSurrogateStartIndex | docs/js/out/devtools/formatters/templating.js:447-454 | succeeds exactly on surrogates; anything else fails the surrogate assertion |
| Constructors.SurrogateRoundTrip | docs/js/out/devtools/formatters/templating.js:397-454 | the accessors return what make-surrogate was given; a missing header or body reads as nil; a missing, nil or false start index reads as 0; any other start index, 0 included, reads back as given |
| Constructors.MakeReference | docs/js/out/devtools/formatters/templating.js:475-489 | an override that is neither nil nor a function fails the assertion before the target is looked at; the only other failure is an unseqable nil-style; a non-nil target yields a group, and that group is a reference exactly when "object" resolves to itself |
| Constructors.MakeReferenceOfNil | docs/js/out/devtools/formatters/templating.js:483-484 | a nil target yields make-template(:span, :nil-style, :nil-label), whichever valid override is given |
| Constructors.MakeReferenceContents | docs/js/out/devtools/formatters/templating.js:485-488 | a reference is ["object", {object, config}]; config is the current state, or the override applied to the current state |
| Interpreter.RemoveEmptyish | docs/js/out/devtools/formatters/templating.js:559-570 | what is kept comes from the input and is never emptyish, and there is no more of it than of the input |
| Interpreter.RemoveEmptyishFilters | docs/js/out/devtools/formatters/templating.js:559-570 | a value is kept exactly when it is in the input and is not emptyish; an input with nothing emptyish is kept whole |
| Interpreter.RenderAll | docs/js/out/devtools/formatters/templating.js:570 | succeeds exactly when every child renders with render-json-ml\*, and then output i is child i rendered; on failure the answer is the failure of the first child that fails; the context is restored after every sibling |
| Interpreter.RenderSpecial | docs/js/out/devtools/formatters/templating.js:539-558 | any name other than "surrogate" or "reference" fails with a markup error naming it; "surrogate" keeps the target raw; results are nodes; the context is restored |
| Interpreter.RenderSubtree | docs/js/out/devtools/formatters/templating.js:566-571 | succeeds exactly when every kept child renders and the resolved style is seqable; the result is the template headed by the resolved html tag, with the attributes of the resolved style, whose children are the contributions of the rendered kept children; a failing child is reported before an unseqable style; the context is restored |
| Interpreter.RenderTree | docs/js/out/devtools/formatters/templating.js:572-592 | non-sequential markup comes back unchanged; sequential markup yields a template, a surrogate or an object group; a first element resolving to neither a string nor a sequential value is the invalid-markup error at the caller's path extended by that element; every markup failure records that extended path and the caller's stack; the path is restored on every exit |
| Interpreter.RenderTreeDispatch | docs/js/out/devtools/formatters/templating.js:579-584 | sequential markup whose first element resolves to a string is render-special of that name on the rest; one whose first element resolves to a sequential value is render-subtree of that pair on the rest; both run with the first element on the path |
| Interpreter.RenderJsonMl | docs/js/out/devtools/formatters/templating.js:593-604 | markup failures record the markup pushed on the stack and the render-json-ml breadcrumb on the path; both are restored on exit, on failure too |
| Interpreter.RenderMarkupStep | docs/js/out/devtools/formatters/templating.js:609-651 | answers only templates, surrogates or references; returns such a value unchanged; any other literal fails naming the initial and the resolved value; a markup failure's stack is the caller's stack with one more frame, a sequential one, and its path extends the caller's path by the render-json-ml breadcrumb |
| Interpreter.RenderMarkup | docs/js/out/devtools/formatters/templating.js:652-654 | starts from an empty stack and path and leaves them empty; answers only templates, surrogates or references; returns such a value unchanged; other literals fail |
| Interpreter.RenderMarkupLoop | docs/js/out/devtools/formatters/templating.js:609-651 | the while loop computes the same outcome as the recursive resolution |
| Interpreter.SubtreeSkipsEmptyish | docs/js/out/devtools/formatters/templating.js:559-571 | a child whose resolved value is emptyish changes neither the result nor the failure of render-subtree, wherever it stands |
| Interpreter.RenderedNodeIsTerminal | docs/js/out/devtools/formatters/templating.js:632-640 | when "object" resolves to itself, every node the interpreter yields is a template, surrogate or reference |
| Interpreter.SequentialMarkupRendersOnce | docs/js/out/devtools/formatters/templating.js:625-640 | for sequential markup, render-markup's outcome is that of one render-json-ml pass |
| Interpreter.RenderMarkupIdempotent | docs/js/out/devtools/formatters/templating.js:632-640 | rendering a value render-markup produced gives the same value back |
| Interpreter.RenderSurrogateArguments | docs/js/out/devtools/formatters/templating.js:542-547 | ["surrogate", target, optional...] keeps the target raw and renders each optional argument; it fails with the first failing argument's failure, with the arity error when all render and there are more than three, and otherwise yields the surrogate whose header, body and start index are the rendered arguments (nil when absent, a falsy start index read as 0) |
| Interpreter.ReferenceRendersSurrogateTarget | docs/js/out/devtools/formatters/templating.js:536-538 | a "reference" target that is surrogate markup (sequential, raw first element "surrogate") is rendered first and the result handed to make-reference; a failure of that rendering is the answer |
| Interpreter.ReferenceKeepsRawTarget | docs/js/out/devtools/formatters/templating.js:536-552 | a "reference" target that is not surrogate markup goes to make-reference unrendered, even when it is other markup |
| Interpreter.RenderMarkupStepCallsFn | docs/js/out/devtools/formatters/templating.js:611-616 | a deferred function is called with no arguments and resolution continues with its result, one step of fuel per call |
| Interpreter.RenderMarkupStepResolvesKeyword | docs/js/out/devtools/formatters/templating.js:618-623 | a keyword is resolved through the preferences and resolution continues with the resolved value |
| Interpreter.RenderMarkupStepRendersSequential | docs/js/out/devtools/formatters/templating.js:625-630 | sequential markup is rendered once by render-json-ml and resolution continues with the result; a failure of that pass is the answer |
| Interpreter.RenderMarkupReportsInitial | docs/js/out/devtools/formatters/templating.js:609-643 | when a deferred function yields a value that is neither markup nor a node, the failure names the function as the initial value and that value as the resolved one |
| Interpreter.RenderJsonMlIsTree | docs/js/out/devtools/formatters/templating.js:593-604 | render-json-ml answers what render-json-ml\* answers with the markup pushed on the stack and the breadcrumb on the path |
| Interpreter.BoldSpanExample | docs/js/out/devtools/formatters/templating.js:572-592 | [["span", :bold-style], "hi"] renders to ["span", {"style": ...}, "hi"] when :bold-style resolves to a style string and the other values it resolves are left alone |

## Left out

- Numbers are modelled as integers (`Num(n: int)`), where JavaScript numbers are doubles. The engine does no arithmetic on them, and every number is truthy in both, so no behaviour of the engine depends on the difference.
- Protocol fallbacks of the mark tests (`native_satisfies?`, lines 23, 29, 45, 51, 67, 73) are host prototype reflection. Marks are an explicit set on host arrays. The surrogate record always carries its mark.
- `helpers.pref`, `state.get_current_state` and calling a host function are not part of this model. They are the fields of `Host`. Lemmas that depend on them say what they require of them.
- Error-message text is not modelled: `print_preview`, `add_stack_separators`, `replace_fns_with_markers`, `pprint_render_*`, and the string building in `assert_markup_error` and `assert_failed_markup_rendering`. A failure carries its kind, the offending name or value, and, for markup errors, the path and stack current when it was raised.
- Variadic argument marshalling, `applyTo`, the arity switch and chunked-sequence iteration are replaced by explicit sequence parameters and plain ordered recursion. The one arity error the interpreter can reach, make-surrogate's, is modelled.
- ClojureScript maps and sets are `coll?` but not `sequential?`. They are not modelled. `Vec` stands for the sequential collections markup is written in, for which `coll?` and `sequential?` agree.
- In-place mutation of host arrays by the `mark-as-*!` functions and by `push` is modelled as building fresh marked values. Object identity ("returns it identically") is modelled as equality.
- concat-templates! and extend-template! take the first template as the array's elements. Calling them on anything but a host array is not modelled. Nil, a number, a plain object or a ClojureScript collection has no `concat` method, so the call raises a type error. A string is joined by `String.prototype.concat` into a plain string, which the template mark then leaves unmarked.
- Interpreter.RenderMarkup: the engine loops without bound on diverging input. The model stops with `OutOfFuel` once `fuel` steps are used. One fuel number bounds both the loop's iterations and the nesting depth of render-json-ml\*.
- Interpreter.RenderTree: deeper nesting than `fuel` allows ends in `OutOfFuel`, where the engine would keep recursing.
- Interpreter.RenderSubtree: all children are rendered before make-template runs. In the engine the children are a lazy sequence, and `apply` realises only part of it before make-template tests the style with `empty?` (line 209). So when the resolved style is unseqable and a child also fails, the engine reports the style failure for any failing child not yet realised at that point: one beyond the first 31 children of a vector (its head takes slot 0 of the first 32-element chunk), or one beyond the first one or two children of an unchunked sequence such as a list. The model always reports the child failure.
- Interpreter.Emptyish treats nil as emptyish (`seqable?` accepts nil). This does not affect results: a nil child that reached make-template would be dropped there anyway.
- Constructors.Chars: a string is split into Unicode scalar values, one `char` each. `into-array` on a JavaScript string splits it into UTF-16 code units, so a character outside the Basic Multilingual Plane becomes two elements in the engine and one in the model.
- Constructors.ExtendTemplateAppendsArgs and Constructors.MakeReferenceContents require `pref` to leave non-keywords alone. That is how the unseen `helpers.pref` is used here, but it is an assumption.
