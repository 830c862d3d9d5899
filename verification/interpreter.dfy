/**
 The markup interpreter (render-json-ml*, render-special, render-subtree), the
 diagnostic frame render-json-ml, and the resolution loop render-markup.

 The render stack and render path are dynamically bound in the engine; here they
 are the `Ctx` passed into every rendering call and handed back, as the binding
 stands, when the call returns. Each binding saves the caller's context and
 restores it on the way out, whether the call succeeded or failed.

 The engine's recursion and its resolution loop have no bound; `fuel` bounds
 both here, and running out of it is the failure `OutOfFuel`.
 */
module Interpreter {
  import opened Values
  import opened Results
  import opened Constructors

  /** The breadcrumb render-json-ml adds to the render path. */
  const RenderJsonMlFrame: Value := Str("<render-json-ml>")

  /** emptyish?: a seqable value (string, array, collection or nil) that is empty. */
  predicate Emptyish(v: Value)
  {
    Seqable(v) && IsEmpty(v)
  }

  /** surrogate-markup?: sequential markup whose raw first element is "surrogate". */
  predicate SurrogateMarkup(v: Value)
  {
    v.Vec? && First(v.elems) == Str("surrogate")
  }

  /** What interpreting markup can yield: a template, a surrogate, or a group whose
      element 0 is the resolved "object" preference. */
  predicate RenderedNode(h: Host, v: Value)
  {
    IsTemplate(v) || IsSurrogate(v) || (IsGroup(v) && First(v.elems) == h.pref(Str("object")))
  }

  /** What render-markup accepts as its answer. */
  predicate Terminal(v: Value)
  {
    IsTemplate(v) || IsSurrogate(v) || IsReference(v)
  }

  function MapPref(h: Host, xs: seq<Value>): (r: seq<Value>)
    ensures |r| == |xs| && forall i | 0 <= i < |xs| :: r[i] == h.pref(xs[i])
  {
    seq(|xs|, i requires 0 <= i < |xs| => h.pref(xs[i]))
  }

  /** `remove emptyish?`: the elements that are not emptyish, in order. */
  function RemoveEmptyish(xs: seq<Value>): (r: seq<Value>)
    ensures |r| <= |xs|
    ensures forall x | x in r :: x in xs && !Emptyish(x)
  {
    if |xs| == 0 then []
    else (if Emptyish(xs[0]) then [] else [xs[0]]) + RemoveEmptyish(xs[1..])
  }

  /** Renders each item with render-json-ml*, left to right, stopping at the first
      failure. Each item is rendered under the context the previous one left. */
  function RenderAll(h: Host, items: seq<Value>, ctx: Ctx, fuel: nat): (r: Rendered<seq<Value>>)
    decreases fuel, 1, |items|
    ensures r.ctx == ctx
    ensures r.result.Ok? <==> forall i | 0 <= i < |items| :: RenderTree(h, items[i], ctx, fuel).result.Ok?
    ensures r.result.Ok? ==> && |r.result.value| == |items|
                             && forall i | 0 <= i < |items| ::
                                  RenderTree(h, items[i], ctx, fuel).result == Ok(r.result.value[i])
    ensures r.result.Err? ==> exists k | 0 <= k < |items| ::
              && (forall i | 0 <= i < k :: RenderTree(h, items[i], ctx, fuel).result.Ok?)
              && RenderTree(h, items[k], ctx, fuel).result == Err(r.result.error)
    ensures r.result.Ok? ==> forall i | 0 <= i < |items| ::
              (if items[i].Vec? then RenderedNode(h, r.result.value[i]) else r.result.value[i] == items[i])
    ensures r.result.Err? ==> RaisedUnder(r.result.error, ctx.path, ctx.stack)
    ensures r.result.Err? ==> !r.result.error.RenderingFailed?
  {
    if |items| == 0 then Rendered(Ok([]), ctx)
    else
      var head := RenderTree(h, items[0], ctx, fuel);
      if head.result.Err? then Rendered(Err(head.result.error), head.ctx)
      else
        var tail := RenderAll(h, items[1..], head.ctx, fuel);
        if tail.result.Err? then Rendered(Err(tail.result.error), tail.ctx)
        else Rendered(Ok([head.result.value] + tail.result.value), tail.ctx)
  }

  /** render-special: the closed set of special tags "surrogate" and "reference". */
  function RenderSpecial(h: Host, name: string, args: seq<Value>, ctx: Ctx, fuel: nat): (r: Rendered<Value>)
    decreases fuel, 2, 0
    ensures r.ctx == ctx
    ensures name != "surrogate" && name != "reference" ==>
              r.result == Err(MarkupError(NoMatchingSpecialTag(name), ctx.path, ctx.stack))
    ensures r.result.Ok? ==> RenderedNode(h, r.result.value)
    ensures r.result.Ok? && name == "surrogate" ==>
              r.result.value.Surr? && r.result.value.target == First(args)
    ensures r.result.Err? ==> RaisedUnder(r.result.error, ctx.path, ctx.stack)
    ensures r.result.Err? ==> !r.result.error.RenderingFailed?
  {
    if name == "surrogate" then
      var rendered := RenderAll(h, Rest(args), ctx, fuel);
      if rendered.result.Err? then Rendered(Err(rendered.result.error), rendered.ctx)
      else Rendered(MakeSurrogate(First(args), rendered.result.value), rendered.ctx)
    else if name == "reference" then
      var target := First(args);
      var converted := if SurrogateMarkup(target) then RenderTree(h, target, ctx, fuel) else Rendered(Ok(target), ctx);
      if converted.result.Err? then Rendered(Err(converted.result.error), converted.ctx)
      else Rendered(MakeReference(h, converted.result.value, Rest(args)), converted.ctx)
    else
      Rendered(Err(MarkupError(NoMatchingSpecialTag(name), ctx.path, ctx.stack)), ctx)
  }

  /** The children render-subtree renders: resolved, with the emptyish ones removed. */
  function KeptChildren(h: Host, children: seq<Value>): seq<Value>
  {
    RemoveEmptyish(MapPref(h, children))
  }

  /** render-subtree: `tag` is the `[html-tag, style]` pair. Children are resolved,
      emptyish ones dropped, the rest rendered, then assembled by make-template.
      It succeeds exactly when every kept child renders and the resolved style is
      seqable; a failing child is reported before an unseqable style. */
  function RenderSubtree(h: Host, tag: seq<Value>, children: seq<Value>, ctx: Ctx, fuel: nat): (r: Rendered<Value>)
    decreases fuel, 2, 0
    ensures r.ctx == ctx
    ensures r.result.Ok? <==>
              && (forall i | 0 <= i < |KeptChildren(h, children)| ::
                    RenderTree(h, KeptChildren(h, children)[i], ctx, fuel).result.Ok?)
              && Seqable(h.pref(Nth(tag, 1)))
    ensures r.result.Ok? ==> && IsTemplate(r.result.value) && r.result.value.Arr?
                             && |r.result.value.elems| >= 2
                             && r.result.value.elems[0] == h.pref(Nth(tag, 0))
                             && r.result.value.elems[1] == Attributes(h.pref(Nth(tag, 1)))
                             && RenderAll(h, KeptChildren(h, children), ctx, fuel).result.Ok?
                             && r.result.value.elems[2..] ==
                                TemplateChildren(h, RenderAll(h, KeptChildren(h, children), ctx, fuel).result.value)
    ensures r.result.Err? && RenderAll(h, KeptChildren(h, children), ctx, fuel).result.Ok? ==>
              r.result.error == NotSeqable(h.pref(Nth(tag, 1)))
    ensures r.result.Err? && RenderAll(h, KeptChildren(h, children), ctx, fuel).result.Err? ==>
              r.result.error == RenderAll(h, KeptChildren(h, children), ctx, fuel).result.error
    ensures r.result.Err? ==> RaisedUnder(r.result.error, ctx.path, ctx.stack)
    ensures r.result.Err? ==> !r.result.error.RenderingFailed?
  {
    var kept := KeptChildren(h, children);
    var rendered := RenderAll(h, kept, ctx, fuel);
    if rendered.result.Err? then Rendered(Err(rendered.result.error), rendered.ctx)
    else Rendered(MakeTemplate(h, Nth(tag, 0), Nth(tag, 1), rendered.result.value), rendered.ctx)
  }

  /** render-json-ml*: anything but sequential markup is returned as it is.
      Sequential markup is interpreted with its first element added to the render
      path; the path is restored on the way out. */
  function RenderTree(h: Host, markup: Value, ctx: Ctx, fuel: nat): (r: Rendered<Value>)
    decreases fuel, 0, 0
    ensures r.ctx == ctx
    ensures !markup.Vec? ==> r.result == Ok(markup)
    ensures markup.Vec? && r.result.Ok? ==> RenderedNode(h, r.result.value)
    ensures markup.Vec? && r.result.Err? ==>
              RaisedUnder(r.result.error, ctx.path + [First(markup.elems)], ctx.stack)
    ensures markup.Vec? && fuel > 0 && !h.pref(First(markup.elems)).Str? && !h.pref(First(markup.elems)).Vec? ==>
              r.result == Err(MarkupError(InvalidJsonMl(markup), ctx.path + [First(markup.elems)], ctx.stack))
    ensures r.result.Err? ==> !r.result.error.RenderingFailed?
  {
    if !markup.Vec? then Rendered(Ok(markup), ctx)
    else if fuel == 0 then Rendered(Err(OutOfFuel), ctx)
    else
      var head := First(markup.elems);
      var inner := ctx.(path := ctx.path + [head]);
      var tag := h.pref(head);
      var body :=
        if tag.Str? then RenderSpecial(h, tag.s, Rest(markup.elems), inner, fuel - 1)
        else if tag.Vec? then RenderSubtree(h, tag.elems, Rest(markup.elems), inner, fuel - 1)
        else Rendered(Err(MarkupError(InvalidJsonMl(markup), inner.path, inner.stack)), inner);
      Rendered(body.result, ctx)
  }

  /** render-json-ml: render-json-ml* with the markup pushed on the render stack and
      the render-json-ml breadcrumb on the render path, both restored afterwards. */
  function RenderJsonMl(h: Host, markup: Value, ctx: Ctx, fuel: nat): (r: Rendered<Value>)
    ensures r.ctx == ctx
    ensures !markup.Vec? ==> r.result == Ok(markup)
    ensures markup.Vec? && r.result.Ok? ==> RenderedNode(h, r.result.value)
    ensures markup.Vec? && r.result.Err? ==>
              RaisedUnder(r.result.error, ctx.path + [RenderJsonMlFrame, First(markup.elems)], ctx.stack + [markup])
    ensures r.result.Err? ==> !r.result.error.RenderingFailed?
  {
    var inner := Ctx(ctx.stack + [markup], ctx.path + [RenderJsonMlFrame]);
    var body := RenderTree(h, markup, inner, fuel);
    assert markup.Vec? ==>
             inner.path + [First(markup.elems)] == ctx.path + [RenderJsonMlFrame, First(markup.elems)];
    Rendered(body.result, ctx)
  }

  /** render-markup*: calls functions, resolves keywords and renders sequential
      markup until it reaches a template, surrogate or reference; anything else is
      a failure naming the initial and the resolved value. */
  function RenderMarkupStep(h: Host, initial: Value, value: Value, ctx: Ctx, fuel: nat): (r: Rendered<Value>)
    decreases fuel
    ensures r.ctx == ctx
    ensures r.result.Ok? ==> Terminal(r.result.value)
    ensures Terminal(value) ==> r.result == Ok(value)
    ensures !value.Fn? && !value.Keyword? && !value.Vec? && !Terminal(value) ==>
              r.result == Err(RenderingFailed(initial, value))
    ensures r.result.Err? && r.result.error.MarkupError? ==>
              && |r.result.error.stack| == |ctx.stack| + 1
              && ctx.stack <= r.result.error.stack
              && r.result.error.stack[|ctx.stack|].Vec?
              && ctx.path + [RenderJsonMlFrame] <= r.result.error.path
    ensures r.result.Err? && r.result.error.RenderingFailed? ==> r.result.error.initial == initial
  {
    if value.Fn? then
      if fuel == 0 then Rendered(Err(OutOfFuel), ctx)
      else RenderMarkupStep(h, initial, h.call(value.id, []), ctx, fuel - 1)
    else if value.Keyword? then
      if fuel == 0 then Rendered(Err(OutOfFuel), ctx)
      else RenderMarkupStep(h, initial, h.pref(value), ctx, fuel - 1)
    else if value.Vec? then
      if fuel == 0 then Rendered(Err(OutOfFuel), ctx)
      else
        var step := RenderJsonMl(h, value, ctx, fuel);
        if step.result.Err? then Rendered(Err(step.result.error), step.ctx)
        else RenderMarkupStep(h, initial, step.result.value, step.ctx, fuel - 1)
    else if Terminal(value) then
      Rendered(Ok(value), ctx)
    else
      Rendered(Err(RenderingFailed(initial, value)), ctx)
  }

  /** render-markup: the resolution loop started from an empty render stack and
      path, which are empty again when it returns. */
  function RenderMarkup(h: Host, value: Value, fuel: nat): (r: Rendered<Value>)
    ensures r.ctx == Ctx([], [])
    ensures r.result.Ok? ==> Terminal(r.result.value)
    ensures Terminal(value) ==> r.result == Ok(value)
    ensures !value.Fn? && !value.Keyword? && !value.Vec? && !Terminal(value) ==>
              r.result == Err(RenderingFailed(value, value))
    ensures r.result.Err? && r.result.error.MarkupError? ==>
              |r.result.error.stack| == 1 && r.result.error.stack[0].Vec? &&
              |r.result.error.path| >= 1 && r.result.error.path[0] == RenderJsonMlFrame
  {
    RenderMarkupStep(h, value, value, Ctx([], []), fuel)
  }

  /** The `while (true)` loop of render-markup*, a trampoline over the same steps. */
  method RenderMarkupLoop(h: Host, value: Value, fuel: nat) returns (r: Rendered<Value>)
    ensures r == RenderMarkup(h, value, fuel)
  {
    var initial := value;
    var v := value;
    var ctx := Ctx([], []);
    var f := fuel;
    while true
      invariant RenderMarkupStep(h, initial, v, ctx, f) == RenderMarkup(h, value, fuel)
      decreases f
    {
      if v.Fn? {
        if f == 0 {
          return Rendered(Err(OutOfFuel), ctx);
        }
        v, f := h.call(v.id, []), f - 1;
      } else if v.Keyword? {
        if f == 0 {
          return Rendered(Err(OutOfFuel), ctx);
        }
        v, f := h.pref(v), f - 1;
      } else if v.Vec? {
        if f == 0 {
          return Rendered(Err(OutOfFuel), ctx);
        }
        var step := RenderJsonMl(h, v, ctx, f);
        if step.result.Err? {
          return Rendered(Err(step.result.error), step.ctx);
        }
        v, ctx, f := step.result.value, step.ctx, f - 1;
      } else if Terminal(v) {
        return Rendered(Ok(v), ctx);
      } else {
        return Rendered(Err(RenderingFailed(initial, v)), ctx);
      }
    }
  }

  // -------------------------------------------------------------- properties

  lemma {:induction false} RemoveEmptyishAppend(a: seq<Value>, b: seq<Value>)
    ensures RemoveEmptyish(a + b) == RemoveEmptyish(a) + RemoveEmptyish(b)
  {
    if |a| == 0 {
      assert a + b == b;
    } else {
      assert (a + b)[1..] == a[1..] + b;
      RemoveEmptyishAppend(a[1..], b);
    }
  }

  /** `remove emptyish?` is a filter: a value is kept exactly when it is in the
      input and not emptyish, and an input with nothing emptyish is kept whole. */
  lemma {:induction false} RemoveEmptyishFilters(xs: seq<Value>)
    ensures forall x :: x in RemoveEmptyish(xs) <==> x in xs && !Emptyish(x)
    ensures (forall i | 0 <= i < |xs| :: !Emptyish(xs[i])) ==> RemoveEmptyish(xs) == xs
  {
    if |xs| > 0 {
      RemoveEmptyishFilters(xs[1..]);
      assert xs == [xs[0]] + xs[1..];
      if forall i | 0 <= i < |xs| :: !Emptyish(xs[i]) {
        assert forall i | 0 <= i < |xs[1..]| :: !Emptyish(xs[1..][i]) by {
          forall i | 0 <= i < |xs[1..]|
            ensures !Emptyish(xs[1..][i])
          {
            assert xs[1..][i] == xs[i + 1];
          }
        }
      }
    }
  }

  /** A child that resolves to an emptyish value is dropped before rendering: adding
      it anywhere among the children changes neither the result nor the failure. */
  lemma SubtreeSkipsEmptyish(h: Host, tag: seq<Value>, a: seq<Value>, c: Value, b: seq<Value>, ctx: Ctx, fuel: nat)
    requires Emptyish(h.pref(c))
    ensures RenderSubtree(h, tag, a + [c] + b, ctx, fuel) == RenderSubtree(h, tag, a + b, ctx, fuel)
  {
    var pa, pb := MapPref(h, a), MapPref(h, b);
    assert MapPref(h, a + [c] + b) == pa + [h.pref(c)] + pb;
    assert MapPref(h, a + b) == pa + pb;
    RemoveEmptyishAppend(pa + [h.pref(c)], pb);
    RemoveEmptyishAppend(pa, [h.pref(c)]);
    RemoveEmptyishAppend(pa, pb);
    assert [h.pref(c)][1..] == [];
    assert RemoveEmptyish([h.pref(c)]) == [];
    assert RemoveEmptyish(pa) + [] == RemoveEmptyish(pa);
  }

  /** With the "object" preference resolving to itself, interpreting markup yields
      exactly the three kinds render-markup accepts. */
  lemma RenderedNodeIsTerminal(h: Host, v: Value)
    requires h.pref(Str("object")) == Str("object")
    requires RenderedNode(h, v)
    ensures Terminal(v)
    ensures !v.Fn? && !v.Keyword? && !v.Vec?
  {
  }

  /** Sequential markup needs one pass through render-json-ml: render-markup then
      answers with that pass's result or fails with its failure. */
  lemma SequentialMarkupRendersOnce(h: Host, value: Value, fuel: nat)
    requires value.Vec? && fuel > 0
    requires h.pref(Str("object")) == Str("object")
    ensures RenderMarkup(h, value, fuel).result == RenderJsonMl(h, value, Ctx([], []), fuel).result
  {
    var step := RenderJsonMl(h, value, Ctx([], []), fuel);
    if step.result.Ok? {
      RenderedNodeIsTerminal(h, step.result.value);
    }
  }

  /** Rendering a value render-markup has produced gives the same value back. */
  lemma RenderMarkupIdempotent(h: Host, value: Value, fuel: nat, fuel': nat)
    requires RenderMarkup(h, value, fuel).result.Ok?
    ensures RenderMarkup(h, RenderMarkup(h, value, fuel).result.value, fuel').result ==
            RenderMarkup(h, value, fuel).result
  {
  }

  /** render-json-ml* on sequential markup dispatches on the resolved first element:
      a string names a special tag, a sequential value is the `[html-tag, style]`
      pair of a subtree. Both are interpreted with the first element on the path. */
  lemma RenderTreeDispatch(h: Host, markup: Value, ctx: Ctx, fuel: nat)
    requires markup.Vec? && fuel > 0
    ensures h.pref(First(markup.elems)).Str? ==>
              RenderTree(h, markup, ctx, fuel).result ==
              RenderSpecial(h, h.pref(First(markup.elems)).s, Rest(markup.elems),
                            ctx.(path := ctx.path + [First(markup.elems)]), fuel - 1).result
    ensures h.pref(First(markup.elems)).Vec? ==>
              RenderTree(h, markup, ctx, fuel).result ==
              RenderSubtree(h, h.pref(First(markup.elems)).elems, Rest(markup.elems),
                            ctx.(path := ctx.path + [First(markup.elems)]), fuel - 1).result
  {
  }

  /** ["surrogate", target, optional...]: the target is kept raw and each optional
      argument is rendered, left to right. The first failing argument's failure is
      the answer; when all render, more than three of them is the arity error, and
      otherwise the header, body and start index are the rendered arguments (nil
      when absent, a falsy start index read as 0). */
  lemma {:induction false} RenderSurrogateArguments(h: Host, args: seq<Value>, ctx: Ctx, fuel: nat)
    ensures RenderSpecial(h, "surrogate", args, ctx, fuel).result.Ok? <==>
            |args| <= 4 && forall i | 1 <= i < |args| :: RenderTree(h, args[i], ctx, fuel).result.Ok?
    ensures (forall i | 1 <= i < |args| :: RenderTree(h, args[i], ctx, fuel).result.Ok?) && |args| > 4 ==>
            RenderSpecial(h, "surrogate", args, ctx, fuel).result == Err(InvalidArity(|args|))
    ensures (exists i | 1 <= i < |args| :: RenderTree(h, args[i], ctx, fuel).result.Err?) ==>
            exists k | 1 <= k < |args| ::
              && (forall i | 1 <= i < k :: RenderTree(h, args[i], ctx, fuel).result.Ok?)
              && RenderTree(h, args[k], ctx, fuel).result == RenderSpecial(h, "surrogate", args, ctx, fuel).result
    ensures RenderSpecial(h, "surrogate", args, ctx, fuel).result.Ok? ==>
            RenderSpecial(h, "surrogate", args, ctx, fuel).result.value ==
            Surr(First(args),
                 RenderTree(h, Nth(args, 1), ctx, fuel).result.value,
                 RenderTree(h, Nth(args, 2), ctx, fuel).result.value,
                 StartIndex(RenderTree(h, Nth(args, 3), ctx, fuel).result.value))
  {
    var optional := Rest(args);
    assert forall i | 1 <= i < |args| :: args[i] == optional[i - 1];
    assert forall j | 0 <= j < |optional| :: optional[j] == args[j + 1];
    var all := RenderAll(h, optional, ctx, fuel);
    if all.result.Err? {
      var k :| 0 <= k < |optional|
               && (forall i | 0 <= i < k :: RenderTree(h, optional[i], ctx, fuel).result.Ok?)
               && RenderTree(h, optional[k], ctx, fuel).result == Err(all.result.error);
      assert RenderTree(h, args[k + 1], ctx, fuel).result.Err?;
      assert forall i | 1 <= i < k + 1 :: RenderTree(h, args[i], ctx, fuel).result.Ok? by {
        forall i | 1 <= i < k + 1
          ensures RenderTree(h, args[i], ctx, fuel).result.Ok?
        {
          assert args[i] == optional[i - 1];
        }
      }
    } else if |optional| <= 3 {
      var vs := all.result.value;
      forall j | 1 <= j <= 3
        ensures RenderTree(h, Nth(args, j), ctx, fuel).result == Ok(Nth(vs, j - 1))
      {
        if j < |args| {
          assert Nth(args, j) == optional[j - 1];
        }
      }
    }
  }

  /** ["reference", target, ...]: a target that is surrogate markup is rendered
      first and the outcome handed to make-reference; a failure stops there. */
  lemma ReferenceRendersSurrogateTarget(h: Host, args: seq<Value>, ctx: Ctx, fuel: nat)
    requires SurrogateMarkup(First(args))
    ensures RenderSpecial(h, "reference", args, ctx, fuel).result ==
            match RenderTree(h, First(args), ctx, fuel).result
            case Ok(t) => MakeReference(h, t, Rest(args))
            case Err(e) => Err(e)
  {
  }

  /** ["reference", target, ...]: a target that is not surrogate markup is handed
      to make-reference as it is, even when it is other markup. */
  lemma ReferenceKeepsRawTarget(h: Host, args: seq<Value>, ctx: Ctx, fuel: nat)
    requires !SurrogateMarkup(First(args))
    ensures RenderSpecial(h, "reference", args, ctx, fuel).result == MakeReference(h, First(args), Rest(args))
  {
  }

  /** render-markup* calls a deferred function with no arguments and goes on with
      what it returns; each call uses one step of fuel. */
  lemma RenderMarkupStepCallsFn(h: Host, initial: Value, id: nat, ctx: Ctx, fuel: nat)
    ensures RenderMarkupStep(h, initial, Fn(id), ctx, fuel + 1) ==
            RenderMarkupStep(h, initial, h.call(id, []), ctx, fuel)
    ensures RenderMarkupStep(h, initial, Fn(id), ctx, 0).result == Err(OutOfFuel)
  {
  }

  /** render-markup* resolves a keyword through the preferences and goes on with
      the resolved value. */
  lemma RenderMarkupStepResolvesKeyword(h: Host, initial: Value, name: string, ctx: Ctx, fuel: nat)
    ensures RenderMarkupStep(h, initial, Keyword(name), ctx, fuel + 1) ==
            RenderMarkupStep(h, initial, h.pref(Keyword(name)), ctx, fuel)
    ensures RenderMarkupStep(h, initial, Keyword(name), ctx, 0).result == Err(OutOfFuel)
  {
  }

  /** render-markup* renders sequential markup once through render-json-ml and goes
      on with the rendered value; a failure of that pass is the answer. */
  lemma RenderMarkupStepRendersSequential(h: Host, initial: Value, value: Value, ctx: Ctx, fuel: nat)
    requires value.Vec?
    ensures RenderJsonMl(h, value, ctx, fuel + 1).result.Err? ==>
              RenderMarkupStep(h, initial, value, ctx, fuel + 1).result == RenderJsonMl(h, value, ctx, fuel + 1).result
    ensures RenderJsonMl(h, value, ctx, fuel + 1).result.Ok? ==>
              RenderMarkupStep(h, initial, value, ctx, fuel + 1).result ==
              RenderMarkupStep(h, initial, RenderJsonMl(h, value, ctx, fuel + 1).result.value, ctx, fuel).result
  {
  }

  /** The initial value is what a rendering failure reports: a deferred function
      whose result is neither markup nor a node fails naming the function and that
      result. */
  lemma RenderMarkupReportsInitial(h: Host, id: nat, fuel: nat)
    requires fuel > 0
    requires !h.call(id, []).Fn? && !h.call(id, []).Keyword? && !h.call(id, []).Vec?
    requires !Terminal(h.call(id, []))
    ensures RenderMarkup(h, Fn(id), fuel).result == Err(RenderingFailed(Fn(id), h.call(id, [])))
  {
  }

  /** The template the worked example renders to. */
  function BoldSpan(style: Value): Value
  {
    Arr([Str("span"), Obj(map["style" := style]), Str("hi")], {TemplateMark})
  }

  /** What the worked example needs of the preferences: :bold-style resolves to a
      style string, and the other values it resolves are left alone. */
  predicate BoldSpanHost(h: Host)
  {
    && h.pref(Keyword("bold-style")) == Str("font-weight:bold")
    && h.pref(Vec([Str("span"), Keyword("bold-style")])) == Vec([Str("span"), Keyword("bold-style")])
    && h.pref(Str("span")) == Str("span")
    && h.pref(Str("hi")) == Str("hi")
    && h.pref(Str("object")) == Str("object")
  }

  /** The subtree of the worked example, under any context. */
  lemma BoldSpanSubtree(h: Host, ctx: Ctx, fuel: nat)
    requires BoldSpanHost(h)
    ensures RenderSubtree(h, [Str("span"), Keyword("bold-style")], [Str("hi")], ctx, fuel).result ==
            Ok(BoldSpan(Str("font-weight:bold")))
  {
    var hi := [Str("hi")];
    var style := Str("font-weight:bold");
    assert hi[1..] == [];
    assert KeptChildren(h, hi) == hi by {
      assert MapPref(h, hi) == hi;
    }
    assert RenderAll(h, hi, ctx, fuel).result == Ok(hi);
    assert TemplateChildren(h, hi) == hi;
    var t := BoldSpan(style);
    assert !IsEmpty(style);
    var empty: set<Mark> := {};
    assert empty + {TemplateMark} == {TemplateMark};
    assert [Str("span"), Obj(map["style" := style])] + hi == t.elems;
    assert MakeTemplate(h, Str("span"), Keyword("bold-style"), hi) == Ok(t);
  }

  /** render-json-ml is render-json-ml* under the extended stack and path. */
  lemma RenderJsonMlIsTree(h: Host, markup: Value, ctx: Ctx, fuel: nat)
    ensures RenderJsonMl(h, markup, ctx, fuel).result ==
            RenderTree(h, markup, Ctx(ctx.stack + [markup], ctx.path + [RenderJsonMlFrame]), fuel).result
  {
  }

  /** The render-json-ml* pass of the worked example, under any context. */
  lemma BoldSpanTree(h: Host, markup: Value, ctx: Ctx)
    requires BoldSpanHost(h)
    requires markup == Vec([Vec([Str("span"), Keyword("bold-style")]), Str("hi")])
    ensures RenderTree(h, markup, ctx, 2).result == Ok(BoldSpan(Str("font-weight:bold")))
  {
    var tag := First(markup.elems);
    assert Rest(markup.elems) == [Str("hi")];
    BoldSpanSubtree(h, ctx.(path := ctx.path + [tag]), 1);
    RenderTreeDispatch(h, markup, ctx, 2);
  }

  /** A worked example: [["span", :bold-style], "hi"] with :bold-style resolving
      to a style string renders to ["span", {"style": ...}, "hi"]. */
  lemma BoldSpanExample(h: Host, markup: Value)
    requires BoldSpanHost(h)
    requires markup == Vec([Vec([Str("span"), Keyword("bold-style")]), Str("hi")])
    ensures RenderMarkup(h, markup, 2).result == Ok(BoldSpan(Str("font-weight:bold")))
  {
    BoldSpanTree(h, markup, Ctx([markup], [RenderJsonMlFrame]));
    RenderJsonMlIsTree(h, markup, Ctx([], []), 2);
    SequentialMarkupRendersOnce(h, markup, 2);
  }
}
