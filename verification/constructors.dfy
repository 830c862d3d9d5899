/**
 The node constructors of the templating engine: groups, templates (and appending
 to them), surrogates with their accessors, and references.
 Host arrays are built fresh and marked, rather than mutated in place.
 */
module Constructors {
  import opened Values
  import opened Results

  // ------------------------------------------------------------------ groups

  /** What one make-group item contributes: nothing for nil, the elements of a
      collection as they are, and the resolved preference of anything else. */
  function GroupPiece(h: Host, item: Value): seq<Value>
  {
    if item.Nil? then [] else if item.Vec? then item.elems else [h.pref(item)]
  }

  /** The contributions of the items, in order. */
  function GroupItems(h: Host, items: seq<Value>): seq<Value>
  {
    if |items| == 0 then [] else GroupPiece(h, items[0]) + GroupItems(h, items[1..])
  }

  /** make-group: a fresh group-marked array holding the items' contributions. */
  function MakeGroup(h: Host, items: seq<Value>): (r: Value)
    ensures r.Arr? && IsGroup(r)
    ensures !IsTemplate(r) && !IsSurrogate(r)
  {
    MarkAs(Arr(GroupItems(h, items), {}), GroupMark)
  }

  lemma {:induction false} GroupItemsAppend(h: Host, a: seq<Value>, b: seq<Value>)
    ensures GroupItems(h, a + b) == GroupItems(h, a) + GroupItems(h, b)
  {
    if |a| == 0 {
      assert a + b == b;
    } else {
      assert (a + b)[1..] == a[1..] + b;
      GroupItemsAppend(h, a[1..], b);
    }
  }

  /** Items are processed left to right: the group of `a + b` is the group of `a`
      followed by the group of `b`. */
  lemma MakeGroupAppend(h: Host, a: seq<Value>, b: seq<Value>)
    ensures MakeGroup(h, a + b).elems == MakeGroup(h, a).elems + MakeGroup(h, b).elems
  {
    GroupItemsAppend(h, a, b);
  }

  /** A single item: nil is skipped, a collection is spliced in without resolution,
      anything else is appended resolved. */
  lemma MakeGroupSingle(h: Host, item: Value)
    ensures item.Nil? ==> MakeGroup(h, [item]).elems == []
    ensures item.Vec? ==> MakeGroup(h, [item]).elems == item.elems
    ensures !item.Nil? && !item.Vec? ==> MakeGroup(h, [item]).elems == [h.pref(item)]
  {
    assert [item][1..] == [];
    assert GroupItems(h, [item]) == GroupPiece(h, item) + GroupItems(h, []);
  }

  /** Every element of a group comes from one of its items, and every element an
      item contributes is in the group. */
  lemma {:induction false} MakeGroupMembers(h: Host, items: seq<Value>, x: Value)
    ensures x in MakeGroup(h, items).elems <==>
            exists i :: 0 <= i < |items| && x in GroupPiece(h, items[i])
  {
    if |items| > 0 {
      MakeGroupMembers(h, items[1..], x);
      if x in GroupItems(h, items[1..]) {
        var i :| 0 <= i < |items[1..]| && x in GroupPiece(h, items[1..][i]);
        assert x in GroupPiece(h, items[i + 1]);
      }
      if exists i :: 0 <= i < |items| && x in GroupPiece(h, items[i]) {
        var i :| 0 <= i < |items| && x in GroupPiece(h, items[i]);
        if i > 0 {
          assert x in GroupPiece(h, items[1..][i - 1]);
        }
      }
    }
  }

  /** make-group(1, [2 3], nil, 4) is the flat group [1, 2, 3, 4]. */
  lemma MakeGroupExample(h: Host)
    requires PrefFixesNonKeywords(h)
    ensures MakeGroup(h, [Num(1), Vec([Num(2), Num(3)]), Nil, Num(4)]).elems == [Num(1), Num(2), Num(3), Num(4)]
  {
    var items := [Num(1), Vec([Num(2), Num(3)]), Nil, Num(4)];
    assert h.pref(Num(1)) == Num(1) && h.pref(Num(4)) == Num(4);
    assert items[1..] == [Vec([Num(2), Num(3)]), Nil, Num(4)];
    assert items[2..] == [Nil, Num(4)];
    assert items[3..] == [Num(4)];
    assert items[4..] == [];
    assert GroupItems(h, items[3..]) == [Num(4)];
    assert GroupItems(h, items[2..]) == [Num(4)];
    assert GroupItems(h, items[1..]) == [Num(2), Num(3), Num(4)];
    assert GroupItems(h, items) == [Num(1), Num(2), Num(3), Num(4)];
  }

  /** The push loop of make-group. */
  method BuildGroup(h: Host, items: seq<Value>) returns (group: Value)
    ensures group == MakeGroup(h, items)
  {
    var elems: seq<Value> := [];
    var i := 0;
    while i < |items|
      invariant 0 <= i <= |items|
      invariant elems == GroupItems(h, items[..i])
    {
      var item := items[i];
      if !item.Nil? {
        if item.Vec? {
          elems := elems + item.elems;
        } else {
          elems := elems + [h.pref(item)];
        }
      }
      assert items[..i + 1] == items[..i] + [item];
      GroupItemsAppend(h, items[..i], [item]);
      i := i + 1;
    }
    assert items[..i] == items;
    group := MarkAs(Arr(elems, {}), GroupMark);
  }

  // --------------------------------------------------------------- templates

  /** `keep pref`: the resolved elements that are not nil, in order. */
  function KeepPref(h: Host, xs: seq<Value>): (r: seq<Value>)
    ensures Nil !in r
    ensures |r| <= |xs|
  {
    if |xs| == 0 then []
    else
      var v := h.pref(xs[0]);
      (if v.Nil? then [] else [v]) + KeepPref(h, xs[1..])
  }

  lemma {:induction false} KeepPrefMembers(h: Host, xs: seq<Value>, x: Value)
    ensures x in KeepPref(h, xs) <==> x != Nil && exists i :: 0 <= i < |xs| && h.pref(xs[i]) == x
  {
    if |xs| > 0 {
      KeepPrefMembers(h, xs[1..], x);
      if x != Nil && exists i :: 0 <= i < |xs| && h.pref(xs[i]) == x {
        var i :| 0 <= i < |xs| && h.pref(xs[i]) == x;
        if i > 0 {
          assert h.pref(xs[1..][i - 1]) == x;
        }
      }
      if x in KeepPref(h, xs[1..]) {
        var i :| 0 <= i < |xs[1..]| && h.pref(xs[1..][i]) == x;
        assert h.pref(xs[i + 1]) == x;
      }
    }
  }

  /** What one make-template child contributes: nothing for nil, the non-nil
      resolved elements of a collection, and a resolved scalar only when truthy. */
  function TemplatePiece(h: Host, child: Value): (r: seq<Value>)
    ensures Nil !in r
  {
    if child.Nil? then []
    else if child.Vec? then KeepPref(h, child.elems)
    else
      var v := h.pref(child);
      if Truthy(v) then [v] else []
  }

  function TemplateChildren(h: Host, children: seq<Value>): (r: seq<Value>)
    ensures Nil !in r
  {
    if |children| == 0 then [] else TemplatePiece(h, children[0]) + TemplateChildren(h, children[1..])
  }

  lemma {:induction false} TemplateChildrenAppend(h: Host, a: seq<Value>, b: seq<Value>)
    ensures TemplateChildren(h, a + b) == TemplateChildren(h, a) + TemplateChildren(h, b)
  {
    if |a| == 0 {
      assert a + b == b;
    } else {
      assert (a + b)[1..] == a[1..] + b;
      TemplateChildrenAppend(h, a[1..], b);
    }
  }

  /** The attributes element: `{}` for an empty style, `{"style": style}` otherwise. */
  function Attributes(style: Value): Value
    requires Seqable(style)
  {
    if IsEmpty(style) then Obj(map[]) else Obj(map["style" := style])
  }

  /** make-template: a fresh template-marked array `[tag, attributes, children...]`.
      `empty?` on the resolved style throws when the style is not seqable. */
  function MakeTemplate(h: Host, tag: Value, style: Value, children: seq<Value>): (r: Result<Value>)
    ensures r.Ok? <==> Seqable(h.pref(style))
    ensures r.Err? ==> r.error == NotSeqable(h.pref(style))
    ensures r.Ok? ==> && r.value.Arr? && IsTemplate(r.value) && !IsGroup(r.value)
                      && |r.value.elems| >= 2
                      && r.value.elems[0] == h.pref(tag)
                      && Nil !in r.value.elems[2..]
    ensures r.Ok? ==> r.value.elems[1] == Attributes(h.pref(style))
  {
    var s := h.pref(style);
    if !Seqable(s) then Err(NotSeqable(s))
    else
      var t := MarkAs(Arr([h.pref(tag), Attributes(s)] + TemplateChildren(h, children), {}), TemplateMark);
      assert t.elems[2..] == TemplateChildren(h, children);
      Ok(t)
  }

  /** Children are processed in order: the children of `a + b` are those of `a`
      followed by those of `b`. */
  lemma MakeTemplateAppend(h: Host, tag: Value, style: Value, a: seq<Value>, b: seq<Value>)
    requires Seqable(h.pref(style))
    ensures MakeTemplate(h, tag, style, a + b).value.elems ==
            MakeTemplate(h, tag, style, a).value.elems + MakeTemplate(h, tag, style, b).value.elems[2..]
  {
    TemplateChildrenAppend(h, a, b);
    MakeTemplateElements(h, tag, style, a);
    MakeTemplateElements(h, tag, style, b);
    MakeTemplateElements(h, tag, style, a + b);
    SharedHead([h.pref(tag), Attributes(h.pref(style))], TemplateChildren(h, a), TemplateChildren(h, b));
  }

  lemma SharedHead(head: seq<Value>, x: seq<Value>, y: seq<Value>)
    requires |head| == 2
    ensures head + (x + y) == (head + x) + (head + y)[2..]
  {
    assert (head + y)[2..] == y;
  }

  lemma MakeTemplateElements(h: Host, tag: Value, style: Value, children: seq<Value>)
    requires Seqable(h.pref(style))
    ensures MakeTemplate(h, tag, style, children).value.elems ==
            [h.pref(tag), Attributes(h.pref(style))] + TemplateChildren(h, children)
  {
  }

  /** A single child: nil is skipped, a collection is spliced as its non-nil
      resolved elements, a scalar is kept resolved only when truthy. */
  lemma MakeTemplateSingle(h: Host, tag: Value, style: Value, child: Value)
    requires Seqable(h.pref(style))
    ensures child.Nil? ==> MakeTemplate(h, tag, style, [child]).value.elems[2..] == []
    ensures child.Vec? ==> MakeTemplate(h, tag, style, [child]).value.elems[2..] == KeepPref(h, child.elems)
    ensures !child.Nil? && !child.Vec? ==>
            MakeTemplate(h, tag, style, [child]).value.elems[2..] ==
            (if Truthy(h.pref(child)) then [h.pref(child)] else [])
  {
    var t := MakeTemplate(h, tag, style, [child]).value;
    assert t.elems[2..] == TemplateChildren(h, [child]);
    assert [child][1..] == [];
    assert TemplateChildren(h, [child]) == TemplatePiece(h, child) + TemplateChildren(h, []);
  }

  // ---------------------------------------------------- appending to templates

  function Chars(s: string): (r: seq<Value>)
    ensures |r| == |s| && forall i | 0 <= i < |s| :: r[i] == Str([s[i]])
  {
    seq(|s|, i requires 0 <= i < |s| => Str([s[i]]))
  }

  /** `into-array`: the elements of a seqable value, one-character strings for a
      string; `seq` throws on anything else. */
  function IntoArray(v: Value): (r: Result<seq<Value>>)
    ensures r.Ok? <==> Seqable(v)
    ensures v.Vec? || v.Arr? ==> r == Ok(v.elems)
    ensures v.Nil? ==> r == Ok([])
    ensures v.Str? ==> r == Ok(Chars(v.s))
  {
    match v
    case Nil => Ok([])
    case Vec(e) => Ok(e)
    case Arr(e, _) => Ok(e)
    case Str(s) => Ok(Chars(s))
    case _ => Err(NotSeqable(v))
  }

  /** The elements concat-templates! appends: for each template that does not
      resolve to nil, in order, the elements of its resolved value. */
  function AppendedElements(h: Host, templates: seq<Value>): (r: Result<seq<Value>>)
    ensures r.Ok? <==> forall i | 0 <= i < |templates| :: Seqable(h.pref(templates[i]))
  {
    if |templates| == 0 then Ok([])
    else
      var v := h.pref(templates[0]);
      var head := if v.Nil? then Ok([]) else IntoArray(v);
      var tail := AppendedElements(h, templates[1..]);
      if head.Err? then Err(head.error)
      else if tail.Err? then Err(tail.error)
      else Ok(head.value + tail.value)
  }

  lemma {:induction false} AppendedElementsAppend(h: Host, a: seq<Value>, b: seq<Value>)
    requires AppendedElements(h, a).Ok?
    ensures AppendedElements(h, a + b) ==
            match AppendedElements(h, b)
            case Ok(y) => Ok(AppendedElements(h, a).value + y)
            case Err(e) => Err(e)
  {
    if |a| == 0 {
      assert a + b == b;
      match AppendedElements(h, b)
      case Ok(y) => assert [] + y == y;
      case Err(e) =>
    } else {
      assert (a + b)[1..] == a[1..] + b;
      assert (a + b)[0] == a[0];
      AppendedElementsAppend(h, a[1..], b);
      var v := h.pref(a[0]);
      var head := if v.Nil? then Ok([]) else IntoArray(v);
      assert head.Ok?;
      var rest := AppendedElements(h, a[1..]).value;
      assert AppendedElements(h, a).value == head.value + rest;
      match AppendedElements(h, b)
      case Ok(y) =>
        assert AppendedElements(h, a[1..] + b) == Ok(rest + y);
        assert head.value + (rest + y) == (head.value + rest) + y;
      case Err(e) =>
    }
  }

  /** concat-templates!: a new template-marked array holding the template's
      elements followed by the appended ones; the given array is left as it was. */
  function ConcatTemplates(h: Host, template: seq<Value>, templates: seq<Value>): (r: Result<Value>)
    ensures r.Ok? <==> forall i | 0 <= i < |templates| :: Seqable(h.pref(templates[i]))
    ensures r.Ok? ==> r.value.Arr? && IsTemplate(r.value) && template <= r.value.elems
  {
    var more :- AppendedElements(h, templates);
    Ok(MarkAs(Arr(template + more, {}), TemplateMark))
  }

  /** Appending `a + b` at once is appending `a`, then `b` to the result. */
  lemma ConcatTemplatesInSteps(h: Host, template: seq<Value>, a: seq<Value>, b: seq<Value>)
    requires ConcatTemplates(h, template, a).Ok?
    ensures ConcatTemplates(h, template, a + b) ==
            ConcatTemplates(h, ConcatTemplates(h, template, a).value.elems, b)
  {
    AppendedElementsAppend(h, a, b);
    var ea := AppendedElements(h, a).value;
    match AppendedElements(h, b)
    case Ok(eb) =>
      assert template + (ea + eb) == (template + ea) + eb;
    case Err(e) =>
  }

  /** One template: a nil one adds nothing, an array or collection adds its elements,
      a string adds its characters. */
  lemma ConcatTemplatesSingle(h: Host, template: seq<Value>, t: Value)
    ensures h.pref(t).Nil? ==> ConcatTemplates(h, template, [t]).value.elems == template
    ensures h.pref(t).Vec? || h.pref(t).Arr? ==>
            ConcatTemplates(h, template, [t]).value.elems == template + h.pref(t).elems
    ensures h.pref(t).Str? ==>
            ConcatTemplates(h, template, [t]).value.elems == template + Chars(h.pref(t).s)
  {
    assert [t][1..] == [] && [t][0] == t;
    assert AppendedElements(h, [t][1..]) == Ok([]);
    var v := h.pref(t);
    if v.Nil? {
      var none: seq<Value> := [];
      assert AppendedElements(h, [t]) == Ok(none + none);
      assert template + (none + none) == template;
    } else if v.Vec? || v.Arr? {
      assert AppendedElements(h, [t]) == Ok(v.elems + []);
      assert v.elems + [] == v.elems;
    } else if v.Str? {
      assert AppendedElements(h, [t]) == Ok(Chars(v.s) + []);
      assert Chars(v.s) + [] == Chars(v.s);
    }
  }

  /** extend-template!: concat-templates! with the argument list as one template,
      or nil when there are no arguments. */
  function ExtendTemplate(h: Host, template: seq<Value>, args: seq<Value>): (r: Result<Value>)
    ensures r.Ok? ==> r.value.Arr? && IsTemplate(r.value) && template <= r.value.elems
  {
    ConcatTemplates(h, template, [if |args| == 0 then Nil else Vec(args)])
  }

  /** Each argument of extend-template! becomes one element; with none the
      template keeps its elements. */
  lemma ExtendTemplateAppendsArgs(h: Host, template: seq<Value>, args: seq<Value>)
    requires PrefFixesNonKeywords(h)
    ensures ExtendTemplate(h, template, args).Ok?
    ensures ExtendTemplate(h, template, args).value.elems == template + args
  {
    var arg := if |args| == 0 then Nil else Vec(args);
    assert h.pref(arg) == arg;
    ConcatTemplatesSingle(h, template, arg);
  }

  /** concat-templates! splices a collection, extend-template! keeps it whole. */
  lemma ExtendDiffersFromConcat(h: Host)
    requires PrefFixesNonKeywords(h)
    ensures ConcatTemplates(h, [], [Vec([Num(1), Num(2)])]).value.elems == [Num(1), Num(2)]
    ensures ExtendTemplate(h, [], [Vec([Num(1), Num(2)])]).value.elems == [Vec([Num(1), Num(2)])]
  {
    var v := Vec([Num(1), Num(2)]);
    assert h.pref(v) == v;
    ConcatTemplatesSingle(h, [], v);
    ExtendTemplateAppendsArgs(h, [], [v]);
  }

  // -------------------------------------------------------------- surrogates

  /** The start index a surrogate records: a falsy one becomes 0. */
  function StartIndex(v: Value): Value
  {
    if Truthy(v) then v else Num(0)
  }

  /** make-surrogate with the target and up to three optional arguments (header,
      body, start index); a falsy start index becomes 0. */
  function MakeSurrogate(target: Value, optional: seq<Value>): (r: Result<Value>)
    ensures r.Ok? <==> |optional| <= 3
    ensures r.Err? ==> r.error == InvalidArity(|optional| + 1)
    ensures r.Ok? ==> r.value.Surr? && IsSurrogate(r.value) && !IsTemplate(r.value) && !IsGroup(r.value)
  {
    if |optional| > 3 then Err(InvalidArity(|optional| + 1))
    else
      var start := Nth(optional, 2);
      Ok(Surr(target, Nth(optional, 0), Nth(optional, 1), StartIndex(start)))
  }

  /** The four accessors assert their argument is a surrogate. A host array that
      carries the surrogate mark has none of the record's properties: undefined. */
  function GetSurrogateTarget(s: Value): (r: Result<Value>)
    ensures r.Ok? <==> IsSurrogate(s)
    ensures r.Err? ==> r.error == AssertFailed(SurrogateArgument)
  {
    if !IsSurrogate(s) then Err(AssertFailed(SurrogateArgument))
    else Ok(if s.Surr? then s.target else Nil)
  }

  function GetSurrogateHeader(s: Value): (r: Result<Value>)
    ensures r.Ok? <==> IsSurrogate(s)
    ensures r.Err? ==> r.error == AssertFailed(SurrogateArgument)
  {
    if !IsSurrogate(s) then Err(AssertFailed(SurrogateArgument))
    else Ok(if s.Surr? then s.header else Nil)
  }

  function GetSurrogateBody(s: Value): (r: Result<Value>)
    ensures r.Ok? <==> IsSurrogate(s)
    ensures r.Err? ==> r.error == AssertFailed(SurrogateArgument)
  {
    if !IsSurrogate(s) then Err(AssertFailed(SurrogateArgument))
    else Ok(if s.Surr? then s.body else Nil)
  }

  function GetSurrogateStartIndex(s: Value): (r: Result<Value>)
    ensures r.Ok? <==> IsSurrogate(s)
    ensures r.Err? ==> r.error == AssertFailed(SurrogateArgument)
  {
    if !IsSurrogate(s) then Err(AssertFailed(SurrogateArgument))
    else Ok(if s.Surr? then s.startIndex else Nil)
  }

  /** The accessors give back what make-surrogate was given: missing header and
      body read as nil, a missing, nil or false start index reads as 0, and any
      other start index, 0 included, reads as given. */
  lemma SurrogateRoundTrip(target: Value, optional: seq<Value>)
    requires |optional| <= 3
    ensures GetSurrogateTarget(MakeSurrogate(target, optional).value) == Ok(target)
    ensures GetSurrogateHeader(MakeSurrogate(target, optional).value) == Ok(Nth(optional, 0))
    ensures GetSurrogateBody(MakeSurrogate(target, optional).value) == Ok(Nth(optional, 1))
    ensures Nth(optional, 2) in {Nil, Bool(false)} ==>
            GetSurrogateStartIndex(MakeSurrogate(target, optional).value) == Ok(Num(0))
    ensures Nth(optional, 2) !in {Nil, Bool(false)} ==>
            GetSurrogateStartIndex(MakeSurrogate(target, optional).value) == Ok(Nth(optional, 2))
  {
  }

  // -------------------------------------------------------------- references

  /** make-reference: the state override must be nil or a function, checked first;
      a nil target gives the nil-label template; any other target gives the group
      `["object", {object, config}]`. */
  function MakeReference(h: Host, target: Value, rest: seq<Value>): (r: Result<Value>)
    ensures !First(rest).Nil? && !First(rest).Fn? ==> r == Err(AssertFailed(OverrideIsFn))
    ensures r.Err? ==> r.error in {AssertFailed(OverrideIsFn), NotSeqable(h.pref(Keyword("nil-style")))}
    ensures r.Ok? ==> IsTemplate(r.value) || (IsGroup(r.value) && First(r.value.elems) == h.pref(Str("object")))
    ensures (First(rest).Nil? || First(rest).Fn?) && !target.Nil? ==>
            r.Ok? && IsGroup(r.value) && (IsReference(r.value) <==> h.pref(Str("object")) == Str("object"))
  {
    var override := First(rest);
    if !override.Nil? && !override.Fn? then Err(AssertFailed(OverrideIsFn))
    else if target.Nil? then MakeTemplate(h, Keyword("span"), Keyword("nil-style"), [Keyword("nil-label")])
    else
      var config := if override.Fn? then h.call(override.id, [h.currentState]) else h.currentState;
      var items := [Str("object"), Obj(map["object" := target, "config" := config])];
      assert GroupItems(h, items) == [h.pref(items[0])] + GroupItems(h, items[1..]);
      Ok(MakeGroup(h, items))
  }

  /** A nil target yields the nil-label template, a span styled with the nil style,
      whatever valid override is given. */
  lemma MakeReferenceOfNil(h: Host, rest: seq<Value>)
    requires First(rest).Nil? || First(rest).Fn?
    ensures MakeReference(h, Nil, rest) == MakeTemplate(h, Keyword("span"), Keyword("nil-style"), [Keyword("nil-label")])
    ensures MakeReference(h, Nil, rest) == MakeReference(h, Nil, [])
    ensures MakeReference(h, Nil, rest).Ok? ==> IsTemplate(MakeReference(h, Nil, rest).value)
  {
  }

  /** A reference holds the object and the state: the current state, or the
      override applied to it. */
  lemma MakeReferenceContents(h: Host, target: Value, rest: seq<Value>)
    requires PrefFixesNonKeywords(h)
    requires !target.Nil? && (First(rest).Nil? || First(rest).Fn?)
    ensures IsReference(MakeReference(h, target, rest).value)
    ensures First(rest).Nil? ==>
              MakeReference(h, target, rest).value.elems ==
              [Str("object"), Obj(map["object" := target, "config" := h.currentState])]
    ensures First(rest).Fn? ==>
              MakeReference(h, target, rest).value.elems ==
              [Str("object"), Obj(map["object" := target, "config" := h.call(First(rest).id, [h.currentState])])]
  {
    var config := if First(rest).Fn? then h.call(First(rest).id, [h.currentState]) else h.currentState;
    var o := Obj(map["object" := target, "config" := config]);
    assert h.pref(Str("object")) == Str("object");
    assert h.pref(o) == o;
    MakeGroupAppend(h, [Str("object")], [o]);
    MakeGroupSingle(h, Str("object"));
    MakeGroupSingle(h, o);
    assert [Str("object"), o] == [Str("object")] + [o];
  }
}
