/**
 The values the templating engine handles: ClojureScript data, host (JavaScript)
 arrays and objects, and the capability marks the engine sets on host arrays.
 The engine's collaborators outside this model (preference lookup, calling a
 host function, the formatter state) are gathered in `Host`.
 */
module Values {

  /** The capability flags the engine attaches to host values. */
  datatype Mark = GroupMark | TemplateMark | SurrogateMark

  datatype Value =
    | Nil                                         // nil, null and undefined
    | Bool(b: bool)
    | Num(n: int)
    | Str(s: string)
    | Keyword(name: string)                       // a preference token such as :nil-style
    | Fn(id: nat)                                 // a host function; calling it goes through Host.call
    | Vec(elems: seq<Value>)                      // a ClojureScript sequential collection
    | Arr(elems: seq<Value>, marks: set<Mark>)    // a host array and the marks set on it
    | Obj(fields: map<string, Value>)             // a plain host object
    | Surr(target: Value, header: Value, body: Value, startIndex: Value)  // the surrogate record

  /** What the engine calls but does not define: `pref` resolves preference tokens,
      `call` invokes a host function, `currentState` is the formatter state. */
  datatype Host = Host(pref: Value -> Value, call: (nat, seq<Value>) -> Value, currentState: Value)

  /** The preference lookup resolves tokens and leaves every other value alone. */
  ghost predicate PrefFixesNonKeywords(h: Host)
  {
    forall v: Value :: !v.Keyword? ==> h.pref(v) == v
  }

  /** Whether `v` carries the mark `m`. The surrogate record is created marked. */
  predicate HasMark(v: Value, m: Mark)
  {
    (v.Arr? && m in v.marks) || (v.Surr? && m == SurrogateMark)
  }

  predicate IsGroup(v: Value)
  {
    HasMark(v, GroupMark)
  }

  predicate IsTemplate(v: Value)
  {
    HasMark(v, TemplateMark)
  }

  predicate IsSurrogate(v: Value)
  {
    HasMark(v, SurrogateMark)
  }

  /** A reference is a group whose element 0 is the string "object". */
  predicate IsReference(v: Value)
  {
    IsGroup(v) && First(v.elems) == Str("object")
  }

  /** Marking a host array: the elements stay, the mark is added to those it had. */
  function MarkAs(v: Value, m: Mark): (r: Value)
    requires v.Arr?
    ensures r.Arr? && r.elems == v.elems
    ensures forall k :: HasMark(r, k) <==> k == m || HasMark(v, k)
  {
    v.(marks := v.marks + {m})
  }

  /** ClojureScript truthiness: only nil and false are falsy. */
  predicate Truthy(v: Value)
  {
    !v.Nil? && v != Bool(false)
  }

  /** `first` of a sequence; nil when it is empty. */
  function First(s: seq<Value>): Value
  {
    if |s| == 0 then Nil else s[0]
  }

  /** `rest` of a sequence; empty when it is empty. */
  function Rest(s: seq<Value>): seq<Value>
  {
    if |s| == 0 then [] else s[1..]
  }

  /** `nth` with a nil default. */
  function Nth(s: seq<Value>, i: nat): Value
  {
    if i < |s| then s[i] else Nil
  }

  /** Values `seq` accepts; `empty?` and `into-array` throw on all others. */
  predicate Seqable(v: Value)
  {
    v.Nil? || v.Str? || v.Vec? || v.Arr?
  }

  /** `empty?` on a seqable value. */
  predicate IsEmpty(v: Value)
    requires Seqable(v)
  {
    match v
    case Nil => true
    case Str(s) => |s| == 0
    case Vec(e) => |e| == 0
    case Arr(e, _) => |e| == 0
  }

  /** Marks are independent: a group mark makes an array a reference exactly when
      its element 0 is "object", and leaves its template and surrogate tests alone. */
  lemma MarkingAGroup(v: Value)
    requires v.Arr?
    ensures IsGroup(MarkAs(v, GroupMark))
    ensures IsReference(MarkAs(v, GroupMark)) <==> First(v.elems) == Str("object")
    ensures IsTemplate(MarkAs(v, GroupMark)) <==> IsTemplate(v)
    ensures IsSurrogate(MarkAs(v, GroupMark)) <==> IsSurrogate(v)
  {
  }
}
