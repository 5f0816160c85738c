/**
 * The JSON values the browser client reads (runMap.json, the runs endpoint and
 * the conditions endpoint), with the few JavaScript coercions the client
 * applies to them.  Numbers are integers; an object is its property list in
 * the order `Object.entries` yields it.
 */
module Json {
  import opened Strings
  import opened Numerals
  import opened Folds

  datatype JsValue =
    | Undefined
    | Null
    | Bool(b: bool)
    | Num(n: int)
    | Str(s: string)
    | Obj(props: seq<(string, JsValue)>)

  /** `v?.name`: the property of an object, `undefined` for anything else or a missing property. */
  function Prop(v: JsValue, name: string): (r: JsValue)
    ensures !v.Obj? ==> r == Undefined
  {
    if v.Obj? then
      var fields := FoldLast(v.props);
      if name in fields then fields[name] else Undefined
    else Undefined
  }

  /** A property that an object lists once reads back as its value. */
  lemma PropAt(props: seq<(string, JsValue)>, i: nat)
    requires i < |props|
    requires forall j :: 0 <= j < |props| && j != i ==> props[j].0 != props[i].0
    ensures Prop(Obj(props), props[i].0) == props[i].1
  {
    FoldLastAt(props, i);
  }

  /** A property that an object does not list reads as `undefined`. */
  lemma PropMissing(props: seq<(string, JsValue)>, name: string)
    requires forall j :: 0 <= j < |props| ==> props[j].0 != name
    ensures Prop(Obj(props), name) == Undefined
  {
    FoldLastKeys(props);
  }

  /** `!!v`: JavaScript truthiness. */
  predicate Truthy(v: JsValue) {
    match v
    case Undefined => false
    case Null => false
    case Bool(b) => b
    case Num(n) => n != 0
    case Str(s) => s != ""
    case Obj(_) => true
  }

  /** `(v ?? "").toString()`. */
  function CoerceString(v: JsValue): (r: string)
    ensures v.Str? ==> r == v.s
    ensures v.Undefined? || v.Null? ==> r == ""
  {
    match v
    case Undefined => ""
    case Null => ""
    case Bool(b) => if b then "true" else "false"
    case Num(n) => IntToDecimal(n)
    case Str(s) => s
    case Obj(_) => "[object Object]"
  }
}
