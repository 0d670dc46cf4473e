// Decoded JSON values as Python holds them after json.loads, the dict
// operations the core applies to them (get, `in`), and Python's str() of
// such a value.
module JsonValue {
  import opened PyText

  datatype Option<+T> = None | Some(value: T)

  /** A value json.loads can return. Numbers are integers; an object keeps
      its members in document order. */
  datatype Json =
    | Null
    | Bool(b: bool)
    | Num(n: int)
    | Str(s: string)
    | Arr(items: seq<Json>)
    | Obj(members: seq<(string, Json)>)

  /** The value stored under key: json.loads keeps the last of duplicated
      keys, so the search runs from the end. */
  function Lookup(members: seq<(string, Json)>, key: string): (r: Option<Json>)
    ensures r.Some? ==> (key, r.value) in members
    ensures r.None? ==> forall k :: 0 <= k < |members| ==> members[k].0 != key
  {
    if members == [] then None
    else if members[|members| - 1].0 == key then Some(members[|members| - 1].1)
    else Lookup(members[..|members| - 1], key)
  }

  /** dict.get(key, default) */
  function Get(members: seq<(string, Json)>, key: string, default: Json): (r: Json)
    ensures Lookup(members, key).None? ==> r == default
    ensures Lookup(members, key).Some? ==> (key, r) in members
  {
    match Lookup(members, key)
    case Some(v) => v
    case None => default
  }

  /** `key in d` */
  predicate HasKey(members: seq<(string, Json)>, key: string) {
    Lookup(members, key).Some?
  }

  /** A Python string literal as repr() writes it; escapes inside the text
      are not modelled. */
  function QuoteString(s: string): string {
    if '\'' in s && '"' !in s then "\"" + s + "\"" else "'" + s + "'"
  }

  /** repr() of a decoded value, as it appears inside str() of a list or dict. */
  function Repr(v: Json): string
    decreases v, 3
  {
    match v
    case Str(s) => QuoteString(s)
    case _ => PyStr(v)
  }

  /** str() of a decoded value: strings are themselves, None/True/False
      their names, integers their decimal form, lists and dicts bracketed
      with their elements' repr joined by ", ". */
  function PyStr(v: Json): string
    decreases v, 2
  {
    match v
    case Null => "None"
    case Bool(b) => if b then "True" else "False"
    case Num(n) => IntToString(n)
    case Str(s) => s
    case Arr(items) => "[" + ReprItems(items, v) + "]"
    case Obj(members) => "{" + ReprMembers(members, v) + "}"
  }

  function ReprItems(items: seq<Json>, parent: Json): string
    requires forall k :: 0 <= k < |items| ==> items[k] < parent
    decreases parent, 1, |items|
  {
    if items == [] then ""
    else if |items| == 1 then Repr(items[0])
    else Repr(items[0]) + ", " + ReprItems(items[1..], parent)
  }

  function ReprMembers(members: seq<(string, Json)>, parent: Json): string
    requires forall k :: 0 <= k < |members| ==> members[k].1 < parent
    decreases parent, 1, |members|
  {
    if members == [] then ""
    else
      var m := QuoteString(members[0].0) + ": " + Repr(members[0].1);
      if |members| == 1 then m else m + ", " + ReprMembers(members[1..], parent)
  }

  /** str() of anything but a string is never empty and never starts or ends
      with whitespace, so strip() leaves it whole. */
  lemma PyStrOfNonString(v: Json)
    requires !v.Str?
    ensures PyStr(v) != [] && NoSpaceAtEnds(PyStr(v))
  {
    match v
    case Num(n) =>
      var d := NatToString(if n < 0 then -n else n);
      assert IsDigit(d[0]) && IsDigit(d[|d| - 1]);
    case _ =>
  }
}
