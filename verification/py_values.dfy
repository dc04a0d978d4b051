/** The dynamically typed Python values the resolver inspects: what `json.loads`
    returns for a sidecar file and what Pillow returns in a decoded tag dictionary. */
module PyValues {
  import opened Options
  import opened PyFloat

  /** `None`, `bool`, `int`/`float` (one exact number type), `str`, `list`/`tuple`
      and `dict` with string keys. */
  datatype PyVal =
    | PNone
    | PBool(b: bool)
    | PNum(n: real)
    | PStr(s: string)
    | PSeq(items: seq<PyVal>)
    | PDict(entries: map<string, PyVal>)

  /** Python's truth test `bool(v)`. */
  predicate Truthy(v: PyVal) {
    match v
    case PNone => false
    case PBool(b) => b
    case PNum(n) => n != 0.0
    case PStr(s) => s != []
    case PSeq(xs) => xs != []
    case PDict(m) => m != map[]
  }

  /** The falsy values are exactly Python's list of them: `None`, `False`, zero, the
      empty string, the empty sequence and the empty dictionary. */
  lemma FalsyValues(v: PyVal)
    ensures !Truthy(v) <==> || v == PNone || v == PBool(false) || v == PNum(0.0)
                            || v == PStr("") || v == PSeq([]) || v == PDict(map[])
  {
  }

  /** Python's `a or b`: `a` when it is truthy, otherwise `b`. */
  function Or(a: PyVal, b: PyVal): (r: PyVal)
    ensures Truthy(r) <==> Truthy(a) || Truthy(b)
    ensures Truthy(a) ==> r == a
    ensures !Truthy(a) ==> r == b
  {
    if Truthy(a) then a else b
  }

  /** `d.get(k, default)`. */
  function GetOr(d: map<string, PyVal>, k: string, default: PyVal): (r: PyVal)
    ensures k in d ==> r == d[k]
    ensures k !in d ==> r == default
  {
    if k in d then d[k] else default
  }

  /** `d.get(k)`: an absent key and a stored `None` look the same. */
  function Get(d: map<string, PyVal>, k: string): (r: PyVal)
    ensures r != PNone ==> k in d && r == d[k]
  {
    GetOr(d, k, PNone)
  }

  /** The operands of `/`: `bool` is a subclass of `int` in Python. */
  predicate IsNumber(v: PyVal) {
    v.PNum? || v.PBool?
  }

  function NumberOf(v: PyVal): real
    requires IsNumber(v)
  {
    match v
    case PNum(n) => n
    case PBool(b) => if b then 1.0 else 0.0
  }

  /** `float(v)`; None stands for the TypeError or ValueError it raises. */
  function Float(v: PyVal): (r: Option<real>)
    ensures IsNumber(v) ==> r == Some(NumberOf(v))
    ensures v.PStr? ==> r == ParseFloat(v.s)
    ensures !IsNumber(v) && !v.PStr? ==> r.None?
  {
    match v
    case PNum(n) => Some(n)
    case PBool(b) => Some(if b then 1.0 else 0.0)
    case PStr(s) => ParseFloat(s)
    case _ => None
  }

  /** `str(v)`. The text Python prints for a number or a container is not modelled:
      `render` stands for it. */
  function Str(v: PyVal, render: PyVal -> string): (r: string)
    ensures v.PStr? ==> r == v.s
  {
    match v
    case PStr(s) => s
    case PNone => "None"
    case PBool(b) => if b then "True" else "False"
    case _ => render(v)
  }
}
