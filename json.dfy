/** Decoded JSON values as the scripts and the adapters see them, and the few
    pieces of Python's dynamic semantics that the scripts rely on when they
    read such values: truthiness, `dict.get`, iteration followed by `.get`,
    and `str()` of a scalar. */
module Json {

  datatype Option<+T> = None | Some(value: T)

  /** A decoded JSON document. Numbers are integers only. */
  datatype Json =
    | Null
    | Bool(b: bool)
    | Int(n: int)
    | Str(s: string)
    | Arr(items: seq<Json>)
    | Obj(fields: map<string, Json>)

  /** One HTTP response as handed to the code: status, declared content type
      and the decoded body. */
  datatype Response = Response(status: int, contentType: string, body: Json)

  /** Python's `bool(v)`. */
  predicate Truthy(v: Json)
  {
    match v
    case Null => false
    case Bool(b) => b
    case Int(n) => n != 0
    case Str(s) => s != ""
    case Arr(xs) => xs != []
    case Obj(m) => m != map[]
  }

  /** `d.get(key)`: the value under `key`, or None when the key is missing. */
  function Get(d: map<string, Json>, key: string): (r: Option<Json>)
    ensures r.Some? <==> key in d
    ensures r.Some? ==> r.value == d[key]
  {
    if key in d then Some(d[key]) else None
  }

  /** `d.get(key, default)`. */
  function GetOr(d: map<string, Json>, key: string, default: Json): (r: Json)
    ensures key in d ==> r == d[key]
    ensures key !in d ==> r == default
  {
    if key in d then d[key] else default
  }

  /** `d.get(key)` where a missing key reads as Python's None. */
  function GetOrNull(d: map<string, Json>, key: string): (r: Json)
    ensures key !in d ==> r == Null
    ensures key in d ==> r == d[key]
  {
    GetOr(d, key, Null)
  }

  /** The elements that `for x in v: x.get(...)` visits, or None when that loop
      raises before it has done anything: a non-empty string or object yields
      a first element that has no `.get`, and null, booleans and numbers are
      not iterable. */
  function Elements(v: Json): (r: Option<seq<Json>>)
    ensures v.Arr? ==> r == Some(v.items)
    ensures r.Some? && r.value != [] ==> v.Arr?
    ensures r.Some? <==> v.Arr? || v == Str("") || v == Obj(map[])
  {
    match v
    case Arr(xs) => Some(xs)
    case Str(s) => if s == "" then Some([]) else None
    case Obj(m) => if m == map[] then Some([]) else None
    case _ => None
  }

  /** A value that is not a list or a dict. */
  predicate IsScalar(v: Json)
  {
    !v.Arr? && !v.Obj?
  }

  /** The decimal digits of a natural number, most significant first. */
  function NatToDecimal(n: nat): (r: string)
    ensures |r| >= 1
    ensures forall i :: 0 <= i < |r| ==> '0' <= r[i] <= '9'
    ensures n < 10 <==> |r| == 1
    decreases n
  {
    if n < 10 then [(n + '0' as int) as char]
    else NatToDecimal(n / 10) + [(n % 10 + '0' as int) as char]
  }

  /** Python's `str(n)` for an integer. */
  function IntToDecimal(n: int): (r: string)
    ensures |r| >= 1
    ensures n < 0 <==> r[0] == '-'
  {
    if n < 0 then "-" + NatToDecimal(-n) else NatToDecimal(n)
  }

  /** Python's `str(v)` for a scalar. */
  function ScalarText(v: Json): (r: string)
    requires IsScalar(v)
    ensures v.Str? ==> r == v.s
    ensures v.Null? ==> r == "None"
  {
    match v
    case Null => "None"
    case Bool(b) => if b then "True" else "False"
    case Int(n) => IntToDecimal(n)
    case Str(s) => s
  }

  /** The decimal text of a natural number determines the number: the text
      "46" is produced by 46 alone. */
  lemma {:induction false} DecimalIs46(n: int)
    ensures IntToDecimal(n) == "46" <==> n == 46
  {
    if n == 46 {
      assert NatToDecimal(4) == "4";
      assert NatToDecimal(46) == NatToDecimal(4) + ['6'];
    }
    if IntToDecimal(n) == "46" {
      var r := NatToDecimal(n);
      assert n >= 10;
      var hi := NatToDecimal(n / 10);
      assert r == hi + [(n % 10 + '0' as int) as char];
      assert |hi| == 1 && hi[0] == '4';
      assert n / 10 < 10;
      assert hi == [((n / 10) + '0' as int) as char];
      assert n / 10 == 4;
      assert r[1] == (n % 10 + '0' as int) as char == '6';
      assert n % 10 == 6;
    }
  }
}
