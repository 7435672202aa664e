/** JSON values, Python's equality of them, and what the models need from Python around them. */
module Json {
  import opened Options
  import opened Numbers

  type Object = map<string, Json>

  /** Numbers of RFC 8259, section 6, as Python reads them: integers and finite floats are kept apart. */
  datatype Json =
    | JNull
    | JBool(b: bool)
    | JInt(n: int)
    | JFloat(f: Float)
    | JStr(s: string)
    | JArr(items: seq<Json>)
    | JObj(fields: Object)

  /** mantissa * 2^exponent with an odd mantissa, or one of the two zeros. */
  datatype Binary = Zero(negative: bool) | Scaled(mantissa: int, exponent: int) {
    /** The number is one of the finite values of a 64-bit float. */
    predicate Finite() {
      Zero? ||
      (&& mantissa % 2 == 1 && Magnitude(mantissa) < 0x20_0000_0000_0000 && -1074 <= exponent
       && (exponent <= 971 || (exponent < 1024 && Magnitude(mantissa) < Shift(1, 1024 - exponent))))
    }
  }

  type Float = x: Binary | x.Finite() witness Zero(false)

  /** The edges of the range: the least float, the greatest power of two, and mantissas of up to 53 bits. */
  lemma FloatEdges()
    ensures Scaled(1, -1074).Finite() && !Scaled(1, -1075).Finite()
    ensures Scaled(1, 1023).Finite() && !Scaled(3, 1023).Finite() && !Scaled(1, 1024).Finite()
    ensures Scaled(0x1F_FFFF_FFFF_FFFF, 971).Finite() && !Scaled(0x20_0000_0000_0001, 0).Finite()
    ensures Scaled(-3, 0).Finite() && !Scaled(2, 0).Finite()
  {
    assert Shift(1, 1) == 2;
  }

  /** `d.get(key)` */
  function Get(d: Object, key: string): Json {
    if key in d then d[key] else JNull
  }

  predicate Falsy(v: Json) {
    match v
    case JNull => true
    case JBool(b) => !b
    case JInt(n) => n == 0
    case JFloat(f) => f.Zero?
    case JStr(s) => s == ""
    case JArr(items) => items == []
    case JObj(fields) => fields == map[]
  }

  // ----- Python's `==`

  /** What Python's `==` sees of a value: a number is its value, whether written as a bool, an int or a float. */
  datatype Value =
    | VNull
    | VNumber(mantissa: int, exponent: int)
    | VStr(s: string)
    | VArr(items: seq<Value>)
    | VObj(fields: map<string, Value>)

  /** n * 2^e with the powers of two moved into the exponent. */
  function Number(n: int, e: int): (v: Value)
    ensures v.VNumber?
    decreases Magnitude(n)
  {
    if n == 0 then VNumber(0, 0) else if n % 2 == 0 then Number(n / 2, e + 1) else VNumber(n, e)
  }

  function ValueOf(j: Json): Value {
    match j
    case JNull => VNull
    case JBool(b) => Number(if b then 1 else 0, 0)
    case JInt(n) => Number(n, 0)
    case JFloat(f) => if f.Zero? then VNumber(0, 0) else VNumber(f.mantissa, f.exponent)
    case JStr(s) => VStr(s)
    case JArr(items) => VArr(seq(|items|, i requires 0 <= i < |items| => ValueOf(items[i])))
    case JObj(fields) => VObj(map k | k in fields :: ValueOf(fields[k]))
  }

  /** `a == b` */
  predicate Same(a: Json, b: Json) {
    ValueOf(a) == ValueOf(b)
  }

  /** Dictionaries are equal exactly when they have the same keys with equal values. */
  lemma SameObjects(o: Object, p: Object)
    ensures Same(JObj(o), JObj(p)) <==> o.Keys == p.Keys && forall k | k in o :: Same(o[k], p[k])
  {
    var x, y := ValueOf(JObj(o)).fields, ValueOf(JObj(p)).fields;
    assert x.Keys == o.Keys && y.Keys == p.Keys;
    if x == y {
      forall k | k in o ensures Same(o[k], p[k]) {
        assert x[k] == y[k];
      }
    }
  }

  lemma {:induction false} NumberMeans(n: int, e: int, m: int, x: int)
    requires m % 2 == 1
    ensures Number(n, e) == VNumber(m, x) <==> x >= e && n == Shift(m, x - e)
    decreases Magnitude(n)
  {
    if n == 0 {
      if x >= e {
        ShiftIsZero(m, x - e);
      }
    } else if n % 2 == 0 {
      NumberMeans(n / 2, e + 1, m, x);
    }
  }

  /** A whole number and a float are equal exactly when the float is that number. */
  lemma IntEqualsFloat(n: int, f: Float)
    ensures Same(JInt(n), JFloat(f)) <==>
            if f.Zero? then n == 0 else f.exponent >= 0 && n == Shift(f.mantissa, f.exponent)
  {
    if f.Scaled? {
      NumberMeans(n, 0, f.mantissa, f.exponent);
    } else {
      NumberIsZero(n, 0);
    }
  }

  /** True is equal to 1 and false to 0, and a bool to no other whole number. */
  lemma BoolEqualsInt(b: bool, n: int)
    ensures Same(JBool(b), JInt(n)) <==> n == if b then 1 else 0
  {
    NumberIsZero(n, 0);
    if n % 2 == 0 && n != 0 {
      NumberMeans(n, 0, 1, 0);
    }
  }

  lemma {:induction false} NumberIsZero(n: int, e: int)
    ensures Number(n, e) == VNumber(0, 0) <==> n == 0
    decreases Magnitude(n)
  {
    if n != 0 && n % 2 == 0 {
      NumberIsZero(n / 2, e + 1);
    }
  }

  // ----- the Python side

  type Filled = s: string | s != "" witness "x"

  /** What a read draws for payloads that lack them: the clock's text and a fresh id. */
  datatype Draw = Draw(now: Filled, uuid: Filled)

  /**
    Python's side: `json.dumps`; `json.loads`, `int` and `dict` of values outside their plain cases
    (None for an exception); `str` of values that are not strings; the clock's text and a fresh id.
    */
  datatype Host = Host(
    dumps: Json -> string, loads: string -> Option<Json>, show: Json -> string,
    toInt: Json -> Option<int>, toDict: Json -> Option<Object>, now: string, uuid: string)
  {
    /** What the standard library guarantees of them. */
    ghost predicate Faithful() {
      && (forall j :: loads(dumps(j)) == Some(j) && dumps(j) != "")
      && (forall j :: show(j) != "")
      && now != "" && uuid != ""
    }

    /** The same Python at another moment. */
    function At(d: Draw): Host {
      this.(now := d.now, uuid := d.uuid)
    }

    lemma AtIsFaithful(d: Draw)
      requires Faithful()
      ensures At(d).Faithful() && At(Draw(now, uuid)) == this
    {
    }
  }

  function Str(show: Json -> string, v: Json): string {
    if v.JStr? then v.s else show(v)
  }

  /** `str(d.get(key) or default)` */
  function TextAt(show: Json -> string, d: Object, key: string, default: string): string {
    var v := Get(d, key);
    if Falsy(v) then default else Str(show, v)
  }

  /** The value is this text, or something else that counts as true and prints as it. */
  predicate Says(show: Json -> string, v: Json, text: string) {
    if v.JStr? then v.s == text else !Falsy(v) && show(v) == text
  }

  /** An entry read as text: a missing, empty or null one never equals a text that is not empty. */
  lemma TextAtMeans(show: Json -> string, d: Object, key: string, text: string)
    requires text != ""
    ensures TextAt(show, d, key, "") == text <==> key in d && Says(show, d[key], text)
  {
  }

  /** What counts as false: null, the numbers equal to 0, and whatever is empty. */
  lemma FalsyMeans(v: Json)
    ensures Falsy(v) <==> v in {JNull, JStr(""), JArr([]), JObj(map[])} || Same(v, JInt(0))
  {
    if v.JInt? {
      NumberIsZero(v.n, 0);
    }
  }

  /** `int(d.get(key) or 0)` */
  function IntAt(toInt: Json -> Option<int>, d: Object, key: string): Option<int> {
    var v := Get(d, key);
    if Falsy(v) then Some(0) else if v.JInt? then Some(v.n) else toInt(v)
  }

  /** A missing, null or empty entry counts as 0, a whole number as itself, and the rest is for `int`. */
  lemma IntAtMeans(toInt: Json -> Option<int>, d: Object, key: string)
    ensures key !in d || Falsy(d[key]) ==> IntAt(toInt, d, key) == Some(0)
    ensures key in d && d[key].JInt? ==> IntAt(toInt, d, key) == Some(d[key].n)
    ensures key in d && !Falsy(d[key]) && !d[key].JInt? ==> IntAt(toInt, d, key) == toInt(d[key])
  {
  }

  /** `dict(v) if isinstance(v, dict) else {}` */
  function ObjectAt(d: Object, key: string): Object {
    var v := Get(d, key);
    if v.JObj? then v.fields else map[]
  }

  /** `dict(d.get(key) or {})` */
  function DictAt(toDict: Json -> Option<Object>, d: Object, key: string): Option<Object> {
    var v := Get(d, key);
    if Falsy(v) then Some(map[]) else if v.JObj? then Some(v.fields) else toDict(v)
  }

  /** A missing, null or empty entry counts as an empty dictionary, and one that is none is for `dict`. */
  lemma DictAtMeans(toDict: Json -> Option<Object>, d: Object, key: string)
    ensures key !in d || Falsy(d[key]) ==> DictAt(toDict, d, key) == Some(map[])
    ensures key in d && d[key].JObj? ==> DictAt(toDict, d, key) == Some(d[key].fields)
    ensures key in d && !Falsy(d[key]) && !d[key].JObj? ==> DictAt(toDict, d, key) == toDict(d[key])
  {
  }
}
