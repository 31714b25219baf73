/** The data the scripts pass around: JSON-like values, dictionaries kept in
    insertion order, Python truthiness, `or`, `str()` and the Option/Result
    wrappers used for optional values and for exceptions that escape. */
module PyData {
  import opened Strings

  datatype Option<+T> = None | Some(value: T)

  /** A call either returns a value or raises; Failure carries the exception's name. */
  datatype Result<+T> = Success(value: T) | Failure(error: string)

  /** A decoded JSON value. Dictionaries keep their keys in insertion order. */
  datatype Value =
    | VNone
    | VBool(b: bool)
    | VInt(i: int)
    | VFloat(f: real)
    | VStr(s: string)
    | VList(items: seq<Value>)
    | VDict(entries: seq<(string, Value)>)

  type Dict = seq<(string, Value)>

  /** d.get(k): the value stored under k, or None. */
  function Get(d: Dict, k: string): Value
  {
    if d == [] then VNone
    else if d[0].0 == k then d[0].1
    else Get(d[1..], k)
  }

  lemma GetCons(e: (string, Value), d: Dict, k: string)
    ensures Get([e] + d, k) == if e.0 == k then e.1 else Get(d, k)
  {
    assert ([e] + d)[1..] == d;
  }

  predicate HasKey(d: Dict, k: string)
  {
    exists i | 0 <= i < |d| :: d[i].0 == k
  }

  /** The entry at position i is the one d.get returns when no earlier entry
      has its key. */
  lemma {:induction false} GetAt(d: Dict, i: int)
    requires 0 <= i < |d|
    requires forall j :: 0 <= j < i ==> d[j].0 != d[i].0
    ensures Get(d, d[i].0) == d[i].1
  {
    if i > 0 {
      assert d[1..][i - 1] == d[i];
      GetAt(d[1..], i - 1);
    }
  }

  /** The keys of d, in order. */
  function Keys(d: Dict): (ks: seq<string>)
    ensures |ks| == |d|
    ensures forall i :: 0 <= i < |d| ==> ks[i] == d[i].0
  {
    if d == [] then [] else [d[0].0] + Keys(d[1..])
  }

  lemma HasKeyTail(d: Dict, k: string)
    requires d != [] && d[0].0 != k
    ensures HasKey(d, k) <==> HasKey(d[1..], k)
  {
    if HasKey(d[1..], k) {
      var i :| 0 <= i < |d[1..]| && d[1..][i].0 == k;
      assert d[i + 1].0 == k;
    }
    if HasKey(d, k) {
      var i :| 0 <= i < |d| && d[i].0 == k;
      assert d[1..][i - 1].0 == k;
    }
  }

  lemma KeysCons(e: (string, Value), d: Dict)
    ensures Keys([e] + d) == [e.0] + Keys(d)
  {
    assert ([e] + d)[1..] == d;
  }

  lemma KeysAppend(a: Dict, b: Dict)
    ensures Keys(a + b) == Keys(a) + Keys(b)
  {
  }

  /** The dictionary pairing each key with the value at its position. */
  function ZipDict(ks: seq<string>, vs: seq<Value>): (r: Dict)
    requires |ks| == |vs|
    ensures Keys(r) == ks
    ensures forall i :: 0 <= i < |ks| ==> r[i] == (ks[i], vs[i])
  {
    seq(|ks|, i requires 0 <= i < |ks| => (ks[i], vs[i]))
  }

  /** Every listed key is present. */
  lemma KeysHasKey(d: Dict, i: int)
    requires 0 <= i < |d|
    ensures HasKey(d, Keys(d)[i])
  {
    assert d[i].0 == Keys(d)[i];
  }

  /** d[k] = v: overwrite in place when k is present, append otherwise. */
  function Set(d: Dict, k: string, v: Value): (r: Dict)
    ensures Keys(r) == if HasKey(d, k) then Keys(d) else Keys(d) + [k]
    ensures Get(r, k) == v
    ensures forall k' :: k' != k ==> Get(r, k') == Get(d, k')
  {
    if d == [] then [(k, v)]
    else if d[0].0 == k then
      KeysCons((k, v), d[1..]);
      KeysCons(d[0], d[1..]);
      assert d == [d[0]] + d[1..];
      assert HasKey(d, k) by { assert d[0].0 == k; }
      [(k, v)] + d[1..]
    else
      HasKeyTail(d, k);
      var rest := Set(d[1..], k, v);
      KeysCons(d[0], rest);
      KeysCons(d[0], d[1..]);
      assert d == [d[0]] + d[1..];
      [d[0]] + rest
  }

  /** Setting a key that is absent appends it (dictionaries keep insertion order). */
  lemma {:induction false} SetAppends(d: Dict, k: string, v: Value)
    requires !HasKey(d, k)
    ensures Set(d, k, v) == d + [(k, v)]
  {
    if d != [] {
      HasKeyTail(d, k);
      SetAppends(d[1..], k, v);
      assert d == [d[0]] + d[1..];
    }
  }

  /** Python's bool(v). */
  predicate Truthy(v: Value)
  {
    match v
    case VNone => false
    case VBool(b) => b
    case VInt(i) => i != 0
    case VFloat(f) => f != 0.0
    case VStr(s) => s != ""
    case VList(items) => items != []
    case VDict(entries) => entries != []
  }

  /** Python's `a or b`: the first operand when it is truthy, else the second. */
  function Or(a: Value, b: Value): (r: Value)
    ensures Truthy(r) <==> Truthy(a) || Truthy(b)
  {
    if Truthy(a) then a else b
  }

  /** isinstance(v, (int, float)); a Python bool is an int. */
  predicate IsNumber(v: Value)
  {
    v.VBool? || v.VInt? || v.VFloat?
  }

  /** float(v) for a number. */
  function NumberValue(v: Value): real
    requires IsNumber(v)
  {
    match v
    case VBool(b) => if b then 1.0 else 0.0
    case VInt(i) => i as real
    case VFloat(f) => f
  }

  /** Python's `a == b`: numbers compare by value across bool, int and float. */
  predicate PyEq(a: Value, b: Value)
  {
    if IsNumber(a) && IsNumber(b) then NumberValue(a) == NumberValue(b) else a == b
  }

  /** The decimal digits of a non-negative fraction below 1, at most `fuel` of them. */
  function FractionDigits(x: real, fuel: nat): string
    requires 0.0 <= x < 1.0
    decreases fuel
  {
    if x == 0.0 || fuel == 0 then ""
    else
      var y := x * 10.0;
      var d := y.Floor;
      assert 0 <= d < 10;
      [DigitChar(d)] + FractionDigits(y - d as real, fuel - 1)
  }

  /** str(f) for a float written in positional notation: the integer part, a
      point, and the fraction digits ("3.0", "0.25", "-1.5"). */
  function FloatText(f: real): string
  {
    var a := if f < 0.0 then -f else f;
    var whole := a.Floor;
    var frac := FractionDigits(a - whole as real, 17);
    (if f < 0.0 then "-" else "") + NatToString(whole) + "." + (if frac == "" then "0" else frac)
  }

  /** Python's str(v). */
  function Str(v: Value): string
    decreases v, 1
  {
    match v
    case VNone => "None"
    case VBool(b) => if b then "True" else "False"
    case VInt(i) => IntToString(i)
    case VFloat(f) => FloatText(f)
    case VStr(s) => s
    case VList(items) => "[" + JoinReprs(items) + "]"
    case VDict(entries) => "{" + JoinEntryReprs(entries) + "}"
  }

  /** Python's repr(v) inside a container: strings are quoted. */
  function Repr(v: Value): string
    decreases v, 2
  {
    if v.VStr? then "'" + v.s + "'" else Str(v)
  }

  function JoinReprs(items: seq<Value>): string
    decreases items, 0
  {
    if items == [] then ""
    else if |items| == 1 then Repr(items[0])
    else Repr(items[0]) + ", " + JoinReprs(items[1..])
  }

  function JoinEntryReprs(entries: seq<(string, Value)>): string
    decreases entries, 0
  {
    if entries == [] then ""
    else
      var entry := entries[0];
      assert entry.1 < entry;
      var e := "'" + entry.0 + "': " + Repr(entry.1);
      if |entries| == 1 then e else e + ", " + JoinEntryReprs(entries[1..])
  }

  /** The elements `for x in v` visits: list items, the characters of a string,
      the keys of a dict; a falsy value stands for the `or []` default. */
  function Iterate(v: Value): Result<seq<Value>>
  {
    match v
    case VList(items) => Success(items)
    case VStr(s) => Success(seq(|s|, i requires 0 <= i < |s| => VStr([s[i]])))
    case VDict(entries) => Success(seq(|entries|, i requires 0 <= i < |entries| => VStr(entries[i].0)))
    case _ => if Truthy(v) then Failure("TypeError") else Success([])
  }

  /** len(v): strings, lists and dicts have a length; anything else raises. */
  function Len(v: Value): (r: Result<nat>)
    ensures r.Success? <==> v.VStr? || v.VList? || v.VDict?
  {
    match v
    case VStr(s) => Success(|s|)
    case VList(items) => Success(|items|)
    case VDict(entries) => Success(|entries|)
    case _ => Failure("TypeError")
  }

  /** v[i] for an index below len(v): a list item or a one-character string;
      a decoded JSON dict has string keys only, so an int subscript raises. */
  function Index(v: Value, i: nat): (r: Result<Value>)
    requires Len(v).Success? && i < Len(v).value
    ensures v.VList? ==> r == Success(v.items[i])
    ensures r.Success? <==> !v.VDict?
  {
    match v
    case VStr(s) => Success(VStr([s[i]]))
    case VList(items) => Success(items[i])
    case VDict(_) => Failure("KeyError")
  }
}
