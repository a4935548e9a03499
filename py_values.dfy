/**
 * The Python values the core passes around: what `json.loads`, `response.json()` and
 * `yaml.safe_load` produce, and the dicts the pipeline builds. A dict keeps its
 * insertion order, as Python's does, so it is a sequence of key/value entries.
 */
module PyValues {
  import opened Wrappers
  import opened Text

  datatype Value =
    | Null
    | Bool(boolean: bool)
    | Int(number: int)
    | Str(text: string)
    | List(items: seq<Value>)
    | Obj(entries: seq<(string, Value)>)

  type Dict = seq<(string, Value)>

  /** Python's `bool(v)`. */
  predicate Truthy(v: Value) {
    match v
    case Null => false
    case Bool(b) => b
    case Int(n) => n != 0
    case Str(s) => s != ""
    case List(xs) => xs != []
    case Obj(es) => es != []
  }

  /** The name `type(v).__name__` gives, as it appears in Python's error messages. */
  function TypeName(v: Value): string {
    match v
    case Null => "NoneType"
    case Bool(_) => "bool"
    case Int(_) => "int"
    case Str(_) => "str"
    case List(_) => "list"
    case Obj(_) => "dict"
  }

  // ------------------------------------------------------------------ dicts

  function KeysOf(d: Dict): (ks: seq<string>)
    ensures |ks| == |d| && forall i :: 0 <= i < |d| ==> ks[i] == d[i].0
  {
    if d == [] then [] else [d[0].0] + KeysOf(d[1..])
  }

  predicate HasKey(d: Dict, k: string) {
    k in KeysOf(d)
  }

  predicate UniqueKeys(d: Dict) {
    forall i, j :: 0 <= i < j < |d| ==> d[i].0 != d[j].0
  }

  /** `d[k]` when `k in d`: the value of the entry with key `k`. */
  function Lookup(d: Dict, k: string): (r: Option<Value>)
    ensures r.Some? <==> HasKey(d, k)
    ensures r.Some? ==> (k, r.value) in d
  {
    if d == [] then None
    else if d[0].0 == k then Some(d[0].1)
    else Lookup(d[1..], k)
  }

  /** Python's `d.get(k, default)`. */
  function Get(d: Dict, k: string, default: Value): (r: Value)
    ensures HasKey(d, k) ==> (k, r) in d
    ensures !HasKey(d, k) ==> r == default
  {
    match Lookup(d, k)
    case Some(v) => v
    case None => default
  }

  /** Python's `d[k] = v`: an existing entry keeps its place and takes the new value, a new key goes last. */
  function SetKey(d: Dict, k: string, v: Value): (r: Dict)
    ensures |r| == if HasKey(d, k) then |d| else |d| + 1
  {
    if d == [] then [(k, v)]
    else if d[0].0 == k then
      assert KeysOf(d) == [k] + KeysOf(d[1..]);
      [(k, v)] + d[1..]
    else
      assert KeysOf(d) == [d[0].0] + KeysOf(d[1..]);
      [d[0]] + SetKey(d[1..], k, v)
  }

  /** After `d[k] = v`, `k` maps to `v` and every other key to what it mapped to before. */
  lemma {:induction false} SetKeyLookup(d: Dict, k: string, v: Value, k': string)
    ensures Lookup(SetKey(d, k, v), k') == if k' == k then Some(v) else Lookup(d, k')
    decreases |d|
  {
    if d != [] && d[0].0 != k {
      var r := SetKey(d, k, v);
      assert r[0] == d[0] && r[1..] == SetKey(d[1..], k, v);
      SetKeyLookup(d[1..], k, v, k');
    } else if d != [] {
      var r := SetKey(d, k, v);
      assert r[0] == (k, v) && r[1..] == d[1..];
    }
  }

  /** `d[k] = v` leaves the key order alone and appends a new key. */
  lemma {:induction false} SetKeyKeys(d: Dict, k: string, v: Value)
    ensures KeysOf(SetKey(d, k, v)) == if HasKey(d, k) then KeysOf(d) else KeysOf(d) + [k]
    decreases |d|
  {
    if d != [] {
      var r := SetKey(d, k, v);
      assert KeysOf(d) == [d[0].0] + KeysOf(d[1..]);
      if d[0].0 == k {
        assert r[1..] == d[1..];
        assert KeysOf(r) == [k] + KeysOf(d[1..]);
      } else {
        assert r[1..] == SetKey(d[1..], k, v);
        SetKeyKeys(d[1..], k, v);
        assert KeysOf(r) == [d[0].0] + KeysOf(SetKey(d[1..], k, v));
      }
    }
  }

  /** Assign every entry of `b`, in order, into `d`. */
  function Update(d: Dict, b: Dict): Dict
    decreases |b|
  {
    if b == [] then d else Update(SetKey(d, b[0].0, b[0].1), b[1..])
  }

  /** Python's `{**a, **b}`: a key is in the result exactly when it is in either dict. */
  function Merge(a: Dict, b: Dict): (r: Dict)
    ensures forall k :: HasKey(r, k) <==> HasKey(a, k) || HasKey(b, k)
  {
    UpdateKeysAll([], a);
    UpdateKeysAll(Update([], a), b);
    Update(Update([], a), b)
  }

  lemma {:induction false} UpdateLookup(d: Dict, b: Dict, k: string)
    requires UniqueKeys(b)
    ensures Lookup(Update(d, b), k) == if HasKey(b, k) then Lookup(b, k) else Lookup(d, k)
    decreases |b|
  {
    if b != [] {
      assert UniqueKeys(b[1..]) by {
        forall i, j | 0 <= i < j < |b[1..]| ensures b[1..][i].0 != b[1..][j].0 {
          assert b[1..][i] == b[i + 1] && b[1..][j] == b[j + 1];
        }
      }
      UpdateLookup(SetKey(d, b[0].0, b[0].1), b[1..], k);
      SetKeyLookup(d, b[0].0, b[0].1, k);
      assert KeysOf(b) == [b[0].0] + KeysOf(b[1..]);
      if k == b[0].0 {
        assert !HasKey(b[1..], k) by {
          forall i | 0 <= i < |b[1..]| ensures KeysOf(b[1..])[i] != k {
            assert b[1..][i] == b[i + 1];
          }
        }
      }
    }
  }

  lemma {:induction false} UpdateKeys(d: Dict, b: Dict, k: string)
    ensures HasKey(Update(d, b), k) <==> HasKey(d, k) || HasKey(b, k)
    decreases |b|
  {
    if b != [] {
      UpdateKeys(SetKey(d, b[0].0, b[0].1), b[1..], k);
      SetKeyKeys(d, b[0].0, b[0].1);
      assert KeysOf(b) == [b[0].0] + KeysOf(b[1..]);
    }
  }

  lemma UpdateKeysAll(d: Dict, b: Dict)
    ensures forall k :: HasKey(Update(d, b), k) <==> HasKey(d, k) || HasKey(b, k)
  {
    forall k ensures HasKey(Update(d, b), k) <==> HasKey(d, k) || HasKey(b, k) {
      UpdateKeys(d, b, k);
    }
  }

  /** Assigning more keys never moves the keys already there. */
  lemma {:induction false} UpdateKeepsPrefix(d: Dict, b: Dict)
    ensures |KeysOf(Update(d, b))| >= |d|
    ensures KeysOf(Update(d, b))[..|d|] == KeysOf(d)
    decreases |b|
  {
    if b != [] {
      var d' := SetKey(d, b[0].0, b[0].1);
      UpdateKeepsPrefix(d', b[1..]);
      SetKeyKeys(d, b[0].0, b[0].1);
      assert KeysOf(d')[..|d|] == KeysOf(d);
    }
  }

  /**
   * `{**a, **b}` keeps every key of either dict, takes a clashing key's value from `b`,
   * and leaves the keys of `a` first, in their order.
   */
  lemma MergeSpec(a: Dict, b: Dict)
    requires UniqueKeys(a) && UniqueKeys(b)
    ensures forall k :: HasKey(Merge(a, b), k) <==> HasKey(a, k) || HasKey(b, k)
    ensures forall k :: Lookup(Merge(a, b), k) == if HasKey(b, k) then Lookup(b, k) else Lookup(a, k)
    ensures |Merge(a, b)| >= |a| && KeysOf(Merge(a, b))[..|a|] == KeysOf(a)
  {
    forall k ensures HasKey(Merge(a, b), k) <==> HasKey(a, k) || HasKey(b, k) {
      UpdateKeys([], a, k);
      UpdateKeys(Update([], a), b, k);
    }
    forall k ensures Lookup(Merge(a, b), k) == if HasKey(b, k) then Lookup(b, k) else Lookup(a, k) {
      UpdateLookup([], a, k);
      UpdateLookup(Update([], a), b, k);
    }
    UpdateKeepsPrefix([], a);
    UpdateKeepsPrefix(Update([], a), b);
    UpdateOfUniqueIsItself(a);
  }

  lemma {:induction false} UpdateOfUniqueIsItself(a: Dict)
    requires UniqueKeys(a)
    ensures Update([], a) == a
  {
    UpdateFromPrefix(a, 0);
  }

  lemma {:induction false} UpdateFromPrefix(a: Dict, n: nat)
    requires UniqueKeys(a) && n <= |a|
    ensures Update(a[..n], a[n..]) == a
    decreases |a| - n
  {
    if n < |a| {
      calc {
        Update(a[..n], a[n..]);
      == { assert a[n..][0] == a[n] && a[n..][1..] == a[n + 1..]; }
        Update(SetKey(a[..n], a[n].0, a[n].1), a[n + 1..]);
      == { PrefixLacksNext(a, n); SetKeyAppends(a[..n], a[n].0, a[n].1); }
        Update(a[..n] + [(a[n].0, a[n].1)], a[n + 1..]);
      == { assert a[..n] + [(a[n].0, a[n].1)] == a[..n + 1]; }
        Update(a[..n + 1], a[n + 1..]);
      == { UpdateFromPrefix(a, n + 1); }
        a;
      }
    } else {
      assert a[..n] == a;
    }
  }

  /** In a dict without repeated keys, no entry's key occurs before it. */
  lemma PrefixLacksNext(a: Dict, n: nat)
    requires UniqueKeys(a) && n < |a|
    ensures !HasKey(a[..n], a[n].0)
  {
    forall i | 0 <= i < n ensures KeysOf(a[..n])[i] != a[n].0 {
      assert a[..n][i] == a[i];
    }
  }

  lemma {:induction false} SetKeyAppends(d: Dict, k: string, v: Value)
    requires !HasKey(d, k)
    ensures SetKey(d, k, v) == d + [(k, v)]
    decreases |d|
  {
    if d != [] {
      assert KeysOf(d) == [d[0].0] + KeysOf(d[1..]);
      assert d[0].0 != k;
      SetKeyAppends(d[1..], k, v);
      assert SetKey(d, k, v) == [d[0]] + SetKey(d[1..], k, v);
      assert [d[0]] + (d[1..] + [(k, v)]) == d + [(k, v)];
    }
  }

  // ------------------------------------------------------------ exceptions

  /** A subscript: a dict key or a list/string index. */
  datatype Key = KStr(name: string) | KInt(index: int)

  /** The Python exceptions the core raises or catches. */
  datatype Exc =
    | KeyError(key: Key)
    | IndexError(message: string)
    | TypeError(message: string)
    | AttributeError(message: string)
    | ValueError(message: string)
    | JsonDecodeError(message: string)
    | RequestError(message: string)

  /** `str(e)`; a `KeyError` shows the repr of its key. */
  function ExcText(e: Exc): string {
    match e
    case KeyError(k) => (match k case KStr(s) => "'" + s + "'" case KInt(i) => IntText(i))
    case IndexError(m) => m
    case TypeError(m) => m
    case AttributeError(m) => m
    case ValueError(m) => m
    case JsonDecodeError(m) => m
    case RequestError(m) => m
  }

  function AttributeMissing(v: Value, attr: string): Exc {
    AttributeError("'" + TypeName(v) + "' object has no attribute '" + attr + "'")
  }

  /**
   * Python's `v[k]` on a decoded value. Dicts raise `KeyError` for a missing key
   * (and for any integer, their keys being strings), lists and strings raise
   * `IndexError` out of range and accept negative indices, and everything else
   * raises `TypeError`.
   */
  function Subscript(v: Value, k: Key): (r: Result<Value, Exc>)
    ensures v.Obj? && k.KStr? ==> (r.Ok? <==> HasKey(v.entries, k.name))
    ensures v.Obj? && k.KStr? && r.Ok? ==> Lookup(v.entries, k.name) == Some(r.value)
    ensures v.Obj? && r.Err? ==> r.error == KeyError(k)
    ensures v.List? && k.KInt? && 0 <= k.index < |v.items| ==> r == Ok(v.items[k.index])
    ensures !v.Obj? && !v.List? && !v.Str? ==> r.Err? && r.error.TypeError?
  {
    match v
    case Obj(es) =>
      (match k
       case KStr(s) => (match Lookup(es, s) case Some(x) => Ok(x) case None => Err(KeyError(k)))
       case KInt(_) => Err(KeyError(k)))
    case List(xs) =>
      (match k
       case KInt(i) =>
         if -|xs| <= i < |xs| then Ok(xs[if i < 0 then i + |xs| else i])
         else Err(IndexError("list index out of range"))
       case KStr(_) => Err(TypeError("list indices must be integers or slices, not str")))
    case Str(s) =>
      (match k
       case KInt(i) =>
         if -|s| <= i < |s| then Ok(Str([s[if i < 0 then i + |s| else i]]))
         else Err(IndexError("string index out of range"))
       case KStr(_) => Err(TypeError("string indices must be integers, not 'str'")))
    case _ => Err(TypeError("'" + TypeName(v) + "' object is not subscriptable"))
  }

  // ------------------------------------------------------------- str(v)

  function DigitText(n: nat): (r: string)
    decreases n
  {
    if n < 10 then ["0123456789"[n]] else DigitText(n / 10) + ["0123456789"[n % 10]]
  }

  function IntText(i: int): string {
    if i < 0 then "-" + DigitText(-i) else DigitText(i)
  }

  /** `repr(v)`, with strings in single quotes and no escaping. */
  function Repr(v: Value): string
    decreases v
  {
    match v
    case Null => "None"
    case Bool(b) => if b then "True" else "False"
    case Int(n) => IntText(n)
    case Str(s) => "'" + s + "'"
    case List(xs) =>
      "[" + Join(", ", seq(|xs|, i requires 0 <= i < |xs| => Repr(xs[i]))) + "]"
    case Obj(es) =>
      "{" + Join(", ", seq(|es|, i requires 0 <= i < |es| => "'" + es[i].0 + "': " + Repr(es[i].1))) + "}"
  }

  /** `str(v)`, which is what an f-string shows. */
  function Display(v: Value): (r: string)
    ensures v.Str? ==> r == v.text
  {
    if v.Str? then v.text else Repr(v)
  }
}
