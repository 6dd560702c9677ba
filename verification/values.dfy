/**
 Python values as the downloader sees them after `json.loads`, the exceptions
 its code can raise, and the handful of Python operators the code applies to
 those values: subscripting (`v[k]`), membership (`k in v`) and truthiness.
 */
module Values {

  /** A decoded JSON value. Numbers are kept as integers: the code never
      inspects a number beyond its truthiness. */
  datatype Json =
    | JNull
    | JBool(b: bool)
    | JNum(n: int)
    | JStr(s: string)
    | JArr(elems: seq<Json>)
    | JObj(fields: map<string, Json>)

  /** The exceptions the modelled code raises, plus two that belong to the
      model: `NonStringField` (a field the model keeps as text held another
      value) and `ScriptExhausted` (the scripted server ran out of responses
      before sending the end bookmark). */
  datatype Error =
    | KeyError(key: string)
    | TypeError
    | AttributeError
    | IndexError
    | ValueError(message: string)
    | JsonDecodeError
    | UserBoardException(reason: Json)
    | NonStringField
    | ScriptExhausted

  datatype Option<+T> = None | Some(value: T)

  /** A computation that either returns a value or raises. */
  datatype Result<+T> = Ok(value: T) | Err(error: Error) {

    predicate IsFailure() {
      Err?
    }

    function PropagateFailure<U>(): Result<U>
      requires Err?
    {
      Err(error)
    }

    function Extract(): T
      requires Ok?
    {
      value
    }
  }

  /** Python's `v[key]` for a string key: a dict answers or raises KeyError,
      every other value raises TypeError. */
  function Lookup(v: Json, key: string): (r: Result<Json>)
    ensures r.Ok? <==> v.JObj? && key in v.fields
    ensures r.Ok? ==> r.value == v.fields[key]
    ensures v.JObj? && key !in v.fields ==> r == Err(KeyError(key))
    ensures !v.JObj? ==> r == Err(TypeError)
  {
    match v
    case JObj(fields) => if key in fields then Ok(fields[key]) else Err(KeyError(key))
    case _ => Err(TypeError)
  }

  /** `v[k0][k1]...`, subscripting left to right and stopping at the first failure. */
  function Path(v: Json, keys: seq<string>): Result<Json>
    decreases |keys|
  {
    if |keys| == 0 then Ok(v)
    else
      var child :- Lookup(v, keys[0]);
      Path(child, keys[1..])
  }

  /** `v[k0][k1]...` where the model needs the value as text. */
  function TextAt(v: Json, keys: seq<string>): Result<string>
  {
    var x :- Path(v, keys);
    if x.JStr? then Ok(x.s) else Err(NonStringField)
  }

  /** True when `p` is a prefix of `s`. */
  predicate StartsWith(s: string, p: string)
  {
    |p| <= |s| && s[..|p|] == p
  }

  /** True when `p` occurs somewhere in `s` (Python's `p in s` on strings). */
  predicate IsInfix(p: string, s: string)
    decreases |s|
  {
    StartsWith(s, p) || (|s| > 0 && IsInfix(p, s[1..]))
  }

  /** Python's `key in v`: dict keys, list elements, substrings; any other
      value raises TypeError. */
  function Contains(v: Json, key: string): (r: Result<bool>)
    ensures r.Ok? <==> v.JObj? || v.JArr? || v.JStr?
    ensures v.JObj? ==> (r == Ok(true) <==> key in v.fields)
    ensures v.JArr? ==> (r == Ok(true) <==> exists i :: 0 <= i < |v.elems| && v.elems[i] == JStr(key))
    ensures v.JStr? ==> (r == Ok(true) <==> exists i :: 0 <= i <= |v.s| && StartsWith(v.s[i..], key))
    ensures !(v.JObj? || v.JArr? || v.JStr?) ==> r == Err(TypeError)
  {
    match v
    case JObj(fields) => Ok(key in fields)
    case JArr(elems) => Ok(JStr(key) in elems)
    case JStr(s) => InfixAt(key, s); Ok(IsInfix(key, s))
    case _ => Err(TypeError)
  }

  /** Python's truthiness of a decoded JSON value: exactly `None`, `False`,
      zero and the empty string, list and dict are falsy. */
  function Truthy(v: Json): (t: bool)
    ensures !t <==> v == JNull || v == JBool(false) || v == JNum(0) || v == JStr("")
                    || v == JArr([]) || v == JObj(map[])
  {
    match v
    case JNull => false
    case JBool(b) => b
    case JNum(n) => n != 0
    case JStr(s) => s != ""
    case JArr(elems) => elems != []
    case JObj(fields) => fields != map[]
  }

  /** A string that is too short cannot contain `p`. */
  lemma {:induction false} ShortHasNoInfix(p: string, s: string)
    requires |s| < |p|
    ensures !IsInfix(p, s)
    decreases |s|
  {
    if |s| > 0 {
      ShortHasNoInfix(p, s[1..]);
    }
  }

  /** `p` occurs in `s` exactly when some position of `s` starts with it. */
  lemma {:induction false} InfixAt(p: string, s: string)
    ensures IsInfix(p, s) <==> exists i :: 0 <= i <= |s| && StartsWith(s[i..], p)
    decreases |s|
  {
    if |s| > 0 {
      InfixAt(p, s[1..]);
      if IsInfix(p, s[1..]) {
        var i :| 0 <= i <= |s[1..]| && StartsWith(s[1..][i..], p);
        assert s[1..][i..] == s[i + 1..];
      }
      forall i | 1 <= i <= |s| && StartsWith(s[i..], p)
        ensures IsInfix(p, s[1..])
      {
        assert s[1..][i - 1..] == s[i..];
      }
    } else {
      assert s[0..] == s;
    }
    assert s[0..] == s;
  }

  /** Concatenation of sequences is associative. */
  lemma SeqAssoc<T>(x: seq<T>, y: seq<T>, z: seq<T>)
    ensures x + (y + z) == (x + y) + z
  {
  }
}
