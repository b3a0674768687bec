/**
  JSON-mode values as the store keeps them (the result of `model_dump(mode="json")`),
  Python's `==` on them, `str.split(".")`, and the dot-path lookup of the in-memory backend.
 */
module Json {

  /** A JSON value. Numbers are integers only (see README, "Left out"). */
  datatype Value =
    | Null
    | Bool(b: bool)
    | Int(i: int)
    | Str(s: string)
    | List(items: seq<Value>)
    | Dict(fields: map<string, Value>)

  /** A JSON object: a payload, a patch, a filter set. */
  type Object = map<string, Value>

  /** `d.get(k)`: None when the key is absent. */
  function Get(d: Object, k: string): Value
  {
    if k in d then d[k] else Null
  }

  /** Python's `bool` is a subclass of `int`: True == 1 and False == 0. */
  function BoolAsInt(b: bool): int
  {
    if b then 1 else 0
  }

  /** Python's `==` on JSON values, as used by the backend's filter (`actual_val != v`). */
  predicate PyEq(a: Value, b: Value)
  {
    match (a, b)
    case (Null, Null) => true
    case (Bool(x), Bool(y)) => x == y
    case (Bool(x), Int(y)) => BoolAsInt(x) == y
    case (Int(x), Bool(y)) => x == BoolAsInt(y)
    case (Int(x), Int(y)) => x == y
    case (Str(x), Str(y)) => x == y
    case (List(xs), List(ys)) => |xs| == |ys| && forall i :: 0 <= i < |xs| ==> PyEq(xs[i], ys[i])
    case (Dict(m), Dict(n)) => m.Keys == n.Keys && forall k :: k in m ==> PyEq(m[k], n[k])
    case _ => false
  }

  /** Only None equals None: a present value never matches a missing one. */
  lemma PyEqNull(a: Value)
    ensures PyEq(a, Null) <==> a == Null
    ensures PyEq(Null, a) <==> a == Null
  {
  }

  /** A string equals only the same string: no other kind of value compares equal to it. */
  lemma PyEqStr(a: Value, s: string)
    ensures PyEq(a, Str(s)) <==> a == Str(s)
  {
  }

  lemma {:induction false} PyEqReflexive(a: Value)
    ensures PyEq(a, a)
  {
    match a
    case List(xs) =>
      forall i | 0 <= i < |xs| ensures PyEq(xs[i], xs[i]) {
        PyEqReflexive(xs[i]);
      }
    case Dict(m) =>
      forall k | k in m ensures PyEq(m[k], m[k]) {
        PyEqReflexive(m[k]);
      }
    case _ =>
  }

  lemma {:induction false} PyEqSymmetric(a: Value, b: Value)
    requires PyEq(a, b)
    ensures PyEq(b, a)
  {
    match (a, b)
    case (List(xs), List(ys)) =>
      forall i | 0 <= i < |ys| ensures PyEq(ys[i], xs[i]) {
        PyEqSymmetric(xs[i], ys[i]);
      }
    case (Dict(m), Dict(n)) =>
      forall k | k in n ensures PyEq(n[k], m[k]) {
        PyEqSymmetric(m[k], n[k]);
      }
    case _ =>
  }

  lemma {:induction false} PyEqTransitive(a: Value, b: Value, c: Value)
    requires PyEq(a, b) && PyEq(b, c)
    ensures PyEq(a, c)
  {
    match (a, b, c)
    case (List(xs), List(ys), List(zs)) =>
      forall i | 0 <= i < |xs| ensures PyEq(xs[i], zs[i]) {
        PyEqTransitive(xs[i], ys[i], zs[i]);
      }
    case (Dict(m), Dict(n), Dict(o)) =>
      forall k | k in m ensures PyEq(m[k], o[k]) {
        PyEqTransitive(m[k], n[k], o[k]);
      }
    case _ =>
  }

  const Dot: char := '.'

  /** `s.split(".")`: always at least one piece, and no piece holds a dot. */
  function Split(s: string): (parts: seq<string>)
    ensures |parts| >= 1
    ensures forall i :: 0 <= i < |parts| ==> Dot !in parts[i]
    decreases |s|
  {
    if s == [] then [""]
    else
      var rest := Split(s[1..]);
      if s[0] == Dot then [""] + rest
      else [[s[0]] + rest[0]] + rest[1..]
  }

  /** `".".join(parts)`, the inverse of Split. */
  function Join(parts: seq<string>): string
    requires |parts| >= 1
  {
    if |parts| == 1 then parts[0] else parts[0] + [Dot] + Join(parts[1..])
  }

  lemma {:induction false} JoinSplit(s: string)
    ensures Join(Split(s)) == s
    decreases |s|
  {
    if s != [] {
      JoinSplit(s[1..]);
      var rest := Split(s[1..]);
      if s[0] == Dot {
        assert ([""] + rest)[1..] == rest;
      } else {
        var parts := [[s[0]] + rest[0]] + rest[1..];
        if |rest| == 1 {
          assert parts == [[s[0]] + rest[0]];
        } else {
          assert parts[1..] == rest[1..];
          assert Join(rest) == rest[0] + [Dot] + Join(rest[1..]);
        }
      }
    }
  }

  /** Splitting `a + "." + b` for a dot-free `a` yields `a` followed by the pieces of `b`. */
  lemma {:induction false} SplitDotFreePrefix(a: string, b: string)
    requires Dot !in a
    ensures Split(a + [Dot] + b) == [a] + Split(b)
    decreases |a|
  {
    if a == [] {
      assert a + [Dot] + b == [Dot] + b;
      assert ([Dot] + b)[1..] == b;
    } else {
      var s := a + [Dot] + b;
      assert s[1..] == a[1..] + [Dot] + b;
      SplitDotFreePrefix(a[1..], b);
      assert [a[0]] + a[1..] == a;
    }
  }

  /** A dot-free string splits into itself. */
  lemma {:induction false} SplitDotFree(a: string)
    requires Dot !in a
    ensures Split(a) == [a]
    decreases |a|
  {
    if a != [] {
      SplitDotFree(a[1..]);
      assert [a[0]] + a[1..] == a;
    }
  }

  /** A path of two dot-free keys splits into those two keys. */
  lemma SplitPair(a: string, b: string)
    requires Dot !in a && Dot !in b
    ensures Split(a + [Dot] + b) == [a, b]
  {
    SplitDotFreePrefix(a, b);
    SplitDotFree(b);
  }

  lemma {:induction false} SplitJoin(parts: seq<string>)
    requires |parts| >= 1
    requires forall i :: 0 <= i < |parts| ==> Dot !in parts[i]
    ensures Split(Join(parts)) == parts
  {
    if |parts| == 1 {
      SplitDotFree(parts[0]);
    } else {
      SplitJoin(parts[1..]);
      SplitDotFreePrefix(parts[0], Join(parts[1..]));
      assert [parts[0]] + parts[1..] == parts;
    }
  }

  /**
    The value reached by following `keys` from `v`: None as soon as a key is missing
    or the value reached so far is not a dict.
   */
  function PathGet(v: Value, keys: seq<string>): Value
    decreases |keys|
  {
    if keys == [] then v
    else if v.Dict? then PathGet(Get(v.fields, keys[0]), keys[1..])
    else Null
  }

  /** A two-key path looks the second key up in the dict found under the first. */
  lemma PathGetPair(v: Value, a: string, b: string)
    requires v.Dict? && a in v.fields && v.fields[a].Dict?
    ensures PathGet(v, [a, b]) == Get(v.fields[a].fields, b)
  {
    assert [a, b][1..] == [b];
    assert [b][1..] == [];
    assert PathGet(v, [a, b]) == PathGet(v.fields[a], [b]);
  }

  /** A path can be followed in two legs: the walk never resumes after it has stopped. */
  lemma {:induction false} PathGetAppend(v: Value, a: seq<string>, b: seq<string>)
    ensures PathGet(v, a + b) == PathGet(PathGet(v, a), b)
    decreases |a|
  {
    if a == [] {
      assert a + b == b;
    } else if v.Dict? {
      assert (a + b)[1..] == a[1..] + b;
      PathGetAppend(Get(v.fields, a[0]), a[1..], b);
    } else {
      PathGetNull(b);
    }
  }

  /** Nothing can be reached from None but None itself. */
  lemma {:induction false} PathGetNull(keys: seq<string>)
    ensures PathGet(Null, keys) == Null
    decreases |keys|
  {
  }
}
