/**
 * Path-addressed lookup and leaf replacement, as `handleTreeUpdate` performs them
 * (App.tsx:59-75): `current[seg]` reads an object member or an array element, and the
 * final `current[last] = newValue` overwrites one child. Values are immutable here, so
 * the deep clone `handleTreeUpdate` takes first is the value itself, and the original can
 * never be changed; `WriteAtPath` walks the path with the loop of `handleTreeUpdate`.
 */
module Paths {
  import opened Wrappers
  import opened Types
  import opened JsRuntime

  /** Position of the first member with key `key`, where a property lookup finds it. */
  function FindKey(members: seq<Member>, key: string): (r: Option<nat>)
    ensures r.Some? ==> r.value < |members| && members[r.value].key == key
    ensures r.Some? ==> forall j :: 0 <= j < r.value ==> members[j].key != key
    ensures r.None? ==> forall j :: 0 <= j < |members| ==> members[j].key != key
  {
    if members == [] then None
    else if members[0].key == key then Some(0)
    else match FindKey(members[1..], key)
      case None => None
      case Some(j) => Some(j + 1)
  }

  /** `v[seg]`: the element an index key denotes, or the member a key names; `None`
      where JavaScript would give `undefined`. */
  function Child(v: JsonValue, seg: string): (r: Option<JsonValue>)
    ensures !IsContainer(v) ==> r.None?
    ensures v.JArray? ==> (r.Some? <==> ParseIndex(seg).Some? && ParseIndex(seg).value < |v.items|)
    ensures v.JObject? && r.None? ==> forall j :: 0 <= j < |v.members| ==> v.members[j].key != seg
    ensures v.JObject? && r.Some? ==> Member(seg, r.value) in v.members
  {
    match v
    case JArray(items) =>
      (match ParseIndex(seg)
       case Some(i) => if i < |items| then Some(items[i]) else None
       case None => None)
    case JObject(members) =>
      (match FindKey(members, seg)
       case Some(j) => Some(members[j].value)
       case None => None)
    case _ => None
  }

  /** The node a path addresses, following `current = current[path[i]]`. */
  function At(v: JsonValue, path: Path): (r: Option<JsonValue>)
    ensures path == [] ==> r == Some(v)
    ensures r.Some? && path != [] ==> r.value < v
    decreases |path|
  {
    if path == [] then Some(v)
    else match Child(v, path[0])
      case Some(c) => At(c, path[1..])
      case None => None
  }

  /** `current[seg] = x` on a copy: the addressed child is replaced, its position and key kept. */
  function SetChild(v: JsonValue, seg: string, x: JsonValue): (r: JsonValue)
    requires Child(v, seg).Some?
    ensures SameShape(v, r)
  {
    match v
    case JArray(items) => JArray(items[ParseIndex(seg).value := x])
    case JObject(members) => JObject(members[FindKey(members, seg).value := Member(seg, x)])
  }

  /** The root after the node at `path` is replaced by `x`. */
  function SetAt(v: JsonValue, path: Path, x: JsonValue): (r: JsonValue)
    requires path != [] && At(v, path).Some?
    ensures SameShape(v, r)
    decreases |path|
  {
    if |path| == 1 then SetChild(v, path[0], x)
    else SetChild(v, path[0], SetAt(Child(v, path[0]).value, path[1..], x))
  }

  /** Both values are arrays of the same length, or objects with the same keys in the
      same order, or neither is a container. */
  predicate SameShape(a: JsonValue, b: JsonValue) {
    match a
    case JArray(xs) => b.JArray? && |b.items| == |xs|
    case JObject(ms) =>
      b.JObject? && |b.members| == |ms| && forall i :: 0 <= i < |ms| ==> b.members[i].key == ms[i].key
    case _ => !IsContainer(b)
  }

  // ---------------------------------------------------------------------------
  // One step

  lemma SetChildGet(v: JsonValue, seg: string, x: JsonValue)
    requires Child(v, seg).Some?
    ensures Child(SetChild(v, seg, x), seg) == Some(x)
    ensures SameShape(v, SetChild(v, seg, x))
  {
    if v.JObject? {
      var ms := v.members;
      var j := FindKey(ms, seg).value;
      var ms' := ms[j := Member(seg, x)];
      assert FindKey(ms', seg) == Some(j) by {
        assert ms'[j].key == seg;
        assert forall t :: 0 <= t < j ==> ms'[t] == ms[t];
      }
    }
  }

  lemma SetChildOther(v: JsonValue, seg: string, other: string, x: JsonValue)
    requires Child(v, seg).Some? && other != seg
    ensures Child(SetChild(v, seg, x), other) == Child(v, other)
  {
    match v
    case JArray(items) =>
      var i := ParseIndex(seg).value;
    case JObject(ms) =>
      var j := FindKey(ms, seg).value;
      var ms' := ms[j := Member(seg, x)];
      assert forall k :: 0 <= k < |ms| ==> (ms'[k].key == other <==> ms[k].key == other);
      var a, b := FindKey(ms', other), FindKey(ms, other);
      if a.Some? && b.Some? {
        assert a.value == b.value;
      }
  }

  lemma SetChildWellFormed(v: JsonValue, seg: string, x: JsonValue, ok: real -> bool)
    requires Child(v, seg).Some?
    ensures WellFormed(v) && WellFormed(x) ==> WellFormed(SetChild(v, seg, x))
    ensures NumbersIn(v, ok) && NumbersIn(x, ok) ==> NumbersIn(SetChild(v, seg, x), ok)
  {
    var r := SetChild(v, seg, x);
    SetChildGet(v, seg, x);
    match v
    case JArray(items) =>
      var i := ParseIndex(seg).value;
      assert forall k :: 0 <= k < |items| && k != i ==> r.items[k] == items[k];
    case JObject(ms) =>
      var j := FindKey(ms, seg).value;
      assert forall k :: 0 <= k < |ms| && k != j ==> r.members[k] == ms[k];
  }

  // ---------------------------------------------------------------------------
  // Whole paths

  /** Walking `p + q` is walking `p`, then `q` from where `p` ended. */
  lemma {:induction false} AtAppend(v: JsonValue, p: Path, q: Path)
    ensures At(v, p + q) == (match At(v, p) case Some(u) => At(u, q) case None => None)
    decreases |p|
  {
    if p == [] {
      assert p + q == q;
    } else {
      assert (p + q)[0] == p[0] && (p + q)[1..] == p[1..] + q;
      match Child(v, p[0])
      case Some(c) => AtAppend(c, p[1..], q);
      case None =>
    }
  }

  /** Every node on the way to an existing node exists. */
  lemma AtPrefix(v: JsonValue, p: Path, k: nat)
    requires At(v, p).Some? && k <= |p|
    ensures At(v, p[..k]).Some?
    ensures At(v, p) == At(At(v, p[..k]).value, p[k..])
  {
    assert p == p[..k] + p[k..];
    AtAppend(v, p[..k], p[k..]);
  }

  /** Every node of a well-formed value is well-formed, and every node of a value whose
      numbers satisfy `ok` has only such numbers. */
  lemma {:induction false} AtWellFormed(v: JsonValue, p: Path, ok: real -> bool)
    requires At(v, p).Some?
    ensures WellFormed(v) ==> WellFormed(At(v, p).value)
    ensures NumbersIn(v, ok) ==> NumbersIn(At(v, p).value, ok)
    decreases |p|
  {
    if p != [] {
      AtWellFormed(Child(v, p[0]).value, p[1..], ok);
    }
  }

  /** After the replacement the path addresses the new value. */
  lemma {:induction false} SetAtGet(v: JsonValue, p: Path, x: JsonValue)
    requires p != [] && At(v, p).Some?
    ensures At(SetAt(v, p, x), p) == Some(x)
    decreases |p|
  {
    var c := Child(v, p[0]).value;
    if |p| == 1 {
      SetChildGet(v, p[0], x);
    } else {
      SetAtGet(c, p[1..], x);
      SetChildGet(v, p[0], SetAt(c, p[1..], x));
    }
  }

  /** Every path that is neither an ancestor nor a descendant of the replaced node
      addresses the same node as before. */
  lemma {:induction false} SetAtElsewhere(v: JsonValue, p: Path, q: Path, x: JsonValue)
    requires p != [] && At(v, p).Some?
    requires !(p <= q) && !(q <= p)
    ensures At(SetAt(v, p, x), q) == At(v, q)
    decreases |p|
  {
    var c := Child(v, p[0]).value;
    var r := SetAt(v, p, x);
    assert q != [];
    if q[0] != p[0] {
      var sub := if |p| == 1 then x else SetAt(c, p[1..], x);
      assert r == SetChild(v, p[0], sub);
      SetChildOther(v, p[0], q[0], sub);
    } else {
      assert |p| > 1 && |q| > 1;
      assert !(p[1..] <= q[1..]) && !(q[1..] <= p[1..]);
      SetAtElsewhere(c, p[1..], q[1..], x);
      SetChildGet(v, p[0], SetAt(c, p[1..], x));
    }
  }

  /** Each ancestor of the replaced node is its old self with the replacement made below
      it, and keeps its kind, its length and its keys. */
  lemma {:induction false} SetAtAncestor(v: JsonValue, p: Path, k: nat, x: JsonValue)
    requires At(v, p).Some? && k < |p|
    ensures At(v, p[..k]).Some? && At(At(v, p[..k]).value, p[k..]).Some?
    ensures At(SetAt(v, p, x), p[..k]).Some?
    ensures At(SetAt(v, p, x), p[..k]).value == SetAt(At(v, p[..k]).value, p[k..], x)
    ensures SameShape(At(v, p[..k]).value, At(SetAt(v, p, x), p[..k]).value)
    decreases |p|
  {
    AtPrefix(v, p, k);
    var c := Child(v, p[0]).value;
    if k == 0 {
      assert p[..0] == [] && p[0..] == p;
      if |p| == 1 {
        SetChildGet(v, p[0], x);
      } else {
        SetChildGet(v, p[0], SetAt(c, p[1..], x));
      }
    } else {
      SetAtAncestor(c, p[1..], k - 1, x);
      SetChildGet(v, p[0], SetAt(c, p[1..], x));
      assert p[1..][..k - 1] == p[1..k] && p[1..][k - 1..] == p[k..];
      assert p[..k][0] == p[0] && p[..k][1..] == p[1..k];
      assert |p| > 1;
    }
  }

  /** Replacing a node by a well-formed value keeps the root well-formed, and replacing it
      by a value whose numbers satisfy `ok` keeps that property of the root. */
  lemma {:induction false} SetAtWellFormed(v: JsonValue, p: Path, x: JsonValue, ok: real -> bool)
    requires p != [] && At(v, p).Some?
    ensures WellFormed(v) && WellFormed(x) ==> WellFormed(SetAt(v, p, x))
    ensures NumbersIn(v, ok) && NumbersIn(x, ok) ==> NumbersIn(SetAt(v, p, x), ok)
    decreases |p|
  {
    var c := Child(v, p[0]).value;
    AtWellFormed(v, [p[0]], ok);
    if |p| == 1 {
      SetChildWellFormed(v, p[0], x, ok);
    } else {
      SetAtWellFormed(c, p[1..], x, ok);
      SetChildWellFormed(v, p[0], SetAt(c, p[1..], x), ok);
    }
  }

  // ---------------------------------------------------------------------------
  // The loop of `handleTreeUpdate` (App.tsx:66-70)

  /** The traversal of `handleTreeUpdate` (App.tsx:66-70): move `current` down every
      segment but the last, then overwrite the last one. There `current` aliases a node
      of the clone, so the write shows at the root; here the nodes passed on the way
      down are recorded and rebuilt bottom-up, which has the same effect. */
  method WriteAtPath(root: JsonValue, path: Path, x: JsonValue) returns (r: JsonValue)
    requires path != [] && At(root, path).Some?
    ensures r == SetAt(root, path, x)
  {
    var last := |path| - 1;
    var current := root;
    var route: seq<JsonValue> := [root];
    var i := 0;
    assert path[0..] == path;
    while i < last
      invariant 0 <= i <= last
      invariant |route| == i + 1 && route[0] == root && route[i] == current
      invariant Walked(route, path)
    {
      Descend(current, path, i, x);
      Extend(route, path, Child(current, path[i]).value);
      current := Child(current, path[i]).value;
      route := route + [current];
      i := i + 1;
    }
    Descend(current, path, last, x);
    r := SetChild(current, path[last], x);
    r := Rebuild(route, path, x, r);
  }

  /** `route` lists the nodes met along `path`, starting from the node it was given:
      each is the child of the one before under the next segment, and the rest of the
      path leads on from each. */
  predicate Walked(route: seq<JsonValue>, path: Path) {
    && 0 < |route| <= |path|
    && (forall j :: 0 <= j < |route| ==> At(route[j], path[j..]).Some?)
    && (forall j :: 0 <= j < |route| - 1 ==> Child(route[j], path[j]) == Some(route[j + 1]))
  }

  /** One more step of the walk keeps the route walked. */
  lemma Extend(route: seq<JsonValue>, path: Path, c: JsonValue)
    requires Walked(route, path) && |route| < |path|
    requires Child(route[|route| - 1], path[|route| - 1]) == Some(c) && At(c, path[|route|..]).Some?
    ensures Walked(route + [c], path)
  {
    var r := route + [c];
    forall j | 0 <= j < |r|
      ensures At(r[j], path[j..]).Some?
    {
      if j < |route| { assert r[j] == route[j]; }
    }
    forall j | 0 <= j < |r| - 1
      ensures Child(r[j], path[j]) == Some(r[j + 1])
    {
      assert r[j] == route[j];
      if j + 1 < |route| { assert r[j + 1] == route[j + 1]; }
    }
  }

  /** The write seen from the root: `route` holds the nodes the walk passed, and `r0` is
      the last of them with the write done; every ancestor is rebuilt around its new
      child, from the bottom up. */
  method Rebuild(route: seq<JsonValue>, path: Path, x: JsonValue, r0: JsonValue) returns (r: JsonValue)
    requires Walked(route, path) && |route| == |path|
    requires r0 == SetAt(route[|route| - 1], path[|route| - 1..], x)
    ensures r == SetAt(route[0], path, x)
  {
    var i := |route| - 1;
    r := r0;
    while i > 0
      invariant 0 <= i < |route|
      invariant r == SetAt(route[i], path[i..], x)
    {
      i := i - 1;
      Descend(route[i], path, i, x);
      r := SetChild(route[i], path[i], r);
    }
    assert path[0..] == path;
  }

  /** One segment of the walk: the node reached by `path[i]` is a child, and writing
      below a node replaces that child by the result of writing below it. */
  lemma Descend(node: JsonValue, path: Path, i: nat, x: JsonValue)
    requires i < |path| && At(node, path[i..]).Some?
    ensures Child(node, path[i]).Some? && At(Child(node, path[i]).value, path[i + 1..]).Some?
    ensures i + 1 == |path| ==> SetAt(node, path[i..], x) == SetChild(node, path[i], x)
    ensures i + 1 < |path| ==>
      SetAt(node, path[i..], x) == SetChild(node, path[i], SetAt(Child(node, path[i]).value, path[i + 1..], x))
  {
    assert path[i..][0] == path[i] && path[i..][1..] == path[i + 1..];
  }
}
