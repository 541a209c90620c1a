/** Response bodies, and the search for objects of one type in them. */
module Json {
  import opened ByteText

  datatype Atom = Nil | Bool(b: bool) | Num(n: int) | Text(s: string)

  /** A deserialized body. A dict maps `keys[i]` to `values[i]` in insertion order; `id` is its object identity. */
  datatype Json =
    | Leaf(atom: Atom)
    | List(items: seq<Json>)
    | Dict(id: nat, keys: seq<Atom>, values: seq<Json>)

  function IndexOf(keys: seq<Atom>, key: Atom): (i: nat)
    ensures i <= |keys| && (i < |keys| ==> keys[i] == key) && key !in keys[..i]
  {
    if keys == [] || keys[0] == key then 0 else
      var i := 1 + IndexOf(keys[1..], key);
      assert keys[..i] == [keys[0]] + keys[1..][..i - 1];
      i
  }

  /** `d.get(key)`, with `None` for an absent key. */
  function Get(d: Json, key: Atom): Option<Json>
    requires d.Dict?
  {
    var i := IndexOf(d.keys, key);
    if i < |d.keys| && i < |d.values| then Some(d.values[i]) else None
  }

  /** A dict holds the value under the key: at the key's first position. */
  ghost predicate Holds(d: Json, key: Atom, v: Json) {
    d.Dict? && exists j :: 0 <= j < |d.keys| && d.keys[j] == key && (forall i :: 0 <= i < j ==> d.keys[i] != key)
                           && j < |d.values| && d.values[j] == v
  }

  lemma GetIsHeld(d: Json, key: Atom, v: Json)
    requires d.Dict?
    ensures Get(d, key) == Some(v) <==> Holds(d, key, v)
  {
    var i := IndexOf(d.keys, key);
    assert forall k :: 0 <= k < i ==> d.keys[..i][k] == d.keys[k];
    if i < |d.keys| && i < |d.values| && d.values[i] == v {
      assert Holds(d, key, v);
    }
  }

  predicate Truthy(v: Json) {
    match v
    case Leaf(Nil) => false
    case Leaf(Bool(b)) => b
    case Leaf(Num(n)) => n != 0
    case Leaf(Text(s)) => s != ""
    case List(items) => items != []
    case Dict(_, keys, _) => keys != []
  }

  function TypeAtom(t: Option<string>): Atom { if t.Some? then Text(t.value) else Nil }

  /** A dict whose `_type` equals the node's type. An absent `_type` reads as `None`, so a node without a type
      matches every dict that has none. */
  predicate Matches(t: Option<string>, v: Json) {
    v.Dict? && (var found := Get(v, Text("_type"));
                (if found.Some? then found.value else Leaf(Nil)) == Leaf(TypeAtom(t)))
  }

  /** The match in terms of positions: the type's name is the value under `_type`, or both are missing. */
  lemma MatchesMeans(t: Option<string>, v: Json)
    ensures Matches(t, v)
       <==> v.Dict? && (if t.Some? then Holds(v, Text("_type"), Leaf(Text(t.value)))
                        else Holds(v, Text("_type"), Leaf(Nil)) || forall x :: !Holds(v, Text("_type"), x))
  {
    if v.Dict? {
      forall x ensures Get(v, Text("_type")) == Some(x) <==> Holds(v, Text("_type"), x) {
        GetIsHeld(v, Text("_type"), x);
      }
    }
  }

  /** What counts as true: anything but null, false, zero and what is empty. */
  lemma TruthyMeans(v: Json)
    ensures Truthy(v)
       <==> v !in {Leaf(Nil), Leaf(Bool(false)), Leaf(Num(0)), Leaf(Text("")), List([])} && !(v.Dict? && v.keys == [])
  {
  }

  function Children(v: Json): seq<Json> {
    match v case Leaf(_) => [] case List(items) => items case Dict(_, _, values) => values
  }

  /** `TypeNode.find_objects`. */
  function FindObjects(t: Option<string>, v: Json): (os: seq<Json>)
    ensures forall o :: o in os ==> o.Dict?
    decreases v, 1
  {
    if Matches(t, v) then [v]
    else
      match v
      case Leaf(_) => []
      case List(items) => FindInAll(t, items)
      case Dict(_, _, values) => FindInAll(t, values)
  }

  function FindInAll(t: Option<string>, vs: seq<Json>): (os: seq<Json>)
    ensures forall o :: o in os ==> o.Dict?
    decreases vs, 0
  {
    if vs == [] then [] else FindObjects(t, vs[0]) + FindInAll(t, vs[1..])
  }

  // ------------------------------------------------------------------ which objects those are

  /** A position: the child to take at each level, from the root. */
  type Path = seq<nat>

  function At(v: Json, p: Path): Option<Json>
    decreases |p|
  {
    if p == [] then Some(v)
    else if p[0] < |Children(v)| then At(Children(v)[p[0]], p[1..])
    else None
  }

  predicate MatchAt(t: Option<string>, v: Json, p: Path) { At(v, p).Some? && Matches(t, At(v, p).value) }

  /** A matching dict at `p` that no matching dict contains. */
  predicate Outermost(t: Option<string>, v: Json, p: Path) {
    MatchAt(t, v, p) && forall k :: 0 <= k < |p| ==> !MatchAt(t, v, p[..k])
  }

  /** Positions in traversal order: lexicographic, with no position inside another. */
  predicate Before(p: Path, q: Path)
    decreases |p|
  {
    p != [] && q != [] && (p[0] < q[0] || (p[0] == q[0] && Before(p[1..], q[1..])))
  }

  function Under(i: nat, ps: seq<Path>): (r: seq<Path>)
    ensures |r| == |ps| && forall k :: 0 <= k < |ps| ==> r[k] == [i] + ps[k]
  {
    if ps == [] then [] else [[i] + ps[0]] + Under(i, ps[1..])
  }

  /** Where `FindObjects` finds its results. */
  function FindPaths(t: Option<string>, v: Json): seq<Path>
    decreases v, 1
  {
    if Matches(t, v) then [[]]
    else
      match v
      case Leaf(_) => []
      case List(items) => FindPathsInAll(t, items, 0)
      case Dict(_, _, values) => FindPathsInAll(t, values, 0)
  }

  function FindPathsInAll(t: Option<string>, vs: seq<Json>, from: nat): seq<Path>
    decreases vs, 0
  {
    if vs == [] then [] else Under(from, FindPaths(t, vs[0])) + FindPathsInAll(t, vs[1..], from + 1)
  }

  lemma {:induction false} FindPathsLocate(t: Option<string>, v: Json)
    ensures
      var ps, os := FindPaths(t, v), FindObjects(t, v);
      |ps| == |os| && forall k :: 0 <= k < |ps| ==> At(v, ps[k]) == Some(os[k])
    decreases v, 1
  {
    hide Matches;
    match v
    case Leaf(_) =>
    case List(items) => FindPathsInAllLocate(t, items, 0);
    case Dict(_, _, values) => FindPathsInAllLocate(t, values, 0);
  }

  /** `o` is at `p` when the positions in `vs` are counted from `from`. */
  predicate Located(vs: seq<Json>, from: nat, p: Path, o: Json) {
    p != [] && from <= p[0] < from + |vs| && At(vs[p[0] - from], p[1..]) == Some(o)
  }

  lemma LocatedInFirst(vs: seq<Json>, from: nat, p: Path, o: Json)
    requires vs != [] && At(vs[0], p) == Some(o)
    ensures Located(vs, from, [from] + p, o)
  {
    assert ([from] + p)[1..] == p;
  }

  lemma {:induction false} FindPathsInAllLocate(t: Option<string>, vs: seq<Json>, from: nat)
    ensures
      var ps, os := FindPathsInAll(t, vs, from), FindInAll(t, vs);
      |ps| == |os| && forall k :: 0 <= k < |ps| ==> Located(vs, from, ps[k], os[k])
    decreases vs, 0
  {
    if vs != [] {
      FindPathsLocate(t, vs[0]);
      FindPathsInAllLocate(t, vs[1..], from + 1);
      FindSplits(t, vs, from);
      hide FindPaths, FindObjects, FindPathsInAll, FindInAll, At;
      var first, firstOs := FindPaths(t, vs[0]), FindObjects(t, vs[0]);
      forall k | 0 <= k < |first| ensures Located(vs, from, [from] + first[k], firstOs[k]) {
        LocatedInFirst(vs, from, first[k], firstOs[k]);
      }
      assert forall p, o :: Located(vs[1..], from + 1, p, o) ==> Located(vs, from, p, o);
    }
  }

  lemma FindSplits(t: Option<string>, vs: seq<Json>, from: nat)
    requires vs != []
    ensures FindPathsInAll(t, vs, from) == Under(from, FindPaths(t, vs[0])) + FindPathsInAll(t, vs[1..], from + 1)
    ensures FindInAll(t, vs) == FindObjects(t, vs[0]) + FindInAll(t, vs[1..])
  {
  }

  lemma OutermostBelow(t: Option<string>, v: Json, p: Path)
    requires !Matches(t, v)
    ensures Outermost(t, v, p)
       <==> p != [] && p[0] < |Children(v)| && Outermost(t, Children(v)[p[0]], p[1..])
  {
    hide Matches;
    if p != [] && p[0] < |Children(v)| {
      var child := Children(v)[p[0]];
      forall k | 0 <= k < |p| - 1
        ensures MatchAt(t, v, p[..k + 1]) <==> MatchAt(t, child, p[1..][..k])
      {
        assert p[..k + 1][1..] == p[1..][..k];
      }
      assert forall k :: 0 <= k < |p| && MatchAt(t, v, p[..k]) ==> k > 0 && MatchAt(t, child, p[1..][..k - 1]);
      assert p[..0] == [];
    }
  }

  lemma {:induction false} FindPathsExact(t: Option<string>, v: Json, p: Path)
    ensures p in FindPaths(t, v) <==> Outermost(t, v, p)
    decreases v, 1
  {
    hide Matches;
    if Matches(t, v) {
      assert p != [] ==> MatchAt(t, v, p[..0]);
    } else {
      OutermostBelow(t, v, p);
      match v
      case Leaf(_) =>
      case List(items) => FindPathsInAllExact(t, items, 0, p);
      case Dict(_, _, values) => FindPathsInAllExact(t, values, 0, p);
    }
  }

  lemma InUnder(i: nat, ps: seq<Path>, p: Path)
    ensures p in Under(i, ps) <==> p != [] && p[0] == i && p[1..] in ps
  {
    var r := Under(i, ps);
    if p != [] && p[0] == i && p[1..] in ps {
      var k :| 0 <= k < |ps| && ps[k] == p[1..];
      assert r[k] == p;
    }
  }

  lemma {:induction false} FindPathsInAllExact(t: Option<string>, vs: seq<Json>, from: nat, p: Path)
    ensures p in FindPathsInAll(t, vs, from)
       <==> p != [] && from <= p[0] < from + |vs| && Outermost(t, vs[p[0] - from], p[1..])
    decreases vs, 0
  {
    hide Outermost;
    if vs != [] {
      InUnder(from, FindPaths(t, vs[0]), p);
      FindPathsInAllExact(t, vs[1..], from + 1, p);
      FindSplits(t, vs, from);
      hide FindPaths, FindPathsInAll, FindInAll, FindObjects, Under;
      if p != [] {
        FindPathsExact(t, vs[0], p[1..]);
        assert p[0] > from && p[0] - from < |vs| ==> vs[p[0] - from] == vs[1..][p[0] - from - 1];
      }
    }
  }

  predicate Ordered(ps: seq<Path>) { forall i, j :: 0 <= i < j < |ps| ==> Before(ps[i], ps[j]) }

  lemma {:induction false} FindPathsOrdered(t: Option<string>, v: Json)
    ensures Ordered(FindPaths(t, v))
    decreases v, 1
  {
    match v
    case Leaf(_) =>
    case List(items) => FindPathsInAllOrdered(t, items, 0);
    case Dict(_, _, values) => FindPathsInAllOrdered(t, values, 0);
  }

  lemma {:induction false} FindPathsInAllOrdered(t: Option<string>, vs: seq<Json>, from: nat)
    ensures Ordered(FindPathsInAll(t, vs, from))
    decreases vs, 0
  {
    if vs != [] {
      var first, rest := FindPaths(t, vs[0]), FindPathsInAll(t, vs[1..], from + 1);
      FindPathsOrdered(t, vs[0]);
      FindPathsInAllOrdered(t, vs[1..], from + 1);
      FindPathsInAllLocate(t, vs[1..], from + 1);
      assert forall k :: 0 <= k < |rest| ==> Located(vs[1..], from + 1, rest[k], FindInAll(t, vs[1..])[k]);
      forall i, j | 0 <= i < j < |first|
        ensures Before(Under(from, first)[i], Under(from, first)[j])
      {
        assert ([from] + first[i])[1..] == first[i] && ([from] + first[j])[1..] == first[j];
      }
    }
  }

  /** `find_objects` returns, in traversal order and each once, exactly the matching dicts that lie inside no other
      matching dict. */
  lemma FindObjectsExact(t: Option<string>, v: Json)
    ensures
      var ps, os := FindPaths(t, v), FindObjects(t, v);
      && |ps| == |os| && Ordered(ps)
      && (forall k :: 0 <= k < |ps| ==> At(v, ps[k]) == Some(os[k]))
      && (forall p :: p in ps <==> Outermost(t, v, p))
  {
    FindPathsLocate(t, v);
    FindPathsOrdered(t, v);
    forall p ensures p in FindPaths(t, v) <==> Outermost(t, v, p) { FindPathsExact(t, v, p); }
  }

  /** Every matching dict is a result or lies inside one. */
  lemma {:induction false} EveryMatchIsCovered(t: Option<string>, v: Json, p: Path) returns (k: nat)
    requires MatchAt(t, v, p)
    ensures k <= |p| && p[..k] in FindPaths(t, v)
  {
    k := 0;
    while k < |p| && !MatchAt(t, v, p[..k])
      invariant k <= |p| && forall j :: 0 <= j < k ==> !MatchAt(t, v, p[..j])
    {
      k := k + 1;
    }
    assert p[..|p|] == p;
    assert forall j :: 0 <= j < k ==> p[..k][..j] == p[..j];
    FindPathsExact(t, v, p[..k]);
  }

  // ------------------------------------------------------------------ atoms below a value

  predicate LeavesIn(v: Json, ids: set<Atom>)
    decreases v, 1
  {
    match v
    case Leaf(a) => a in ids
    case List(items) => AllLeavesIn(items, ids)
    case Dict(_, _, values) => AllLeavesIn(values, ids)
  }

  predicate AllLeavesIn(vs: seq<Json>, ids: set<Atom>)
    decreases vs, 0
  {
    forall v :: v in vs ==> LeavesIn(v, ids)
  }

  lemma {:induction false} FoundLeavesIn(t: Option<string>, v: Json, ids: set<Atom>)
    requires LeavesIn(v, ids)
    ensures forall o :: o in FindObjects(t, v) ==> LeavesIn(o, ids)
    decreases v, 1
  {
    match v
    case Leaf(_) =>
    case List(items) => AllFoundLeavesIn(t, items, ids);
    case Dict(_, _, values) => AllFoundLeavesIn(t, values, ids);
  }

  lemma {:induction false} AllFoundLeavesIn(t: Option<string>, vs: seq<Json>, ids: set<Atom>)
    requires AllLeavesIn(vs, ids)
    ensures forall o :: o in FindInAll(t, vs) ==> LeavesIn(o, ids)
    decreases vs, 0
  {
    if vs != [] {
      FoundLeavesIn(t, vs[0], ids);
      AllFoundLeavesIn(t, vs[1..], ids);
    }
  }
}
