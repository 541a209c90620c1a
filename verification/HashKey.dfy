/** `dict_to_hashable`, which makes the key of the Redis backend cache. */
module HashKey {

  /** A Python value. `Atom` stands for anything hashable that is no container, `Frozen` for a frozen set of pairs. */
  datatype Value =
    | Atom(a: int)
    | Tuple(items: seq<Value>)
    | List(items: seq<Value>)
    | Frozen(pairs: set<(int, Value)>)
    | Dict(entries: map<int, Value>)

  predicate Hashable(v: Value) {
    match v
    case Atom(_) => true
    case Tuple(items) => forall i :: 0 <= i < |items| ==> Hashable(items[i])
    case List(_) => false
    case Frozen(pairs) => forall p :: p in pairs ==> Hashable(p.1)
    case Dict(_) => false
  }

  /** What a dict's value becomes inside the frozen set. */
  function Convert(v: Value): Value
    decreases v, 1
  {
    match v
    case List(items) => Tuple(items)
    case Dict(entries) => ToHashable(v)
    case _ => v
  }

  function ToHashable(d: Value): Value
    requires d.Dict?
    decreases d, 0
  {
    Frozen(set k | k in d.entries :: (k, Convert(d.entries[k])))
  }

  /** The conversion does not raise: every list holds hashable items only, at any depth. */
  predicate Convertible(v: Value) {
    match v
    case List(items) => forall i :: 0 <= i < |items| ==> Hashable(items[i])
    case Dict(entries) => forall k :: k in entries ==> Convertible(entries[k])
    case _ => Hashable(v)
  }

  /** No value of the dict, at any depth of dicts, is a tuple or a frozen set already. */
  predicate Plain(v: Value) {
    match v
    case Dict(entries) => forall k :: k in entries ==> Plain(entries[k])
    case Tuple(_) => false
    case Frozen(_) => false
    case _ => true
  }

  lemma {:induction false} ConvertHashable(v: Value)
    ensures Hashable(Convert(v)) <==> Convertible(v)
  {
    if v.Dict? {
      var f := ToHashable(v);
      forall k | k in v.entries ensures Hashable(Convert(v.entries[k])) <==> Convertible(v.entries[k]) {
        ConvertHashable(v.entries[k]);
        assert (k, Convert(v.entries[k])) in f.pairs;
      }
      if Hashable(f) {
        forall k | k in v.entries ensures Convertible(v.entries[k]) {
          assert (k, Convert(v.entries[k])) in f.pairs && Hashable((k, Convert(v.entries[k])).1);
        }
      }
    }
  }

  /** The key is faithful: plain values convert to the same form exactly when they are equal, whatever the order their
      keys were inserted in. */
  lemma {:induction false} ConvertInjective(v: Value, w: Value)
    requires Plain(v) && Plain(w)
    ensures Convert(v) == Convert(w) <==> v == w
    decreases v
  {
    if v.Dict? && w.Dict? && Convert(v) == Convert(w) {
      var f, g := ToHashable(v), ToHashable(w);
      forall k | k in v.entries ensures k in w.entries && v.entries[k] == w.entries[k] {
        assert (k, Convert(v.entries[k])) in g.pairs;
        ConvertInjective(v.entries[k], w.entries[k]);
      }
      forall k | k in w.entries ensures k in v.entries {
        assert (k, Convert(w.entries[k])) in f.pairs;
      }
      assert v.entries == w.entries;
    }
  }

  lemma ToHashableFaithful(d: Value, e: Value)
    requires d.Dict? && e.Dict? && Plain(d) && Plain(e)
    ensures ToHashable(d) == ToHashable(e) <==> d == e
  {
    ConvertInjective(d, e);
  }

  /** Each key has one value, as in a dict. */
  predicate Functional(pairs: set<(int, Value)>) {
    forall p, q :: p in pairs && q in pairs && p.0 == q.0 ==> p == q
  }

  /** Some other value has the same form: a list has the tuple of its items, a dict its frozen set, and the other way
      round. */
  predicate HasTwin(v: Value) { v.List? || v.Tuple? || v.Dict? || (v.Frozen? && Functional(v.pairs)) }

  lemma FormIsFunctional(d: Value)
    requires d.Dict?
    ensures Functional(ToHashable(d).pairs)
  {
  }

  function AsMap(pairs: set<(int, Value)>): (m: map<int, Value>)
    requires Functional(pairs)
    ensures forall p :: p in pairs ==> p.0 in m && m[p.0] == p.1
    ensures forall k :: k in m ==> (k, m[k]) in pairs
  {
    map p | p in pairs :: p.0 := p.1
  }

  lemma HashableStays(v: Value)
    requires Hashable(v)
    ensures Convert(v) == v
  {
  }

  function Twin(v: Value): (w: Value)
    requires HasTwin(v)
  {
    match v
    case List(items) => Tuple(items)
    case Tuple(items) => List(items)
    case Dict(_) => ToHashable(v)
    case Frozen(pairs) => Dict(AsMap(pairs))
  }

  lemma TwinConverts(v: Value)
    requires HasTwin(v) && Convertible(v)
    ensures Twin(v) != v && Convert(Twin(v)) == Convert(v)
  {
    if v.Frozen? {
      var w := AsMap(v.pairs);
      var f := ToHashable(Dict(w));
      forall p | p in v.pairs ensures Convert(p.1) == p.1 { HashableStays(p.1); }
      forall p | p in v.pairs ensures p in f.pairs { assert p == (p.0, Convert(w[p.0])); }
      assert f.pairs == v.pairs;
    }
  }

  lemma ReplaceByTwin(d: Value, k: int)
    requires d.Dict? && Convertible(d) && k in d.entries && HasTwin(d.entries[k])
    ensures
      var e := Dict(d.entries[k := Twin(d.entries[k])]);
      e != d && ToHashable(e) == ToHashable(d)
  {
    var m, m' := d.entries, d.entries[k := Twin(d.entries[k])];
    TwinConverts(m[k]);
    assert m[k] != m'[k] && m'.Keys == m.Keys;
    assert forall j :: j in m ==> Convert(m[j]) == Convert(m'[j]);
  }

  lemma NoTwinNoCollision(d: Value, e: Value)
    requires d.Dict? && e.Dict? && ToHashable(e) == ToHashable(d)
    requires forall k :: k in d.entries ==> !HasTwin(d.entries[k])
    ensures d == e
  {
    forall k | k in d.entries ensures k in e.entries && e.entries[k] == d.entries[k] {
      assert (k, Convert(d.entries[k])) in ToHashable(e).pairs;
      if e.entries[k].Dict? { FormIsFunctional(e.entries[k]); }
    }
    forall k | k in e.entries ensures k in d.entries {
      assert (k, Convert(e.entries[k])) in ToHashable(d).pairs;
    }
    assert d.entries == e.entries;
  }

  /** The guarantee beyond plain dicts, exactly: a dict shares its key with some other dict if and only if one of its
      values has a twin. */
  lemma CollidesIff(d: Value)
    requires d.Dict? && Convertible(d)
    ensures (exists e: Value :: e.Dict? && e != d && ToHashable(e) == ToHashable(d))
       <==> exists k :: k in d.entries && HasTwin(d.entries[k])
  {
    if k :| k in d.entries && HasTwin(d.entries[k]) {
      ReplaceByTwin(d, k);
    } else {
      forall e: Value | e.Dict? && ToHashable(e) == ToHashable(d) ensures e == d { NoTwinNoCollision(d, e); }
    }
  }
}
