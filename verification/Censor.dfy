/** `RecursivelyCensoredDictWrapper`: the copy of a body that is fit for the logs. */
module Censor {
  import opened ByteText

  datatype Kind = AList | ATuple

  /** A logged value. Sets are frozen or not; dict keys are text. */
  datatype Value =
    | Str(s: string)
    | Int(n: int)
    | Bool(b: bool)
    | Other(tag: int)
    | Sequence(kind: Kind, items: seq<Value>)
    | Set(frozen: bool, members: set<Value>)
    | Dict(entries: map<string, Value>)

  const CENSORED: Value := Str("**********")

  /** A non-empty string or a non-zero integer; a bool is not one. */
  predicate Censorable(v: Value) { (v.Str? && v.s != "") || (v.Int? && v.n != 0) }

  /** `_copy_and_censor_unknown_value`. The names of sensitive fields are a parameter. */
  function Copy(sensitive: set<string>, v: Value, censor: bool): Value
    decreases v
  {
    match v
    case Dict(entries) => Dict(map k | k in entries :: Copy(sensitive, entries[k], k in sensitive))
    case Sequence(kind, items) =>
      Sequence(kind, seq(|items|, i requires 0 <= i < |items| => Copy(sensitive, items[i], censor)))
    case Set(frozen, members) => Set(frozen, set x | x in members :: Copy(sensitive, x, censor))
    case _ => if censor && Censorable(v) then CENSORED else v
  }

  // ------------------------------------------------------------------ what is changed

  /** One step into a value: to a dict's value, a sequence's item or a set's member. */
  datatype Move = Field(key: string) | Item(i: nat) | Member(x: Value)

  function At(v: Value, p: seq<Move>): Option<Value>
    decreases |p|
  {
    if p == [] then Some(v)
    else
      match (v, p[0])
      case (Dict(entries), Field(k)) => if k in entries then At(entries[k], p[1..]) else None
      case (Sequence(_, items), Item(i)) => if i < |items| then At(items[i], p[1..]) else None
      case (Set(_, members), Member(x)) => if x in members then At(x, p[1..]) else None
      case _ => None
  }

  /** Whether what lies at the end of the path is to be censored: the last dict key on it decides. */
  function CensorAfter(sensitive: set<string>, censor: bool, p: seq<Move>): bool
    decreases |p|
  {
    if p == [] then censor
    else CensorAfter(sensitive, if p[0].Field? then p[0].key in sensitive else censor, p[1..])
  }

  /** The path to the copy of what lies at `p`: only set members change on the way. */
  function CopyPath(sensitive: set<string>, censor: bool, p: seq<Move>): seq<Move>
    decreases |p|
  {
    if p == [] then []
    else
      match p[0]
      case Field(k) => [p[0]] + CopyPath(sensitive, k in sensitive, p[1..])
      case Item(_) => [p[0]] + CopyPath(sensitive, censor, p[1..])
      case Member(x) => [Member(Copy(sensitive, x, censor))] + CopyPath(sensitive, censor, p[1..])
  }

  /** Exactly the non-empty strings and non-zero integers reached from a sensitive key through sequences and sets only
      are replaced: at the copied path lies the copy of what was at the path, censored if the last key says so. */
  lemma {:induction false} CopyAt(sensitive: set<string>, v: Value, censor: bool, p: seq<Move>)
    requires At(v, p).Some?
    ensures At(Copy(sensitive, v, censor), CopyPath(sensitive, censor, p))
         == Some(Copy(sensitive, At(v, p).value, CensorAfter(sensitive, censor, p)))
    decreases |p|
  {
    if p != [] {
      var rest := p[1..];
      var copied := CopyPath(sensitive, censor, p);
      match p[0]
      case Field(k) =>
        CopyAt(sensitive, v.entries[k], k in sensitive, rest);
        assert copied[1..] == CopyPath(sensitive, k in sensitive, rest);
      case Item(i) =>
        CopyAt(sensitive, v.items[i], censor, rest);
        assert copied[1..] == CopyPath(sensitive, censor, rest);
      case Member(x) =>
        CopyAt(sensitive, x, censor, rest);
        assert copied[1..] == CopyPath(sensitive, censor, rest);
    }
  }

  /** The last dict key on the path is a sensitive one. */
  predicate LastKeySensitive(sensitive: set<string>, p: seq<Move>) {
    exists i :: 0 <= i < |p| && p[i].Field? && p[i].key in sensitive && forall j :: i < j < |p| ==> !p[j].Field?
  }

  lemma {:induction false} CensorAfterMeans(sensitive: set<string>, censor: bool, p: seq<Move>)
    ensures CensorAfter(sensitive, censor, p)
       <==> LastKeySensitive(sensitive, p) || (censor && forall j :: 0 <= j < |p| ==> !p[j].Field?)
    decreases |p|
  {
    if p != [] {
      var rest := p[1..];
      CensorAfterMeans(sensitive, if p[0].Field? then p[0].key in sensitive else censor, rest);
      assert forall j :: 1 <= j < |p| ==> p[j] == rest[j - 1];
      assert forall j :: 0 <= j < |rest| ==> rest[j] == p[j + 1];
      if LastKeySensitive(sensitive, rest) {
        var i :| 0 <= i < |rest| && rest[i].Field? && rest[i].key in sensitive
                 && forall j :: i < j < |rest| ==> !rest[j].Field?;
        assert p[i + 1].Field? && p[i + 1].key in sensitive;
      }
    }
  }

  /** What the logs show of a body, leaf by leaf: ten asterisks for a string that is not empty or an integer that is not
      zero, under a sensitive key that no other key lies below of; anything else as it is. */
  lemma LeafShown(sensitive: set<string>, d: Value, p: seq<Move>)
    requires At(d, p).Some?
    ensures
      var x := At(d, p).value;
      var shown := At(Copy(sensitive, d, false), CopyPath(sensitive, false, p));
      match x
      case Str(s) => shown == Some(if s != "" && LastKeySensitive(sensitive, p) then Str("**********") else x)
      case Int(n) => shown == Some(if n != 0 && LastKeySensitive(sensitive, p) then Str("**********") else x)
      case Bool(_) => shown == Some(x)
      case Other(_) => shown == Some(x)
      case Dict(entries) => shown.Some? && shown.value.Dict? && shown.value.entries.Keys == entries.Keys
      case Sequence(kind, items) =>
        shown.Some? && shown.value.Sequence? && shown.value.kind == kind && |shown.value.items| == |items|
      case Set(frozen, _) => shown.Some? && shown.value.Set? && shown.value.frozen == frozen
  {
    hide LastKeySensitive;
    CopyAt(sensitive, d, false, p);
    CensorAfterMeans(sensitive, false, p);
  }

  /** The path in the copy differs from the path at set members only. */
  lemma {:induction false} CopyPathMeans(sensitive: set<string>, censor: bool, p: seq<Move>, i: nat)
    requires i < |p|
    ensures
      var q := CopyPath(sensitive, censor, p);
      |q| == |p| && (if p[i].Member? then q[i].Member? else q[i] == p[i])
    decreases |p|
  {
    var rest := p[1..];
    var next := if p[0].Field? then p[0].key in sensitive else censor;
    if |p| > 1 {
      CopyPathMeans(sensitive, next, rest, if i > 0 then i - 1 else 0);
    } else {
      assert CopyPath(sensitive, next, rest) == [];
    }
  }

  /** A second pass changes nothing. */
  lemma {:induction false} CopyIdempotent(sensitive: set<string>, v: Value, censor: bool)
    ensures Copy(sensitive, Copy(sensitive, v, censor), censor) == Copy(sensitive, v, censor)
    decreases v
  {
    match v
    case Dict(entries) =>
      forall k | k in entries
        ensures Copy(sensitive, Copy(sensitive, entries[k], k in sensitive), k in sensitive)
             == Copy(sensitive, entries[k], k in sensitive)
      {
        CopyIdempotent(sensitive, entries[k], k in sensitive);
      }
    case Sequence(kind, items) =>
      forall i | 0 <= i < |items|
        ensures Copy(sensitive, Copy(sensitive, items[i], censor), censor) == Copy(sensitive, items[i], censor)
      {
        CopyIdempotent(sensitive, items[i], censor);
      }
    case Set(frozen, members) =>
      forall x | x in members
        ensures Copy(sensitive, Copy(sensitive, x, censor), censor) == Copy(sensitive, x, censor)
      {
        CopyIdempotent(sensitive, x, censor);
      }
      var once := Copy(sensitive, v, censor);
      assert forall y :: y in once.members ==> Copy(sensitive, y, censor) == y;
    case _ =>
  }

  // ------------------------------------------------------------------ what the logs reveal

  /** The values differ at most in the content of censored leaves. */
  predicate Similar(sensitive: set<string>, v: Value, w: Value, censor: bool)
    decreases v
  {
    match (v, w)
    case (Dict(d), Dict(e)) => d.Keys == e.Keys && forall k :: k in d ==> Similar(sensitive, d[k], e[k], k in sensitive)
    case (Sequence(a, s), Sequence(b, t)) =>
      a == b && |s| == |t| && forall i :: 0 <= i < |s| ==> Similar(sensitive, s[i], t[i], censor)
    case (Set(a, s), Set(b, t)) =>
      && a == b
      && (forall x :: x in s ==> exists y :: y in t && Similar(sensitive, x, y, censor))
      && (forall y :: y in t ==> exists x :: x in s && Similar(sensitive, x, y, censor))
    case _ => v == w || (censor && Censorable(v) && Censorable(w))
  }

  /** Two bodies censor to the same result if and only if they differ at most in the content of censored leaves. */
  lemma {:induction false} SameCopyIffSimilar(sensitive: set<string>, v: Value, w: Value, censor: bool)
    ensures Copy(sensitive, v, censor) == Copy(sensitive, w, censor) <==> Similar(sensitive, v, w, censor)
    decreases v
  {
    match (v, w)
    case (Dict(d), Dict(e)) => SameDicts(sensitive, v, w, censor);
    case (Sequence(_, s), Sequence(_, t)) => SameSequences(sensitive, v, w, censor);
    case (Set(_, s), Set(_, t)) => SameSets(sensitive, v, w, censor);
    case _ =>
  }

  lemma {:induction false} SameDicts(sensitive: set<string>, v: Value, w: Value, censor: bool)
    requires v.Dict? && w.Dict?
    ensures Copy(sensitive, v, censor) == Copy(sensitive, w, censor) <==> Similar(sensitive, v, w, censor)
    decreases v, 0
  {
    var d, e := v.entries, w.entries;
    var d', e' := Copy(sensitive, v, censor).entries, Copy(sensitive, w, censor).entries;
    assert d'.Keys == d.Keys && e'.Keys == e.Keys;
    forall k | k in d && k in e ensures d'[k] == e'[k] <==> Similar(sensitive, d[k], e[k], k in sensitive) {
      SameCopyIffSimilar(sensitive, d[k], e[k], k in sensitive);
    }
  }

  lemma {:induction false} SameSequences(sensitive: set<string>, v: Value, w: Value, censor: bool)
    requires v.Sequence? && w.Sequence?
    ensures Copy(sensitive, v, censor) == Copy(sensitive, w, censor) <==> Similar(sensitive, v, w, censor)
    decreases v, 0
  {
    var s, t := v.items, w.items;
    var s', t' := Copy(sensitive, v, censor).items, Copy(sensitive, w, censor).items;
    assert |s'| == |s| && |t'| == |t|;
    forall i | 0 <= i < |s| && i < |t| ensures s'[i] == t'[i] <==> Similar(sensitive, s[i], t[i], censor) {
      SameCopyIffSimilar(sensitive, s[i], t[i], censor);
    }
  }

  lemma {:induction false} SameSets(sensitive: set<string>, v: Value, w: Value, censor: bool)
    requires v.Set? && w.Set?
    ensures Copy(sensitive, v, censor) == Copy(sensitive, w, censor) <==> Similar(sensitive, v, w, censor)
    decreases v, 0
  {
    var s, t := v.members, w.members;
    var s', t' := Copy(sensitive, v, censor).members, Copy(sensitive, w, censor).members;
    forall x, y | x in s && y in t
      ensures Copy(sensitive, x, censor) == Copy(sensitive, y, censor) <==> Similar(sensitive, x, y, censor)
    {
      SameCopyIffSimilar(sensitive, x, y, censor);
    }
    if s' == t' {
      forall x | x in s ensures exists y :: y in t && Similar(sensitive, x, y, censor) {
        assert Copy(sensitive, x, censor) in t';
      }
      forall y | y in t ensures exists x :: x in s && Similar(sensitive, x, y, censor) {
        assert Copy(sensitive, y, censor) in s';
      }
    }
  }
}
