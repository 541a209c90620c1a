/** Which of the requested strings survive the trip through the trees. */
module Maximal {
  import opened ByteText
  import opened Trees
  import opened Converter

  ghost predicate IsLeaf(kids: seq<Node>, p: Names) { HasPath(kids, p) && forall n :: !HasPath(kids, p + [n]) }

  lemma {:induction false} InsertPaths(c: Config, t: Option<string>, kids: seq<Node>, p: Names, q: Names)
    requires Insert(c, t, kids, p).Ok?
    ensures HasPath(Insert(c, t, kids, p).value, q) <==> HasPath(kids, q) || (q != [] && q <= p)
    decreases |p|
  {
    if p != [] && q != [] {
      var i := FindKid(kids, p[0]);
      var below := q[1..];
      assert q <= p <==> q[0] == p[0] && below <= p[1..];
      if i < |kids| {
        var sub := Insert(c, kids[i].settings.nodeType, kids[i].kids, p[1..]).value;
        var after := kids[i := kids[i].(kids := sub)];
        FindKidIs(after, q[0], FindKid(kids, q[0]));
        InsertPaths(c, kids[i].settings.nodeType, kids[i].kids, p[1..], below);
      } else {
        var s := Configure(c, t, p[0]).value;
        var sub := Insert(c, s.nodeType, [], p[1..]).value;
        FindKidAfterAdd(kids, Node(p[0], s, sub), q[0]);
        InsertPaths(c, s.nodeType, [], p[1..], below);
      }
    }
  }

  lemma {:induction false} InsertAllPaths(c: Config, t: Option<string>, kids: seq<Node>, ps: seq<Names>, q: Names)
    requires InsertAll(c, t, kids, ps).Ok?
    ensures HasPath(InsertAll(c, t, kids, ps).value, q)
       <==> HasPath(kids, q) || (q != [] && exists k :: 0 <= k < |ps| && q <= ps[k])
    decreases |ps|
  {
    if ps != [] {
      var next := Insert(c, t, kids, ps[0]).value;
      InsertPaths(c, t, kids, ps[0], q);
      InsertAllPaths(c, t, next, ps[1..], q);
      assert forall k :: 1 <= k < |ps| ==> ps[k] == ps[1..][k - 1];
    }
  }

  lemma {:induction false} ConformsWellFormed(c: Config, t: Option<string>, kids: seq<Node>)
    requires Conforms(c, t, kids)
    ensures WellFormed(kids)
    decreases kids
  {
    forall x | x in kids ensures WellFormed(x.kids) {
      ConformsWellFormed(c, x.settings.nodeType, x.kids);
    }
  }

  lemma PathOfOne(x: Node, q: Names)
    ensures HasPath([x], q) <==> q != [] && q[0] == x.name && (|q| == 1 || HasPath(x.kids, q[1..]))
  {
    if q != [] { FindKidIs([x], q[0], if x.name == q[0] then 0 else 1); }
  }

  lemma {:induction false} LeavesExact(x: Node, q: Names)
    requires WellFormed(x.kids)
    ensures q in Leaves(x) <==> IsLeaf([x], q)
    decreases x
  {
    PathOfOne(x, q);
    forall n ensures HasPath([x], q + [n]) <==>
        q + [n] != [] && (q + [n])[0] == x.name && (|q| == 0 || HasPath(x.kids, (q + [n])[1..]))
    {
      PathOfOne(x, q + [n]);
    }
    if q != [] && q[0] == x.name {
      assert forall n :: (q + [n])[1..] == q[1..] + [n];
      if x.kids == [] {
        assert forall p :: !HasPath(x.kids, p);
        assert |q| == 1 ==> q == [x.name];
      } else {
        var ps := AllLeaves(x.kids);
        AllLeavesExact(x.kids, q[1..]);
        assert q in Leaves(x) <==> q[1..] in ps by {
          if q[1..] in ps {
            var k :| 0 <= k < |ps| && ps[k] == q[1..];
            assert Below(x.name, ps)[k] == q;
          }
        }
        assert HasPath(x.kids, [x.kids[0].name]) by { FindKidIs(x.kids, x.kids[0].name, 0); }
        assert |q| == 1 ==> HasPath(x.kids, (q + [x.kids[0].name])[1..]);
      }
    }
  }

  lemma {:induction false} AllLeavesExact(kids: seq<Node>, q: Names)
    requires WellFormed(kids)
    ensures q in AllLeaves(kids) <==> IsLeaf(kids, q)
    decreases kids
  {
    hide WellFormed, Leaves;
    if kids != [] {
      WellFormedSplits(kids);
      LeavesExact(kids[0], q);
      AllLeavesExact(kids[1..], q);
      LeafSplits(kids, q);
    }
  }

  lemma WellFormedSplits(kids: seq<Node>)
    requires WellFormed(kids) && kids != []
    ensures WellFormed(kids[0].kids) && WellFormed(kids[1..]) && Distinct(kids)
  {
  }

  lemma LeafSplits(kids: seq<Node>, q: Names)
    requires Distinct(kids) && kids != []
    ensures IsLeaf(kids, q) <==> IsLeaf([kids[0]], q) || IsLeaf(kids[1..], q)
    ensures IsLeaf(kids[1..], q) ==> q[0] != kids[0].name
  {
    HeadAndRest(kids, q);
    PathOfOne(kids[0], q);
    forall n ensures HasPath(kids, q + [n]) <==> HasPath([kids[0]], q + [n]) || HasPath(kids[1..], q + [n]) {
      HeadAndRest(kids, q + [n]);
    }
    if q != [] {
      FindKidIs(kids[1..], kids[0].name, |kids| - 1);
      forall n
        ensures HasPath([kids[0]], q + [n]) ==> q[0] == kids[0].name
        ensures HasPath(kids[1..], q + [n]) ==> q[0] != kids[0].name
      {
        PathOfOne(kids[0], q + [n]);
      }
    }
  }

  predicate NoRepeats<T(==)>(s: seq<T>) { forall i, j :: 0 <= i < j < |s| ==> s[i] != s[j] }

  lemma {:induction false} LeavesNoRepeats(kids: seq<Node>)
    requires WellFormed(kids)
    ensures NoRepeats(AllLeaves(kids))
    decreases kids
  {
    hide IsLeaf, WellFormed;
    if kids != [] {
      var x, first, rest := kids[0], Leaves(kids[0]), AllLeaves(kids[1..]);
      WellFormedSplits(kids);
      LeavesNoRepeats(x.kids);
      LeavesNoRepeats(kids[1..]);
      assert NoRepeats(first) by {
        if x.kids != [] {
          var ps := AllLeaves(x.kids);
          forall i, j | 0 <= i < j < |ps| ensures first[i] != first[j] {
            assert first[i][1..] == ps[i] && first[j][1..] == ps[j];
          }
        }
      }
      forall j | 0 <= j < |rest| ensures rest[j] != [] && rest[j][0] != x.name {
        AllLeavesExact(kids[1..], rest[j]);
        LeafSplits(kids, rest[j]);
        LeafIsNonEmpty(kids[1..], rest[j]);
      }
      assert forall i :: 0 <= i < |first| ==> first[i][0] == x.name;
    }
  }

  lemma LeafIsNonEmpty(kids: seq<Node>, p: Names)
    ensures IsLeaf(kids, p) ==> p != []
  {
  }

  predicate Extended(s: string, ss: seq<string>) {
    exists k :: 0 <= k < |ss| && Split(s) < Split(ss[k])
  }

  /** Going dict to trees to dict keeps, per type and each once, exactly the requested strings that are not a proper
      dotted prefix of another requested string. */
  lemma KeepsMaximalStrings(c: Config, q: Request)
    requires KidsFor(c, q).Ok?
    ensures
      var out := AllToStrings(KidsFor(c, q).value);
      && NoRepeats(out)
      && forall s :: s in out <==> s in q.strings && !Extended(s, q.strings)
  {
    var t, kids, paths := Some(q.nodeType), KidsFor(c, q).value, SplitAll(q.strings);
    var out, ps := AllToStrings(kids), AllLeaves(kids);
    InsertAllConforms(c, t, [], paths);
    ConformsWellFormed(c, t, kids);
    AllStringsAreLeaves(kids);
    LeavesDotFree(c, t, kids);
    LeavesNoRepeats(kids);
    hide KidsFor, AllToStrings, AllLeaves;
    forall k | 0 <= k < |ps| ensures Split(out[k]) == ps[k] { SplitOfJoin(ps[k]); }
    forall s ensures s in out <==> s in q.strings && !Extended(s, q.strings) {
      JoinOfSplit(s);
      LeafIffMaximal(c, q, Split(s));
      AllLeavesExact(kids, Split(s));
      if Split(s) in ps {
        var k :| 0 <= k < |ps| && ps[k] == Split(s);
        assert out[k] == s;
      }
      if Split(s) in paths {
        var k :| 0 <= k < |paths| && paths[k] == Split(s);
        JoinOfSplit(q.strings[k]);
      }
    }
  }

  lemma NoPaths()
    ensures forall p :: !HasPath([], p)
  {
  }

  lemma LeafIffMaximal(c: Config, q: Request, p: Names)
    requires KidsFor(c, q).Ok? && p != []
    ensures IsLeaf(KidsFor(c, q).value, p)
       <==> p in SplitAll(q.strings) && !exists k :: 0 <= k < |q.strings| && p < Split(q.strings[k])
  {
    hide HasPath, InsertAll, Split;
    var t, kids, paths := Some(q.nodeType), KidsFor(c, q).value, SplitAll(q.strings);
    NoPaths();
    InsertAllPaths(c, t, [], paths, p);
    assert forall k :: 0 <= k < |paths| && p <= paths[k] ==> p == paths[k] || p < Split(q.strings[k]);
    if k :| 0 <= k < |q.strings| && p < Split(q.strings[k]) {
      var longer := p + [paths[k][|p|]];
      InsertAllPaths(c, t, [], paths, longer);
      assert longer <= paths[k];
    } else {
      forall n ensures !HasPath(kids, p + [n]) {
        InsertAllPaths(c, t, [], paths, p + [n]);
        assert forall k :: 0 <= k < |paths| && p + [n] <= paths[k] ==> p < Split(q.strings[k]);
      }
    }
  }
}
