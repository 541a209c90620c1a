/** `ExpansionConverter`: expansion dictionaries to trees and back. */
module Converter {
  import opened ByteText
  import opened Trees

  // ------------------------------------------------------------------ dotted strings

  predicate DotFree(p: Names) { forall n :: n in p ==> '.' !in n }

  predicate AllDotFree(ps: seq<Names>) { forall k :: 0 <= k < |ps| ==> DotFree(ps[k]) }

  /** `s.split('.')`: never empty, and no part contains a dot. */
  function Split(s: string): (p: Names)
    ensures p != [] && DotFree(p)
  {
    if s == "" then [""]
    else if s[0] == '.' then [""] + Split(s[1..])
    else
      var p := Split(s[1..]);
      [[s[0]] + p[0]] + p[1..]
  }

  function Join(p: Names): string
    requires p != []
  {
    if |p| == 1 then p[0] else p[0] + "." + Join(p[1..])
  }

  lemma {:induction false} JoinOfSplit(s: string)
    ensures Join(Split(s)) == s
  {
    if s != "" {
      var p := Split(s[1..]);
      JoinOfSplit(s[1..]);
      if s[0] == '.' {
        assert ([""] + p)[1..] == p;
        assert "" + "." + s[1..] == s;
      } else {
        assert ([[s[0]] + p[0]] + p[1..])[1..] == p[1..];
      }
    }
  }

  lemma {:induction false} SplitOfPart(n: string, rest: string)
    requires '.' !in n && (rest == "" || rest[0] == '.')
    ensures Split(n + rest) == if rest == "" then [n] else [n] + Split(rest[1..])
  {
    if n == "" {
      assert n + rest == rest;
    } else {
      assert (n + rest)[1..] == n[1..] + rest;
      SplitOfPart(n[1..], rest);
      assert [n[0]] + n[1..] == n;
    }
  }

  lemma {:induction false} SplitOfJoin(p: Names)
    requires p != [] && DotFree(p)
    ensures Split(Join(p)) == p
  {
    if |p| == 1 {
      SplitOfPart(p[0], "");
      assert p[0] + "" == p[0];
    } else {
      SplitOfJoin(p[1..]);
      SplitOfPart(p[0], "." + Join(p[1..]));
      assert p[0] + "." + Join(p[1..]) == p[0] + ("." + Join(p[1..]));
      assert ("." + Join(p[1..]))[1..] == Join(p[1..]);
    }
  }

  // ------------------------------------------------------------------ trees to strings

  function Dotted(name: string, ss: seq<string>): (r: seq<string>)
    ensures |r| == |ss| && forall k :: 0 <= k < |ss| ==> r[k] == name + "." + ss[k]
  {
    seq(|ss|, k requires 0 <= k < |ss| => name + "." + ss[k])
  }

  /** `ExpansionNode.to_strings`. */
  function ToStrings(x: Node): seq<string>
    decreases x
  {
    if x.kids == [] then [x.name] else Dotted(x.name, AllToStrings(x.kids))
  }

  /** The one entry of `TypeNode.to_dict`. */
  function AllToStrings(kids: seq<Node>): seq<string>
    decreases kids
  {
    if kids == [] then [] else ToStrings(kids[0]) + AllToStrings(kids[1..])
  }

  function Below(name: string, ps: seq<Names>): (r: seq<Names>)
    ensures |r| == |ps| && forall k :: 0 <= k < |ps| ==> r[k] == [name] + ps[k]
  {
    seq(|ps|, k requires 0 <= k < |ps| => [name] + ps[k])
  }

  /** The paths to the leaves, in the order of `ToStrings`. */
  function Leaves(x: Node): seq<Names>
    decreases x
  {
    if x.kids == [] then [[x.name]] else Below(x.name, AllLeaves(x.kids))
  }

  function AllLeaves(kids: seq<Node>): seq<Names>
    decreases kids
  {
    if kids == [] then [] else Leaves(kids[0]) + AllLeaves(kids[1..])
  }

  predicate NonEmpty(ps: seq<Names>) { forall k :: 0 <= k < |ps| ==> ps[k] != [] }

  predicate Prints(ss: seq<string>, ps: seq<Names>) {
    NonEmpty(ps) && |ss| == |ps| && forall k :: 0 <= k < |ps| ==> ss[k] == Join(ps[k])
  }

  lemma {:induction false} StringsAreLeaves(x: Node)
    ensures Leaves(x) != [] && Prints(ToStrings(x), Leaves(x))
    decreases x
  {
    AllStringsAreLeaves(x.kids);
    if x.kids != [] {
      var ps := AllLeaves(x.kids);
      forall k | 0 <= k < |ps| ensures Join([x.name] + ps[k]) == x.name + "." + Join(ps[k]) {
        assert ([x.name] + ps[k])[1..] == ps[k];
      }
    }
  }

  lemma {:induction false} AllStringsAreLeaves(kids: seq<Node>)
    ensures (kids != [] ==> AllLeaves(kids) != []) && Prints(AllToStrings(kids), AllLeaves(kids))
    decreases kids
  {
    if kids != [] {
      StringsAreLeaves(kids[0]);
      AllStringsAreLeaves(kids[1..]);
    }
  }

  // ------------------------------------------------------------------ strings to trees

  datatype TypeExpansion = TypeExpansion(
    nodeType: Option<string>, route: string, source: string, destination: string, raises: bool)

  datatype Route = Route(service: string, action: string, requestField: string, responseField: string)

  datatype Config = Config(routes: map<string, Route>, expansions: map<string, map<string, TypeExpansion>>)

  datatype TreeError = UnknownKey(key: string) | SameField(field: string)

  /** The settings for a child of a node of type `t`, from the configuration. */
  function Configure(c: Config, t: Option<string>, name: string): Result<Settings, TreeError> {
    if t.None? || t.value !in c.expansions then Err(UnknownKey(if t.None? then "" else t.value))
    else if name !in c.expansions[t.value] then Err(UnknownKey(name))
    else
      var e := c.expansions[t.value][name];
      if e.route !in c.routes then Err(UnknownKey(e.route))
      else if e.destination == e.source then Err(SameField(e.source))
      else
        var r := c.routes[e.route];
        Ok(Settings(e.nodeType, e.source, e.destination,
                    r.service, r.action, r.requestField, r.responseField, e.raises))
  }

  /** Walk one path down the tree, adding the nodes that are missing. */
  function Insert(c: Config, t: Option<string>, kids: seq<Node>, p: Names): Result<seq<Node>, TreeError>
    decreases |p|
  {
    if p == [] then Ok(kids)
    else
      var i := FindKid(kids, p[0]);
      if i < |kids| then
        var sub := Insert(c, kids[i].settings.nodeType, kids[i].kids, p[1..]);
        if sub.Err? then Err(sub.error) else Ok(kids[i := kids[i].(kids := sub.value)])
      else
        var s := Configure(c, t, p[0]);
        if s.Err? then Err(s.error)
        else
          var sub := Insert(c, s.value.nodeType, [], p[1..]);
          if sub.Err? then Err(sub.error) else Ok(Add(kids, Node(p[0], s.value, sub.value)))
  }

  function InsertAll(c: Config, t: Option<string>, kids: seq<Node>, ps: seq<Names>): Result<seq<Node>, TreeError>
    decreases |ps|
  {
    if ps == [] then Ok(kids)
    else
      var r := Insert(c, t, kids, ps[0]);
      if r.Err? then r else InsertAll(c, t, r.value, ps[1..])
  }

  /** The order of the keys is the insertion order of the dict. */
  datatype Request = Request(nodeType: string, strings: seq<string>)

  function SplitAll(ss: seq<string>): (ps: seq<Names>)
    ensures |ps| == |ss| && forall k :: 0 <= k < |ss| ==> ps[k] == Split(ss[k])
  {
    seq(|ss|, k requires 0 <= k < |ss| => Split(ss[k]))
  }

  /** The children of the type node built for one entry. */
  function KidsFor(c: Config, q: Request): Result<seq<Node>, TreeError> {
    InsertAll(c, Some(q.nodeType), [], SplitAll(q.strings))
  }

  predicate Built(c: Config, dict: seq<Request>, trees: seq<Tree>) {
    |trees| == |dict| && forall k :: 0 <= k < |dict| ==>
      trees[k].nodeType == dict[k].nodeType && KidsFor(c, dict[k]) == Ok(trees[k].kids)
  }

  lemma {:induction false} InsertAllConcat(c: Config, t: Option<string>, kids: seq<Node>, ps: seq<Names>,
                                           qs: seq<Names>)
    ensures InsertAll(c, t, kids, ps + qs)
         == var r := InsertAll(c, t, kids, ps); if r.Err? then r else InsertAll(c, t, r.value, qs)
    decreases |ps|
  {
    if ps == [] {
      assert ps + qs == qs;
    } else {
      assert (ps + qs)[1..] == ps[1..] + qs;
      var r := Insert(c, t, kids, ps[0]);
      if r.Ok? { InsertAllConcat(c, t, r.value, ps[1..], qs); }
    }
  }

  /** `trees_to_dict`, for trees of different types. */
  function TreesToDict(trees: seq<Tree>): (dict: seq<Request>)
    ensures |dict| == |trees|
    ensures forall k :: 0 <= k < |trees| ==> dict[k] == Request(trees[k].nodeType, AllToStrings(trees[k].kids))
  {
    seq(|trees|, k requires 0 <= k < |trees| => Request(trees[k].nodeType, AllToStrings(trees[k].kids)))
  }

  // ------------------------------------------------------------------ trees to dict to trees

  /** What every tree that `DictToTrees` builds is like: a dict at each level, dot-free names, and the configured
      settings for its parent's type. */
  predicate Conforms(c: Config, t: Option<string>, kids: seq<Node>)
    decreases kids
  {
    Distinct(kids) && forall x :: x in kids ==>
      && '.' !in x.name && Configure(c, t, x.name) == Ok(x.settings) && Conforms(c, x.settings.nodeType, x.kids)
  }

  lemma {:induction false} InsertConforms(c: Config, t: Option<string>, kids: seq<Node>, p: Names)
    requires Conforms(c, t, kids) && DotFree(p) && Insert(c, t, kids, p).Ok?
    ensures Conforms(c, t, Insert(c, t, kids, p).value)
    decreases |p|
  {
    if p != [] {
      var i := FindKid(kids, p[0]);
      if i < |kids| {
        assert kids[i] in kids;
        InsertConforms(c, kids[i].settings.nodeType, kids[i].kids, p[1..]);
      } else {
        InsertConforms(c, Configure(c, t, p[0]).value.nodeType, [], p[1..]);
      }
    }
  }

  lemma {:induction false} InsertAllConforms(c: Config, t: Option<string>, kids: seq<Node>, ps: seq<Names>)
    requires Conforms(c, t, kids) && AllDotFree(ps)
    requires InsertAll(c, t, kids, ps).Ok?
    ensures Conforms(c, t, InsertAll(c, t, kids, ps).value)
    decreases |ps|
  {
    if ps != [] {
      InsertConforms(c, t, kids, ps[0]);
      InsertAllConforms(c, t, Insert(c, t, kids, ps[0]).value, ps[1..]);
    }
  }

  /** Paths under one existing child act on that child alone. */
  lemma {:induction false} InsertAllBelow(c: Config, t: Option<string>, acc: seq<Node>, x: Node, qs: seq<Names>)
    requires !HasKid(acc, x.name)
    ensures InsertAll(c, t, acc + [x], Below(x.name, qs))
         == var sub := InsertAll(c, x.settings.nodeType, x.kids, qs);
            if sub.Err? then Err(sub.error) else Ok(acc + [x.(kids := sub.value)])
    decreases |qs|
  {
    if qs != [] {
      var p := [x.name] + qs[0];
      assert p[1..] == qs[0] && Below(x.name, qs)[1..] == Below(x.name, qs[1..]);
      FindKidIs(acc + [x], x.name, |acc|);
      var sub := Insert(c, x.settings.nodeType, x.kids, qs[0]);
      if sub.Ok? {
        var y := x.(kids := sub.value);
        assert (acc + [x])[|acc| := y] == acc + [y];
        InsertAllBelow(c, t, acc, y, qs[1..]);
      }
    } else {
      assert x.(kids := x.kids) == x;
    }
  }

  /** Inserting the leaves of one node after others rebuilds that node. */
  lemma {:induction false} InsertLeaves(c: Config, t: Option<string>, acc: seq<Node>, x: Node)
    requires !HasKid(acc, x.name) && Conforms(c, t, [x])
    ensures InsertAll(c, t, acc, Leaves(x)) == Ok(acc + [x])
    decreases x
  {
    assert x in [x];
    var leaf := Node(x.name, x.settings, []);
    if x.kids == [] {
      assert [x.name][1..] == [] && x == leaf && [[x.name]][1..] == [];
      assert Insert(c, t, acc, [x.name]) == Ok(acc + [x]);
    } else {
      var qs := AllLeaves(x.kids);
      AllStringsAreLeaves(x.kids);
      InsertAllLeaves(c, x.settings.nodeType, [], x.kids);
      assert [] + x.kids == x.kids;
      InsertAllBelow(c, t, acc, leaf, qs);
      FreshFirst(c, t, acc, leaf, qs);
    }
  }

  /** The first path below a missing child creates it. */
  lemma FreshFirst(c: Config, t: Option<string>, acc: seq<Node>, leaf: Node, qs: seq<Names>)
    requires !HasKid(acc, leaf.name) && leaf.kids == [] && Configure(c, t, leaf.name) == Ok(leaf.settings)
    requires qs != []
    ensures InsertAll(c, t, acc, Below(leaf.name, qs)) == InsertAll(c, t, acc + [leaf], Below(leaf.name, qs))
  {
    var p := Below(leaf.name, qs)[0];
    assert p[1..] == qs[0];
    FindKidIs(acc + [leaf], leaf.name, |acc|);
    var sub := Insert(c, leaf.settings.nodeType, [], qs[0]);
    if sub.Ok? {
      assert (acc + [leaf])[|acc| := leaf.(kids := sub.value)] == acc + [leaf.(kids := sub.value)];
    }
  }

  lemma ConformsSplits(c: Config, t: Option<string>, kids: seq<Node>)
    requires Conforms(c, t, kids) && kids != []
    ensures Conforms(c, t, [kids[0]]) && Conforms(c, t, kids[1..])
    ensures forall x :: x in kids[1..] ==> x.name != kids[0].name
  {
    assert forall x :: x in [kids[0]] ==> x in kids;
  }

  lemma {:induction false} InsertAllLeaves(c: Config, t: Option<string>, acc: seq<Node>, kids: seq<Node>)
    requires Conforms(c, t, kids) && forall x :: x in kids ==> !HasKid(acc, x.name)
    ensures InsertAll(c, t, acc, AllLeaves(kids)) == Ok(acc + kids)
    decreases kids
  {
    hide Conforms, Leaves, Insert;
    if kids == [] {
      assert acc + kids == acc;
    } else {
      var x, others := kids[0], kids[1..];
      ConformsSplits(c, t, kids);
      InsertLeaves(c, t, acc, x);
      InsertAllConcat(c, t, acc, Leaves(x), AllLeaves(others));
      forall y | y in others ensures !HasKid(acc + [x], y.name) {
        FindKidIs(acc + [x], y.name, |acc| + 1);
      }
      InsertAllLeaves(c, t, acc + [x], others);
      assert acc + [x] + others == acc + kids;
    }
  }

  lemma {:induction false} LeavesDotFree(c: Config, t: Option<string>, kids: seq<Node>)
    requires Conforms(c, t, kids)
    ensures AllDotFree(AllLeaves(kids))
    decreases kids
  {
    if kids != [] {
      var x := kids[0];
      ConformsSplits(c, t, kids);
      assert x in kids;
      LeavesDotFree(c, x.settings.nodeType, x.kids);
      LeavesDotFree(c, t, kids[1..]);
      assert AllDotFree(Leaves(x));
    }
  }

  /** Strings printed from a built tree build that tree again: same nodes, same settings, same order. */
  lemma KidsRoundTrip(c: Config, q: Request)
    requires KidsFor(c, q).Ok?
    ensures KidsFor(c, Request(q.nodeType, AllToStrings(KidsFor(c, q).value))) == KidsFor(c, q)
  {
    var t, kids := Some(q.nodeType), KidsFor(c, q).value;
    InsertAllConforms(c, t, [], SplitAll(q.strings));
    AllStringsAreLeaves(kids);
    LeavesDotFree(c, t, kids);
    var ps := AllLeaves(kids);
    forall k | 0 <= k < |ps| ensures Split(AllToStrings(kids)[k]) == ps[k] { SplitOfJoin(ps[k]); }
    assert SplitAll(AllToStrings(kids)) == ps;
    InsertAllLeaves(c, t, [], kids);
    assert [] + kids == kids;
  }

  /** Trees to dict and back rebuilds the same trees. */
  lemma TreesRoundTrip(c: Config, dict: seq<Request>, trees: seq<Tree>)
    requires Built(c, dict, trees)
    ensures Built(c, TreesToDict(trees), trees)
  {
    forall k | 0 <= k < |trees| ensures KidsFor(c, TreesToDict(trees)[k]) == Ok(trees[k].kids) {
      KidsRoundTrip(c, dict[k]);
    }
  }

  // ------------------------------------------------------------------ settings and the configuration

  /** The configuration says how a type is expanded by this name, through a route it has. */
  predicate Entered(c: Config, t: Option<string>, name: string) {
    && t.Some? && t.value in c.expansions && name in c.expansions[t.value]
    && c.expansions[t.value][name].route in c.routes
    && c.expansions[t.value][name].destination != c.expansions[t.value][name].source
  }

  /** Each of a node's settings is that of the configuration's entry for its name under its parent's type, or that of
      the entry's route. */
  predicate AsEntered(c: Config, t: Option<string>, name: string, x: Settings) {
    && Entered(c, t, name)
    && x.nodeType == c.expansions[t.value][name].nodeType
    && x.source == c.expansions[t.value][name].source
    && x.destination == c.expansions[t.value][name].destination
    && x.raises == c.expansions[t.value][name].raises
    && x.service == c.routes[c.expansions[t.value][name].route].service
    && x.action == c.routes[c.expansions[t.value][name].route].action
    && x.requestField == c.routes[c.expansions[t.value][name].route].requestField
    && x.responseField == c.routes[c.expansions[t.value][name].route].responseField
  }

  /** What is missing from the configuration, or equal in it, when there is no such entry. */
  predicate Misses(c: Config, t: Option<string>, name: string, e: TreeError) {
    match e
    case UnknownKey(key) =>
      || (t.None? && key == "")
      || (t.Some? && t.value !in c.expansions && key == t.value)
      || (t.Some? && t.value in c.expansions && name !in c.expansions[t.value] && key == name)
      || (t.Some? && t.value in c.expansions && name in c.expansions[t.value]
          && c.expansions[t.value][name].route !in c.routes && key == c.expansions[t.value][name].route)
    case SameField(field) =>
      && t.Some? && t.value in c.expansions && name in c.expansions[t.value]
      && c.expansions[t.value][name].route in c.routes
      && c.expansions[t.value][name].destination == c.expansions[t.value][name].source == field
  }

  lemma ConfiguredAsEntered(c: Config, t: Option<string>, name: string)
    ensures Configure(c, t, name).Ok? <==> Entered(c, t, name)
    ensures forall x :: Configure(c, t, name) == Ok(x) <==> AsEntered(c, t, name, x)
    ensures forall e :: Configure(c, t, name) == Err(e) ==> Misses(c, t, name, e)
  {
  }

  /** Every step of the path has an entry, under the type that the entry before it names. */
  predicate Reachable(c: Config, t: Option<string>, p: Names)
    decreases |p|
  {
    p == [] || (Entered(c, t, p[0]) && Reachable(c, c.expansions[t.value][p[0]].nodeType, p[1..]))
  }

  /** The first step without an entry, and what it misses. */
  predicate BlockedBy(c: Config, t: Option<string>, p: Names, e: TreeError)
    decreases |p|
  {
    p != [] && if Entered(c, t, p[0]) then BlockedBy(c, c.expansions[t.value][p[0]].nodeType, p[1..], e)
               else Misses(c, t, p[0], e)
  }

  /** The type of the node that the last name of a path expands. */
  function ParentType(t: Option<string>, kids: seq<Node>, p: Names): Option<string>
    requires p != []
  {
    if |p| == 1 then t
    else if SettingsAt(kids, p[..|p| - 1]).Some? then SettingsAt(kids, p[..|p| - 1]).value.nodeType else None
  }

  lemma {:induction false} ConformsAt(c: Config, t: Option<string>, kids: seq<Node>, p: Names)
    requires Conforms(c, t, kids) && HasPath(kids, p)
    ensures p != [] && AsEntered(c, ParentType(t, kids, p), p[|p| - 1], SettingsAt(kids, p).value)
    decreases |p|
  {
    hide Configure, AsEntered;
    var x := kids[FindKid(kids, p[0])];
    assert x in kids;
    ConfiguredAsEntered(c, t, x.name);
    if |p| > 1 {
      ConformsAt(c, x.settings.nodeType, x.kids, p[1..]);
      if |p| > 2 { assert p[1..][..|p| - 2] == p[..|p| - 1][1..]; }
    }
  }

  /** Walking a path succeeds exactly when the configuration has all its steps, whatever the tree holds already. */
  lemma {:induction false} InsertOutcome(c: Config, t: Option<string>, kids: seq<Node>, p: Names)
    requires Conforms(c, t, kids)
    ensures Insert(c, t, kids, p).Ok? <==> Reachable(c, t, p)
    ensures Insert(c, t, kids, p).Err? ==> BlockedBy(c, t, p, Insert(c, t, kids, p).error)
    decreases |p|
  {
    hide Configure;
    if p != [] {
      ConfiguredAsEntered(c, t, p[0]);
      var i := FindKid(kids, p[0]);
      if i < |kids| {
        assert kids[i] in kids;
        InsertOutcome(c, kids[i].settings.nodeType, kids[i].kids, p[1..]);
      } else if Configure(c, t, p[0]).Ok? {
        InsertOutcome(c, Configure(c, t, p[0]).value.nodeType, [], p[1..]);
      }
    }
  }

  lemma {:induction false} InsertAllOutcome(c: Config, t: Option<string>, kids: seq<Node>, ps: seq<Names>)
    requires Conforms(c, t, kids) && AllDotFree(ps)
    ensures InsertAll(c, t, kids, ps).Ok? <==> forall p :: p in ps ==> Reachable(c, t, p)
    ensures InsertAll(c, t, kids, ps).Err? ==>
              exists k :: 0 <= k < |ps| && BlockedBy(c, t, ps[k], InsertAll(c, t, kids, ps).error)
                          && forall j :: 0 <= j < k ==> Reachable(c, t, ps[j])
    decreases |ps|
  {
    hide Insert, Reachable, BlockedBy, Conforms;
    if ps != [] {
      InsertOutcome(c, t, kids, ps[0]);
      var r := Insert(c, t, kids, ps[0]);
      assert ps == [ps[0]] + ps[1..];
      if r.Ok? {
        InsertConforms(c, t, kids, ps[0]);
        InsertAllOutcome(c, t, r.value, ps[1..]);
        if InsertAll(c, t, r.value, ps[1..]).Err? {
          var e := InsertAll(c, t, r.value, ps[1..]).error;
          var k :| 0 <= k < |ps| - 1 && BlockedBy(c, t, ps[1..][k], e)
                   && forall j :: 0 <= j < k ==> Reachable(c, t, ps[1..][j]);
          assert ps[k + 1] == ps[1..][k] && forall j :: 1 <= j < k + 1 ==> ps[j] == ps[1..][j - 1];
        }
      } else {
        assert BlockedBy(c, t, ps[0], r.error);
      }
    }
  }

  /** The configuration has every step of every string. */
  predicate CanBuild(c: Config, q: Request) { forall s :: s in q.strings ==> Reachable(c, Some(q.nodeType), Split(s)) }

  /** The first string of which it has not, and what that one misses. */
  predicate FailsOn(c: Config, q: Request, e: TreeError) {
    exists k :: 0 <= k < |q.strings| && BlockedBy(c, Some(q.nodeType), Split(q.strings[k]), e)
                && forall j :: 0 <= j < k ==> Reachable(c, Some(q.nodeType), Split(q.strings[j]))
  }

  /** The settings of every node below a type node are as entered. */
  ghost predicate AllAsEntered(c: Config, nodeType: string, kids: seq<Node>) {
    forall p :: HasPath(kids, p) ==>
      p != [] && AsEntered(c, ParentType(Some(nodeType), kids, p), p[|p| - 1], SettingsAt(kids, p).value)
  }

  /** One entry of the dict: its tree is built exactly when the configuration has every step of every string; then every
      node's settings are as entered, and else the error is what the first such string misses. */
  lemma EntryOutcome(c: Config, q: Request)
    ensures KidsFor(c, q).Ok? <==> CanBuild(c, q)
    ensures KidsFor(c, q).Ok? ==> AllAsEntered(c, q.nodeType, KidsFor(c, q).value)
    ensures KidsFor(c, q).Err? ==> FailsOn(c, q, KidsFor(c, q).error)
  {
    hide InsertAll, Reachable, BlockedBy, AsEntered;
    var t, ps := Some(q.nodeType), SplitAll(q.strings);
    InsertAllOutcome(c, t, [], ps);
    forall s | s in q.strings ensures Split(s) in ps {
      var k :| 0 <= k < |q.strings| && q.strings[k] == s;
      assert ps[k] == Split(s);
    }
    forall p | p in ps ensures exists s :: s in q.strings && p == Split(s) {
      var k :| 0 <= k < |ps| && ps[k] == p;
      assert q.strings[k] in q.strings;
    }
    if KidsFor(c, q).Ok? {
      InsertAllConforms(c, t, [], ps);
      var kids := KidsFor(c, q).value;
      forall p | HasPath(kids, p)
        ensures p != [] && AsEntered(c, ParentType(t, kids, p), p[|p| - 1], SettingsAt(kids, p).value)
      {
        ConformsAt(c, t, kids, p);
      }
    }
  }
}
