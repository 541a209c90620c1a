/** A batched round of expansion refines one-at-a-time lookup, in every round of every run. */
module Batching {
  import opened ByteText
  import opened Json
  import opened Trees
  import opened Expansion
  import opened Rounds
  import opened ExpansionRun

  // ------------------------------------------------------------------ lookups of one value

  /** Content without object identities, which every reply makes anew. */
  function Erase(v: Json): Json
    decreases v, 1
  {
    match v
    case Leaf(_) => v
    case List(items) => List(EraseAll(items))
    case Dict(_, keys, values) => Dict(0, keys, EraseAll(values))
  }

  function EraseAll(vs: seq<Json>): seq<Json>
    decreases vs, 0
  {
    if vs == [] then [] else [Erase(vs[0])] + EraseAll(vs[1..])
  }

  predicate SameContent(a: Option<Json>, b: Option<Json>) {
    a.Some? == b.Some? && (a.Some? ==> Erase(a.value) == Erase(b.value))
  }

  /** Request `n` holds for a value of its batch what request `k`, for that value alone, would; and nothing for any
      other value. */
  predicate Agrees(service: Service, n: nat, k: nat, c: Call, f: string, v: Atom) {
    SameContent(Lookup(service(n, c), f, v),
                if v in c.values then Lookup(service(k, c.(values := {v})), f, v) else None)
  }

  /** Each identifier is answered on its own. */
  ghost predicate Independent(service: Service) {
    forall n: nat, k: nat, c: Call, f: string, v: Atom :: Agrees(service, n, k, c, f, v)
  }

  /** Pending nodes that share a service and action share a request field. */
  predicate SharedFields(ts: seq<Target>) {
    forall t, u :: t in ts && u in ts && t.Group() == u.Group() ==>
      t.node.settings.requestField == u.node.settings.requestField
  }

  /** No pending node of another service and action asks for the target's value under the same text. */
  predicate OwnPair(s: Store, ts: seq<Target>, t: Target) {
    forall u :: u in ts && NodeKey(u.node) == NodeKey(t.node) && ValueOf(s, u) == ValueOf(s, t) ==>
      u.Group() == t.Group()
  }

  /** One object's pending nodes have distinct destinations. */
  predicate DistinctDestinations(ts: seq<Target>) {
    forall t, u :: t in ts && u in ts && t.id == u.id && t.Destination() == u.Destination() ==> t.node == u.node
  }

  /** What a call for the target's value alone would give it. */
  function Single(service: Service, s: Store, t: Target, k: nat): Option<Json> {
    var x, v := t.node.settings, ValueOf(s, t);
    Lookup(service(k, Call(x.service, x.action, x.requestField, {v})), x.responseField, v)
  }

  /** The object has exactly the field that a lookup of its value alone gives it, or none if that finds nothing. */
  predicate HasSingle(s: Store, t: Target, single: Option<Json>) {
    && t.id in s && (t.Destination() in s[t.id] <==> single.Some?)
    && (single.Some? ==> Erase(s[t.id][t.Destination()]) == Erase(single.value))
  }

  // ------------------------------------------------------------------ one round

  /** A request to the target's service and action asks for its value. */
  predicate Requested(s: Store, sent: map<nat, Sent>, t: Target) {
    exists n :: n in sent && sent[n].call.service == t.node.settings.service
                && sent[n].call.action == t.node.settings.action && ValueOf(s, t) in sent[n].call.values
  }

  /** Whether or not its value was asked for: a pending object ends with exactly the field that a call for its value
      alone would give it if the round asked for the value, and without the field if it did not. */
  lemma AnswersAsRequested(service: Service, s0: Store, ts: seq<Target>, p: Pending, m: Made, m': Made,
                           sent: map<nat, Sent>, num: Numbering, s: Store, t: Target, k: nat)
    requires Grouped(s0, ts, p) && AllHashable(s0, ts) && SendSpec(p, m, m', sent, num)
    requires RoundDone(service, s0, sent, s) && AddedOnlyAnswers(service, s0, sent, s) && Extends(s0, s)
    requires Independent(service) && SharedFields(ts) && DistinctDestinations(ts) && t in ts
    ensures HasSingle(s, t, if Requested(s0, sent, t) then Single(service, s0, t, k) else None)
  {
    hide Key, Lookup, Erase, Disjoint, Covered, New, Recorded, Complete, Extends, Hashable, Select, Single, Requested;
    GroupCall(s0, ts, p, t);
    HashableStays(s0, s, t);
    if Requested(s0, sent, t) {
      var n := RequestOf(s0, p, sent, num.of, t);
      BatchAnswers(service, s0, p, sent, t, n, k);
    }
    if t.Destination() in s[t.id] {
      var n', y :| Justified(service, s0, sent, Why(n', y), t.id, t.Destination(), s[t.id][t.Destination()]);
      assert SentFor(p, num.of[n'], sent[n']);
      var u := Target(t.id, y);
      assert u in p[num.of[n']].targets;
      InGroup(s0, ts, p, num.of[n'], u);
      assert u == t;
      BatchAnswers(service, s0, p, sent, t, n', k);
      IsRequested(s0, sent, t, n');
    }
  }

  lemma RequestOf(s: Store, p: Pending, sent: map<nat, Sent>, of: map<nat, (string, string)>, t: Target)
    returns (n: nat)
    requires FromGroups(p, sent, of) && Requested(s, sent, t)
    ensures n in sent && SentFor(p, t.Group(), sent[n]) && ValueOf(s, t) in sent[n].call.values
  {
    hide ValueOf;
    n :| n in sent && sent[n].call.service == t.node.settings.service
         && sent[n].call.action == t.node.settings.action && ValueOf(s, t) in sent[n].call.values;
    assert SentFor(p, of[n], sent[n]);
  }

  lemma IsRequested(s: Store, sent: map<nat, Sent>, t: Target, n: nat)
    requires n in sent && t.Group() == (sent[n].call.service, sent[n].call.action)
    ensures ValueOf(s, t) in sent[n].call.values ==> Requested(s, sent, t)
  {
    hide ValueOf;
  }

  /** The target's value is not on record. */
  predicate IsNew(s: Store, m: Made, t: Target) { ValueOf(s, t) !in MadeUnder(m, NodeKey(t.node)) }

  /** What is on record is not asked for again. */
  lemma RequestedIsNew(s0: Store, ts: seq<Target>, p: Pending, m: Made, m': Made, sent: map<nat, Sent>, num: Numbering,
                       t: Target)
    requires Grouped(s0, ts, p) && SendSpec(p, m, m', sent, num) && SharedFields(ts) && t in ts
    ensures Requested(s0, sent, t) ==> IsNew(s0, m, t)
  {
    hide Key, KeyOf, KeyFor, NodeKey, ValueOf, Disjoint, Complete, Requested, MadeUnder, Select, Target.Group, SentFor;
    GroupCall(s0, ts, p, t);
    if Requested(s0, sent, t) {
      var n := RequestOf(s0, p, sent, num.of, t);
      SentKey(p, t.Group(), sent[n]);
    }
  }

  /** A value is asked for exactly when it was not asked for before, if no other action asks for it under the same
      text. */
  lemma RequestedIffNew(s0: Store, ts: seq<Target>, p: Pending, m: Made, m': Made, sent: map<nat, Sent>, num: Numbering,
                        t: Target)
    requires Grouped(s0, ts, p) && SendSpec(p, m, m', sent, num)
    requires SharedFields(ts) && t in ts && OwnPair(s0, ts, t)
    ensures Requested(s0, sent, t) <==> IsNew(s0, m, t)
  {
    hide Key, KeyOf, KeyFor, NodeKey, ValueOf, Disjoint, Complete, Requested, MadeUnder, Select, Asked, Target.Group,
         SentFor;
    var v, key := ValueOf(s0, t), NodeKey(t.node);
    RequestedIsNew(s0, ts, p, m, m', sent, num, t);
    GroupCall(s0, ts, p, t);
    if v !in MadeUnder(m, key) {
      assert Asked(sent, key, v);
      var n := AskedBy(sent, key, v);
      assert SentFor(p, num.of[n], sent[n]);
      var u := AskingTarget(s0, ts, p, num.of[n], sent[n], v);
      GroupCall(s0, ts, p, u);
      SentKey(p, num.of[n], sent[n]);
      IsRequested(s0, sent, t, n);
    }
  }

  lemma SentKey(p: Pending, g: (string, string), x: Sent)
    requires SentFor(p, g, x)
    ensures g in p && KeyOf(x.call) == KeyFor(g, p[g]) && g == (x.call.service, x.call.action)
  {
  }

  lemma AskedBy(sent: map<nat, Sent>, key: string, v: Atom) returns (n: nat)
    requires Asked(sent, key, v)
    ensures n in sent && KeyOf(sent[n].call) == key && v in sent[n].call.values
  {
    n :| n in sent && KeyOf(sent[n].call) == key && v in sent[n].call.values;
  }

  /** A pending target that put the value into a request. */
  lemma AskingTarget(s0: Store, ts: seq<Target>, p: Pending, g: (string, string), x: Sent, v: Atom)
    returns (u: Target)
    requires Grouped(s0, ts, p) && SentFor(p, g, x) && v in x.call.values
    ensures u in ts && u.Group() == g && ValueOf(s0, u) == v
  {
    hide ValueOf, Select;
    var sel := Select(ts, g);
    assert v in Instruct(s0, sel).values;
    u :| u in sel && ValueOf(s0, u) == v;
  }

  /** A batched round refines one-at-a-time lookup: a pending object ends with exactly the field that a call for its
      value alone would give it if the round asks its action for the value, and without it otherwise. The round asks for
      a value unless an earlier round did, at least where no other action shares the text for it. */
  lemma BatchRefinesSingle(service: Service, s0: Store, ts: seq<Target>, p: Pending, m: Made, m': Made,
                           sent: map<nat, Sent>, num: Numbering, s: Store, t: Target, k: nat)
    requires Grouped(s0, ts, p) && AllHashable(s0, ts) && SendSpec(p, m, m', sent, num)
    requires RoundDone(service, s0, sent, s) && AddedOnlyAnswers(service, s0, sent, s) && Extends(s0, s)
    requires Independent(service) && SharedFields(ts) && DistinctDestinations(ts) && t in ts
    ensures HasSingle(s, t, if Requested(s0, sent, t) then Single(service, s0, t, k) else None)
    ensures Requested(s0, sent, t) ==> IsNew(s0, m, t)
    ensures OwnPair(s0, ts, t) ==>
              HasSingle(s, t, if IsNew(s0, m, t) then Single(service, s0, t, k) else None)
  {
    hide Grouped, AllHashable, SendSpec, RoundDone, AddedOnlyAnswers, Extends, Independent, SharedFields,
         DistinctDestinations, OwnPair, HasSingle, Requested, Single, IsNew;
    AnswersAsRequested(service, s0, ts, p, m, m', sent, num, s, t, k);
    RequestedIsNew(s0, ts, p, m, m', sent, num, t);
    if OwnPair(s0, ts, t) { RequestedIffNew(s0, ts, p, m, m', sent, num, t); }
  }

  lemma InGroup(s0: Store, ts: seq<Target>, p: Pending, g: (string, string), u: Target)
    requires Grouped(s0, ts, p) && g in p && u in p[g].targets
    ensures u in ts && u.Group() == g
  {
    hide ValueOf;
    assert p[g].targets == Select(ts, g);
  }

  lemma GroupCall(s0: Store, ts: seq<Target>, p: Pending, t: Target)
    requires Grouped(s0, ts, p) && SharedFields(ts) && t in ts
    ensures
      var g := t.Group();
      && g in p && p[g].field == t.node.settings.requestField && t in p[g].targets && ValueOf(s0, t) in p[g].values
      && KeyFor(g, p[g]) == NodeKey(t.node)
  {
    hide Key, ValueOf;
    var sel := Select(ts, t.Group());
    assert t in sel && sel[0] in sel;
  }

  lemma HashableStays(s0: Store, s: Store, t: Target)
    requires Hashable(s0, t) && Extends(s0, s)
    ensures t.id in s0 && t.id in s && t.Destination() !in s0[t.id]
  {
  }

  /** What any request sent for a target's group answers for the target's value. */
  lemma BatchAnswers(service: Service, s0: Store, p: Pending, sent: map<nat, Sent>, t: Target, n: nat, k: nat)
    requires Independent(service) && n in sent && SentFor(p, t.Group(), sent[n])
    requires p[t.Group()].field == t.node.settings.requestField
    ensures
      var v := ValueOf(s0, t);
      SameContent(Lookup(service(n, sent[n].call), t.node.settings.responseField, v),
                  if v in sent[n].call.values then Single(service, s0, t, k) else None)
  {
    hide Lookup, Erase, ValueOf;
    var x, v, c := t.node.settings, ValueOf(s0, t), sent[n].call;
    assert c.(values := {v}) == Call(x.service, x.action, x.requestField, {v});
    assert Agrees(service, n, k, c, x.responseField, v);
  }

  // ------------------------------------------------------------------ names that share a text

  /** Where two actions ask for one value under the same text, only one of them gets to ask. */
  lemma SharedPairAskedOnce(s0: Store, ts: seq<Target>, p: Pending, m: Made, m': Made, sent: map<nat, Sent>,
                            num: Numbering, t: Target, u: Target)
    requires Grouped(s0, ts, p) && SendSpec(p, m, m', sent, num) && SharedFields(ts) && t in ts && u in ts
    requires t.Group() != u.Group() && NodeKey(t.node) == NodeKey(u.node) && ValueOf(s0, t) == ValueOf(s0, u)
    ensures !(Requested(s0, sent, t) && Requested(s0, sent, u))
  {
    hide Key, ValueOf, Select, Requested, Complete, Covered, Recorded, New;
    GroupCall(s0, ts, p, t);
    GroupCall(s0, ts, p, u);
    if Requested(s0, sent, t) && Requested(s0, sent, u) {
      var n := RequestOf(s0, p, sent, num.of, t);
      var k := RequestOf(s0, p, sent, num.of, u);
      assert false;
    }
  }

  /** A round asks the right action for every new value exactly when no two actions share the text for one of them. */
  lemma AllRequestedIff(s0: Store, ts: seq<Target>, p: Pending, m: Made, m': Made, sent: map<nat, Sent>, num: Numbering)
    requires Grouped(s0, ts, p) && SendSpec(p, m, m', sent, num) && SharedFields(ts)
    ensures (forall t :: t in ts && IsNew(s0, m, t) ==> Requested(s0, sent, t))
       <==> (forall t :: t in ts && IsNew(s0, m, t) ==> OwnPair(s0, ts, t))
  {
    hide Grouped, SendSpec, SharedFields, Requested, ValueOf, MadeUnder, NodeKey, Target.Group;
    if forall t :: t in ts && IsNew(s0, m, t) ==> OwnPair(s0, ts, t) {
      forall t | t in ts && IsNew(s0, m, t) ensures Requested(s0, sent, t) {
        RequestedIffNew(s0, ts, p, m, m', sent, num, t);
      }
    } else {
      var t :| t in ts && IsNew(s0, m, t) && !OwnPair(s0, ts, t);
      var u :| u in ts && NodeKey(u.node) == NodeKey(t.node) && ValueOf(s0, u) == ValueOf(s0, t)
               && u.Group() != t.Group();
      assert IsNew(s0, m, u);
      SharedPairAskedOnce(s0, ts, p, m, m', sent, num, t, u);
    }
  }

  lemma FirstDot(a: string, x: string, b: string, y: string)
    requires '.' !in a && '.' !in b && a + "." + x == b + "." + y
    ensures a == b && x == y
  {
    var s := a + "." + x;
    assert s[|a|] == '.' && s[|b|] == '.';
    assert a == s[..|a|] && x == s[|a| + 1..];
    assert b == (b + "." + y)[..|b|] && y == (b + "." + y)[|b| + 1..];
  }

  predicate Undotted(x: Node) { '.' !in x.settings.service && '.' !in x.settings.action }

  /** Without dots in service and action names the pair is the target's own. */
  lemma UndottedIsOwn(s: Store, ts: seq<Target>, t: Target)
    requires t in ts && forall u :: u in ts ==> Undotted(u.node)
    ensures OwnPair(s, ts, t)
  {
    hide ValueOf;
    var x := t.node.settings;
    forall u | u in ts && NodeKey(u.node) == NodeKey(t.node) ensures u.Group() == t.Group() {
      var y := u.node.settings;
      var a, b := x.action + "." + x.requestField, y.action + "." + y.requestField;
      assert NodeKey(t.node) == x.service + "." + a && NodeKey(u.node) == y.service + "." + b;
      FirstDot(x.service, a, y.service, b);
      FirstDot(x.action, x.requestField, y.action, y.requestField);
    }
  }

  function ExampleNode(service: string, action: string): Node {
    Node("x", Settings(Some("t"), "source", "destination", service, action, "ids", "objects", false), [])
  }

  function ExampleTrees(): seq<Tree> {
    [Tree("t1", [ExampleNode("a.b", "c")]), Tree("t2", [ExampleNode("a", "b.c")])]
  }

  function ExampleBody(id: nat, nodeType: string): Json {
    Dict(id, [Text("_type"), Text("source")], [Leaf(Text(nodeType)), Leaf(Num(7))])
  }

  function ExampleFields(nodeType: string): Fields {
    map[Text("_type") := Leaf(Text(nodeType)), Text("source") := Leaf(Num(7))]
  }

  /** Two objects with the same identifier, to be looked up by action `c` of service `a.b` and action `b.c` of `a`. */
  function ExampleState(): State {
    State(map[1 := ExampleFields("t1"), 2 := ExampleFields("t2")],
          [Work(1, [ExampleNode("a.b", "c")]), Work(2, [ExampleNode("a", "b.c")])], map[])
  }

  lemma ExampleFound(id: nat, nodeType: string, t: string)
    ensures FindObjects(Some(t), ExampleBody(id, nodeType)) == if t == nodeType then [ExampleBody(id, nodeType)] else []
    ensures FieldsOf(ExampleBody(id, nodeType)) == ExampleFields(nodeType)
  {
    var o := ExampleBody(id, nodeType);
    assert o.keys[1..] == [Text("source")] && o.keys[1..][1..] == [];
    assert Get(o, Text("_type")) == Some(Leaf(Text(nodeType))) && Get(o, Text("source")) == Some(Leaf(Num(7)));
    assert o.values[1..] == [Leaf(Num(7))] && o.values[1..][1..] == [];
    assert FindObjects(Some(t), o.values[0]) == [] == FindObjects(Some(t), o.values[1]);
    assert FindInAll(Some(t), [Leaf(Num(7))]) == [];
    assert FindInAll(Some(t), o.values) == [];
    assert FieldsOf(o).Keys == ExampleFields(nodeType).Keys;
  }

  /** That is where a run starts for two action bodies that hold one object each. */
  lemma ExampleIsStart()
    ensures
      var bodies := [ExampleBody(1, "t1"), ExampleBody(2, "t2")];
      ExampleState() == State(Held(ExampleTrees(), bodies), Candidates(ExampleTrees(), bodies), map[])
  {
    hide FindObjects, FieldsOf, EnterAll, Enter, HeldBy, CandidatesOf, WorkFor;
    var a, b := ExampleBody(1, "t1"), ExampleBody(2, "t2");
    var x, y := ExampleTrees()[0], ExampleTrees()[1];
    TwoTrees(x, y, [a, b]);
    ExampleCandidates();
    ExampleHeld();
  }

  lemma TwoTrees(x: Tree, y: Tree, bodies: seq<Json>)
    ensures Candidates([x, y], bodies) == CandidatesOf(x, bodies) + CandidatesOf(y, bodies)
    ensures Held([x, y], bodies) == HeldBy(HeldBy(map[], x, bodies), y, bodies)
  {
    hide CandidatesOf, HeldBy;
    assert [x, y][..1] == [x] && [x][..0] == [];
    assert Candidates([], bodies) == [] && Held([], bodies) == map[];
    assert Candidates([x], bodies) == CandidatesOf(x, bodies) && Held([x], bodies) == HeldBy(map[], x, bodies);
  }

  lemma ExampleCandidates()
    ensures
      var x, y, bodies := ExampleTrees()[0], ExampleTrees()[1], [ExampleBody(1, "t1"), ExampleBody(2, "t2")];
      CandidatesOf(x, bodies) == [Work(1, x.kids)] && CandidatesOf(y, bodies) == [Work(2, y.kids)]
  {
    hide FindObjects, CandidatesOf, HeldBy, EnterAll;
    var a, b := ExampleBody(1, "t1"), ExampleBody(2, "t2");
    ExampleFound(1, "t1", "t1");
    ExampleFound(1, "t1", "t2");
    ExampleFound(2, "t2", "t1");
    ExampleFound(2, "t2", "t2");
    TwoBodies(map[], ExampleTrees()[0], a, b);
    TwoBodies(map[], ExampleTrees()[1], a, b);
  }

  lemma ExampleHeld()
    ensures
      var x, y, bodies := ExampleTrees()[0], ExampleTrees()[1], [ExampleBody(1, "t1"), ExampleBody(2, "t2")];
      HeldBy(HeldBy(map[], x, bodies), y, bodies) == map[1 := ExampleFields("t1"), 2 := ExampleFields("t2")]
  {
    hide FindObjects, CandidatesOf, HeldBy, EnterAll, WorkFor, FieldsOf, ExampleFields;
    var a, b := ExampleBody(1, "t1"), ExampleBody(2, "t2");
    ExampleFound(1, "t1", "t1");
    ExampleFound(1, "t1", "t2");
    ExampleFound(2, "t2", "t1");
    ExampleFound(2, "t2", "t2");
    TwoBodies(map[], ExampleTrees()[0], a, b);
    TwoBodies(Enter(map[], a), ExampleTrees()[1], a, b);
    EnterOne(map[], a);
    EnterOne(Enter(map[], a), b);
  }

  lemma EnterOne(s: Store, o: Json)
    requires o.Dict?
    ensures EnterAll(s, [o]) == Enter(s, o) && EnterAll(s, []) == s
  {
    hide Enter;
    assert [o][..0] == [];
  }

  lemma TwoBodies(s: Store, tree: Tree, a: Json, b: Json)
    ensures
      var t := Some(tree.nodeType);
      && CandidatesOf(tree, [a, b]) == WorkFor(FindObjects(t, a), tree.kids) + WorkFor(FindObjects(t, b), tree.kids)
      && HeldBy(s, tree, [a, b]) == EnterAll(EnterAll(s, FindObjects(t, a)), FindObjects(t, b))
  {
    hide FindObjects, EnterAll;
    assert [a, b][..1] == [a] && [a][..0] == [];
    assert CandidatesOf(tree, []) == [] && HeldBy(s, tree, []) == s;
    assert HeldBy(s, tree, [a]) == EnterAll(s, FindObjects(Some(tree.nodeType), a));
    assert CandidatesOf(tree, [a]) == WorkFor(FindObjects(Some(tree.nodeType), a), tree.kids);
  }

  /** With dots the names can run together: here one of the two objects stays as it is, whatever the services answer. */
  lemma ExampleNamesRunTogether(service: Service, trees: seq<Tree>, c: Course, b: State)
    requires Follows(service, trees, ExampleState(), c, Done, b) && Independent(service)
    ensures 1 in b.store && 2 in b.store
    ensures !(Text("destination") in b.store[1] && Text("destination") in b.store[2])
  {
    hide Independent, SendSpec, Grouped, Received, RoundDone, AddedOnlyAnswers, Brought, Extends, WantedIn, Single;
    var a := ExampleState();
    var t, u := Target(1, ExampleNode("a.b", "c")), Target(2, ExampleNode("a", "b.c"));
    var ts := WantedIn(a.store, a.queue);
    forall x ensures x in ts <==> x == t || x == u {
      WantedInQueue(a.store, a.queue, x);
      assert a.queue[0] == Work(1, [t.node]) && a.queue[1] == Work(2, [u.node]);
    }
    assert NodeKey(t.node) == "a.b.c.ids" == NodeKey(u.node);
    AnswersAsRequested(service, a.store, ts, c.pending, a.made, b.made, c.sent, c.num, b.store, t, 0);
    AnswersAsRequested(service, a.store, ts, c.pending, a.made, b.made, c.sent, c.num, b.store, u, 0);
    SharedPairAskedOnce(a.store, ts, c.pending, a.made, b.made, c.sent, c.num, t, u);
  }

  // ------------------------------------------------------------------ every round of a run

  /** One of the first `j` rounds asked for the value under the text. */
  ghost predicate AskedBefore(courses: seq<Course>, j: nat, key: string, v: Atom)
    requires j <= |courses|
  {
    exists i :: 0 <= i < j && Asked(courses[i].sent, key, v)
  }

  /** What is on record in a run is what its earlier rounds asked for. */
  lemma {:induction false} MadeIsAsked(service: Service, trees: seq<Tree>, states: seq<State>, courses: seq<Course>,
                                       j: nat, key: string, v: Atom)
    requires Chain(service, trees, states, courses) && j < |states| && states[0].made == map[]
    ensures v in MadeUnder(states[j].made, key) <==> AskedBefore(courses, j, key, v)
  {
    hide Asked, Grouped, WantedIn, Received, Brought, RoundDone, AddedOnlyAnswers, Extends, AllHashable, FromGroups,
         New,
         Disjoint, Complete, Covered;
    if j > 0 {
      MadeIsAsked(service, trees, states, courses, j - 1, key, v);
      FollowsRecords(service, trees, states[j - 1], courses[j - 1], Done, states[j], key, v);
    }
  }

  lemma FollowsRecords(service: Service, trees: seq<Tree>, a: State, c: Course, outcome: Outcome, b: State, key: string,
                       v: Atom)
    requires Follows(service, trees, a, c, outcome, b)
    ensures v in MadeUnder(b.made, key) <==> v in MadeUnder(a.made, key) || Asked(c.sent, key, v)
  {
    hide Grouped, WantedIn, Received, Brought, RoundDone, AddedOnlyAnswers, Extends, AllHashable, FromGroups, New,
         Disjoint, Complete, Covered, MadeUnder, KeyOf;
  }

  /** In every completed round of every run, a pending object whose value its action is asked for gets exactly what a
      lookup of that value alone finds, and keeps it to the end of the run; the others get nothing. Asked for are only
      values that no earlier round asked for, and each of those where no other action shares the text for it. */
  lemma RunRefinesSingle(service: Service, trees: seq<Tree>, states: seq<State>, courses: seq<Course>,
                         outcome: Outcome, last: State, j: nat, t: Target, k: nat)
    requires IsRun(service, trees, states, courses, outcome, last) && j + 1 < |states| && states[0].made == map[]
    requires Independent(service)
    requires
      var ts := WantedIn(states[j].store, states[j].queue);
      t in ts && SharedFields(ts) && DistinctDestinations(ts)
    ensures
      var s := states[j].store;
      var single := if Requested(s, courses[j].sent, t) then Single(service, s, t, k) else None;
      HasSingle(states[j + 1].store, t, single) && (single.Some? ==> HasSingle(last.store, t, single))
    ensures
      var s := states[j].store;
      var known := AskedBefore(courses, j, NodeKey(t.node), ValueOf(s, t));
      && (Requested(s, courses[j].sent, t) ==> !known)
      && (OwnPair(s, WantedIn(s, states[j].queue), t) ==> (Requested(s, courses[j].sent, t) <==> !known))
  {
    hide Grouped, WantedIn, Received, Brought, SendSpec, RoundDone, AddedOnlyAnswers, Extends, Independent, Single,
         SharedFields, DistinctDestinations, OwnPair, ValueOf, Erase, NodeKey, AskedBefore, MadeUnder, Requested;
    var a, b, c := states[j], states[j + 1], courses[j];
    var ts := WantedIn(a.store, a.queue);
    BatchRefinesSingle(service, a.store, ts, c.pending, a.made, b.made, c.sent, c.num, b.store, t, k);
    if OwnPair(a.store, ts, t) { RequestedIffNew(a.store, ts, c.pending, a.made, b.made, c.sent, c.num, t); }
    MadeIsAsked(service, trees, states, courses, j, NodeKey(t.node), ValueOf(a.store, t));
    RunExtends(service, trees, states, courses, outcome, last, j + 1);
    if t.Destination() in b.store[t.id] { FieldStays(b.store, last.store, t); }
  }

  lemma FieldStays(s: Store, s': Store, t: Target)
    requires Extends(s, s') && t.id in s && t.Destination() in s[t.id]
    ensures t.id in s' && t.Destination() in s'[t.id] && s'[t.id][t.Destination()] == s[t.id][t.Destination()]
  {
  }

  /** Later states of a run only add to earlier ones. */
  lemma {:induction false} RunExtends(service: Service, trees: seq<Tree>, states: seq<State>, courses: seq<Course>,
                                      outcome: Outcome, last: State, j: nat)
    requires IsRun(service, trees, states, courses, outcome, last) && j < |states|
    ensures Extends(states[j].store, last.store)
    decreases |states| - j
  {
    hide Extends, Follows;
    if j + 1 < |states| {
      RunExtends(service, trees, states, courses, outcome, last, j + 1);
      FollowsExtends(service, trees, states[j], courses[j], Done, states[j + 1]);
      ExtendsTransitive(states[j].store, states[j + 1].store, last.store);
    } else if states[j].queue == [] {
      ExtendsItself(last.store);
    } else {
      FollowsExtends(service, trees, states[j], courses[j], outcome, last);
    }
  }

  lemma FollowsExtends(service: Service, trees: seq<Tree>, a: State, c: Course, outcome: Outcome, b: State)
    requires Follows(service, trees, a, c, outcome, b)
    ensures Extends(a.store, b.store)
  {
    hide Extends, WantedIn, AllHashable, Grouped, SendSpec, Received, AddedOnlyAnswers, Brought, RoundDone;
    ExtendsItself(a.store);
  }
}
