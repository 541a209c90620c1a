/** The third phase of an expansion round: taking the replies, in any order. */
module Rounds {
  import opened ByteText
  import opened Json
  import opened Trees
  import opened Expansion

  // ------------------------------------------------------------------ nodes in play

  function NodeSet(kids: seq<Node>): set<Node>
    decreases kids
  {
    if kids == [] then {} else {kids[0]} + NodeSet(kids[0].kids) + NodeSet(kids[1..])
  }

  predicate Closed(ns: set<Node>) { forall x :: x in ns ==> forall k :: k in x.kids ==> k in ns }

  lemma {:induction false} NodeSetCloses(kids: seq<Node>)
    ensures Closed(NodeSet(kids)) && forall x :: x in kids ==> x in NodeSet(kids)
    decreases kids
  {
    if kids != [] {
      NodeSetCloses(kids[0].kids);
      NodeSetCloses(kids[1..]);
    }
  }

  predicate NodesIn(nodes: seq<Node>, ns: set<Node>) { forall x :: x in nodes ==> x in ns }

  /** Every queued object is in the store, and every queued node is one of the trees' nodes. */
  predicate QueueIn(queue: seq<Work>, s: Store, ns: set<Node>) {
    forall i :: 0 <= i < |queue| ==> queue[i].id in s && NodesIn(queue[i].nodes, ns)
  }

  // ------------------------------------------------------------------ new objects

  /** What was in the store is untouched, and what is new is on record as it arrived. */
  ghost predicate OnlyEnters(s: Store, arrived: Store, s': Store, arrived': Store) {
    && (forall id :: id in s ==> id in s' && s'[id] == s[id])
    && (forall id :: id in arrived ==> id in arrived' && arrived'[id] == arrived[id])
    && (s.Keys == arrived.Keys ==> s'.Keys == arrived'.Keys)
    && (forall id :: id in s' && id !in s && s.Keys == arrived.Keys ==> s'[id] == arrived'[id])
  }

  function WorkFor(os: seq<Json>, nodes: seq<Node>): (ws: seq<Work>)
    requires forall o :: o in os ==> o.Dict?
    ensures |ws| == |os| && forall k :: 0 <= k < |os| ==> ws[k] == Work(os[k].id, nodes)
  {
    seq(|os|, k requires 0 <= k < |os| => Work(os[k].id, nodes))
  }

  function EnterAll(s: Store, os: seq<Json>): Store
    requires forall o :: o in os ==> o.Dict?
  {
    if os == [] then s else Enter(EnterAll(s, os[..|os| - 1]), os[|os| - 1])
  }

  /** `_extend_expansion_objects`: queue every object of the type that the body holds. */
  method ExtendObjects(s: Store, ghost arrived: Store, queue: seq<Work>, t: Option<string>, nodes: seq<Node>,
                       body: Json, ghost ids: set<Atom>, ghost ns: set<Node>)
    returns (s': Store, ghost arrived': Store, queue': seq<Work>)
    requires LeavesIn(body, ids) && StoreLeavesIn(s, ids) && QueueIn(queue, s, ns) && NodesIn(nodes, ns)
    ensures OnlyEnters(s, arrived, s', arrived') && StoreLeavesIn(s', ids) && QueueIn(queue', s', ns)
    ensures s' == EnterAll(s, FindObjects(t, body)) && queue' == queue + WorkFor(FindObjects(t, body), nodes)
  {
    hide LeavesIn, FindObjects, OnlyEnters, StoreLeavesIn, QueueIn, Enter;
    FoundLeavesIn(t, body, ids);
    var found := FindObjects(t, body);
    s', arrived', queue' := s, arrived, queue;
    for k := 0 to |found|
      invariant s' == EnterAll(s, found[..k]) && arrived' == EnterAll(arrived, found[..k])
      invariant queue' == queue + WorkFor(found, nodes)[..k]
    {
      var o := found[k];
      assert o in found && found[..k + 1][..k] == found[..k];
      s', arrived', queue' := Enter(s', o), Enter(arrived', o), queue' + [Work(o.id, nodes)];
    }
    assert found[..|found|] == found && WorkFor(found, nodes)[..|found|] == WorkFor(found, nodes);
    EnteringAll(s, arrived, found, ids);
    EnteredQueue(s, queue, found, nodes, ns);
  }

  lemma {:induction false} EnteringAll(s: Store, arrived: Store, os: seq<Json>, ids: set<Atom>)
    requires StoreLeavesIn(s, ids) && forall o :: o in os ==> o.Dict? && LeavesIn(o, ids)
    ensures OnlyEnters(s, arrived, EnterAll(s, os), EnterAll(arrived, os)) && StoreLeavesIn(EnterAll(s, os), ids)
  {
    hide LeavesIn, FieldsOf;
    if os != [] {
      var o := os[|os| - 1];
      assert o in os;
      EnteringAll(s, arrived, os[..|os| - 1], ids);
      FieldsLeavesIn(o, ids);
    }
  }

  lemma {:induction false} EnterAllKeys(s: Store, os: seq<Json>)
    requires forall o :: o in os ==> o.Dict?
    ensures s.Keys <= EnterAll(s, os).Keys && forall o :: o in os ==> o.id in EnterAll(s, os)
  {
    hide FieldsOf;
    if os != [] {
      EnterAllKeys(s, os[..|os| - 1]);
    }
  }

  lemma EnteredQueue(s: Store, queue: seq<Work>, os: seq<Json>, nodes: seq<Node>, ns: set<Node>)
    requires QueueIn(queue, s, ns) && NodesIn(nodes, ns) && forall o :: o in os ==> o.Dict?
    ensures QueueIn(queue + WorkFor(os, nodes), EnterAll(s, os), ns)
  {
    hide EnterAll, NodesIn;
    EnterAllKeys(s, os);
  }

  // ------------------------------------------------------------------ what one round may write

  /** Why a field was added: the request that answered, and the node that asked. */
  datatype Why = Why(n: nat, node: Node)

  predicate Justified(service: Service, s0: Store, sent: map<nat, Sent>, w: Why, id: nat, f: Atom, v: Json) {
    var t := Target(id, w.node);
    && w.n in sent && t in sent[w.n].targets && t.Destination() == f
    && Lookup(service(w.n, sent[w.n].call), w.node.settings.responseField, ValueOf(s0, t)) == Some(v)
  }

  type Reasons = map<(nat, Atom), Why>

  /** Since the start of the round: nothing is gone or different, every added field of an old object is some waiting
      node's destination holding what its service returned, and new objects are as they arrived. */
  ghost predicate RoundInv(service: Service, s0: Store, arrived0: Store, sent: map<nat, Sent>,
                           s: Store, arrived: Store, why: Reasons) {
    && Extends(s0, s)
    && (forall id, f :: (id, f) in why ==> id in s0 && f !in s0[id])
    && (forall id, f :: id in s0 && f in s[id] && f !in s0[id] ==>
          (id, f) in why && Justified(service, s0, sent, why[(id, f)], id, f, s[id][f]))
    && s.Keys == arrived.Keys && s0.Keys == arrived0.Keys
    && (forall id :: id in s0 ==> arrived[id] == arrived0[id])
    && (forall id :: id in s && id !in s0 ==> s[id] == arrived[id])
  }

  /** No field is taken away. */
  predicate Grows(s: Store, s': Store) { forall id :: id in s ==> id in s' && s[id].Keys <= s'[id].Keys }

  lemma EnteringKeepsRoundInv(service: Service, s0: Store, arrived0: Store, sent: map<nat, Sent>,
                              s: Store, arrived: Store, s': Store, arrived': Store, why: Reasons)
    requires RoundInv(service, s0, arrived0, sent, s, arrived, why) && OnlyEnters(s, arrived, s', arrived')
    ensures RoundInv(service, s0, arrived0, sent, s', arrived', why)
  {
    hide Justified;
  }

  lemma AssigningKeepsRoundInv(service: Service, s0: Store, arrived0: Store, sent: map<nat, Sent>,
                               s: Store, arrived: Store, why: Reasons, w: Why, t: Target, v: Json)
    requires RoundInv(service, s0, arrived0, sent, s, arrived, why) && Hashable(s0, t)
    requires w.node == t.node && Justified(service, s0, sent, w, t.id, t.Destination(), v)
    ensures t.id in s
    ensures
      var s' := s[t.id := s[t.id][t.Destination() := v]];
      && RoundInv(service, s0, arrived0, sent, s', arrived, why[(t.id, t.Destination()) := w])
      && Grows(s, s')
  {
    hide Justified, Hashable;
    WantedIsOpen(s0, t);
    var d := t.Destination();
    var o := s[t.id][d := v];
    var s', why' := s[t.id := o], why[(t.id, d) := w];
    forall id, f | id in s0 && f in s'[id] && f !in s0[id]
      ensures (id, f) in why' && Justified(service, s0, sent, why'[(id, f)], id, f, s'[id][f])
    {
      if (id, f) != (t.id, d) {
        assert f in s[id] && s'[id][f] == s[id][f];
      }
    }
  }

  lemma WantedIsOpen(s: Store, t: Target)
    requires Hashable(s, t)
    ensures t.id in s && t.Destination() !in s[t.id]
  {
  }

  /** A node that raises errors got none. */
  predicate Quiet(r: Reply, t: Target) {
    t.node.settings.raises ==> r.errors == [] && (r.actions != [] ==> r.actions[0].errors == [])
  }

  predicate ReplyLeavesIn(r: Reply, ids: set<Atom>) { forall a :: a in r.actions ==> LeavesIn(a.body, ids) }

  datatype Errors = Errors(job: seq<string>, action: seq<ActionReply>)
  {
    predicate None() { job == [] && action == [] }
    function Plus(e: Errors): Errors { Errors(job + e.job, action + e.action) }
  }

  // ------------------------------------------------------------------ what a reply brings

  /** The code raises a `KeyError` or the like: no action, or a body without a dict under the response field. */
  predicate Broken(r: Reply, t: Target) {
    && r.errors == []
    && (r.actions == []
        || (Truthy(r.actions[0].body)
            && var values := Answers(r, t.node.settings.responseField); values.None? || !values.value.Dict?))
  }

  /** The errors that are kept for raising on account of one waiting node. */
  function Raised(r: Reply, t: Target): Errors {
    if !t.node.settings.raises then Errors([], [])
    else if r.errors != [] then Errors(r.errors, [])
    else if r.actions != [] && r.actions[0].errors != [] then Errors([], [r.actions[0]])
    else Errors([], [])
  }

  function RaisedBy(r: Reply, ts: seq<Target>): Errors {
    if ts == [] then Errors([], []) else RaisedBy(r, ts[..|ts| - 1]).Plus(Raised(r, ts[|ts| - 1]))
  }

  predicate HasBody(r: Reply) { r.errors == [] && r.actions != [] && Truthy(r.actions[0].body) }

  /** The store with the reply's object for the target's value in its field, if there is one. */
  function Written(s0: Store, s: Store, r: Reply, t: Target): Store {
    var answer := Lookup(r, t.node.settings.responseField, ValueOf(s0, t));
    if answer.Some? && t.id in s then s[t.id := s[t.id][t.Destination() := answer.value]] else s
  }

  /** The store with the objects found for the node's children. */
  function Searched(s: Store, r: Reply, t: Target): Store {
    if !HasBody(r) || t.node.kids == [] then s
    else EnterAll(s, FindObjects(t.node.settings.nodeType, r.actions[0].body))
  }

  /** The nested approach: objects for the node's children. */
  function NestedOf(r: Reply, t: Target): seq<Work> {
    if !HasBody(r) || t.node.kids == [] then []
    else WorkFor(FindObjects(t.node.settings.nodeType, r.actions[0].body), t.node.kids)
  }

  function Nested(r: Reply, ts: seq<Target>): seq<Work> {
    if ts == [] then [] else Nested(r, ts[..|ts| - 1]) + NestedOf(r, ts[|ts| - 1])
  }

  /** The global approach: objects of every requested type. */
  function Global(trees: seq<Tree>, body: Json): seq<Work> {
    if trees == [] then []
    else
      var tree := trees[|trees| - 1];
      Global(trees[..|trees| - 1], body) + WorkFor(FindObjects(Some(tree.nodeType), body), tree.kids)
  }

  function Discovered(trees: seq<Tree>, r: Reply, ts: seq<Target>): seq<Work> {
    Nested(r, ts) + if HasBody(r) && r.actions[0].errors == [] then Global(trees, r.actions[0].body) else []
  }

  /** The queue after a round whose replies came in the given order. */
  function DiscoveredIn(trees: seq<Tree>, service: Service, sent: map<nat, Sent>, order: seq<nat>): seq<Work>
    requires forall n :: n in order ==> n in sent
  {
    if order == [] then []
    else
      var n := order[|order| - 1];
      DiscoveredIn(trees, service, sent, order[..|order| - 1])
      + Discovered(trees, service(n, sent[n].call), sent[n].targets)
  }

  function RaisedIn(service: Service, sent: map<nat, Sent>, order: seq<nat>): Errors
    requires forall n :: n in order ==> n in sent
  {
    if order == [] then Errors([], [])
    else
      var n := order[|order| - 1];
      RaisedIn(service, sent, order[..|order| - 1]).Plus(RaisedBy(service(n, sent[n].call), sent[n].targets))
  }

  /** Each request once. */
  ghost predicate IsOrder(order: seq<nat>, keys: set<nat>) {
    (forall n :: n in order <==> n in keys) && forall i, j :: 0 <= i < j < |order| ==> order[i] != order[j]
  }

  ghost predicate FoundIn(r: Reply, o: Json) {
    r.actions != [] && exists t :: o in FindObjects(t, r.actions[0].body)
  }

  ghost predicate BroughtBy(service: Service, sent: map<nat, Sent>, id: nat, content: Fields) {
    exists n, o :: n in sent && FoundIn(service(n, sent[n].call), o) && o.Dict? && o.id == id && FieldsOf(o) == content
  }

  /** Every new object is in the store as a reply of the round holds it. */
  ghost predicate Brought(service: Service, sent: map<nat, Sent>, s0: Store, s: Store) {
    forall id :: id in s && id !in s0 ==> BroughtBy(service, sent, id, s[id])
  }

  lemma {:induction false} EnteringIsBrought(service: Service, sent: map<nat, Sent>, s0: Store, s: Store,
                                             n: nat, t: Option<string>, os: seq<Json>)
    requires Brought(service, sent, s0, s) && n in sent && service(n, sent[n].call).actions != []
    requires forall o :: o in os ==> o in FindObjects(t, service(n, sent[n].call).actions[0].body)
    ensures (forall o :: o in os ==> o.Dict?) && Brought(service, sent, s0, EnterAll(s, os))
  {
    hide FindObjects, FieldsOf;
    if os != [] {
      var o := os[|os| - 1];
      assert o in os;
      EnteringIsBrought(service, sent, s0, s, n, t, os[..|os| - 1]);
      assert FoundIn(service(n, sent[n].call), o);
      assert BroughtBy(service, sent, o.id, FieldsOf(o));
    }
  }

  // ------------------------------------------------------------------ taking the replies

  /** The object has the node's field if the reply holds one for its value. */
  predicate Answered(s0: Store, s: Store, r: Reply, t: Target) {
    Lookup(r, t.node.settings.responseField, ValueOf(s0, t)).Some? ==> t.id in s && t.Destination() in s[t.id]
  }

  lemma AnsweredStays(s0: Store, s: Store, s': Store, r: Reply, t: Target)
    requires Answered(s0, s, r, t) && Grows(s, s')
    ensures Answered(s0, s', r, t)
  {
  }

  lemma SourceStays(s0: Store, s: Store, t: Target)
    requires Extends(s0, s) && Hashable(s0, t)
    ensures t.id in s && t.Source() in s[t.id] && s[t.id][t.Source()] == Leaf(ValueOf(s0, t))
  {
  }

  lemma UnansweredStays(s0: Store, s: Store, r: Reply, t: Target)
    ensures Answers(r, t.node.settings.responseField).None? ==> Written(s0, s, r, t) == s && Answered(s0, s, r, t)
  {
  }

  /** Put the object that the reply holds for the target's value into its field, if there is one. */
  method WriteAnswer(service: Service, ghost s0: Store, ghost arrived0: Store, ghost sent: map<nat, Sent>, ghost n: nat,
                     ghost r: Reply, t: Target, values: Json, s: Store, ghost arrived: Store, ghost why: Reasons,
                     ghost ids: set<Atom>)
    returns (s': Store, ghost why': Reasons)
    requires n in sent && t in sent[n].targets && r == service(n, sent[n].call) && Hashable(s0, t)
    requires ReplyLeavesIn(r, ids) && values.Dict? && Answers(r, t.node.settings.responseField) == Some(values)
    requires RoundInv(service, s0, arrived0, sent, s, arrived, why) && StoreLeavesIn(s, ids)
    ensures RoundInv(service, s0, arrived0, sent, s', arrived, why') && StoreLeavesIn(s', ids) && s'.Keys == s.Keys
    ensures Grows(s, s') && (Brought(service, sent, s0, s) ==> Brought(service, sent, s0, s'))
    ensures s' == Written(s0, s, r, t) && Answered(s0, s', r, t)
  {
    hide RoundInv, Justified, Wanted, Hashable, ValueOf, LeavesIn, Answers, Get, Brought;
    s', why' := s, why;
    RoundExtends(service, s0, arrived0, sent, s, arrived, why);
    SourceStays(s0, s, t);
    var value := s[t.id][t.Source()].atom;
    var answer := Get(values, value);
    if answer.Some? {
      AnswerLeavesIn(r, t.node.settings.responseField, value, ids);
      ghost var w := Why(n, t.node);
      AnswerJustifies(service, s0, sent, n, t, answer.value);
      AssigningKeepsRoundInv(service, s0, arrived0, sent, s, arrived, why, w, t, answer.value);
      AssigningIsBrought(service, sent, s0, s, t, answer.value);
      s' := s[t.id := s[t.id][t.Destination() := answer.value]];
      why' := why[(t.id, t.Destination()) := w];
    }
  }

  /** What the target's source field held at the start of the round. */
  function SourceAt(s0: Store, t: Target): Option<Json> {
    var source := Text(t.node.settings.source);
    if t.id in s0 && source in s0[t.id] then Some(s0[t.id][source]) else None
  }

  /** The reply holds this object for the target's value. */
  ghost predicate HeldFor(s0: Store, r: Reply, t: Target, v: Json) {
    var source := SourceAt(s0, t);
    && source.Some? && source.value.Leaf?
    && ReplyHolds(r, t.node.settings.responseField, source.value.atom, v)
  }

  lemma LookupIsHeldFor(s0: Store, r: Reply, t: Target)
    requires Hashable(s0, t)
    ensures forall v :: HeldFor(s0, r, t, v) <==> Lookup(r, t.node.settings.responseField, ValueOf(s0, t)) == Some(v)
  {
    hide ReplyHolds, Lookup, Truthy;
    forall v
      ensures HeldFor(s0, r, t, v) <==> Lookup(r, t.node.settings.responseField, ValueOf(s0, t)) == Some(v)
    {
      LookupIsHeld(r, t.node.settings.responseField, ValueOf(s0, t), v);
    }
  }

  /** The object the reply holds for the value is what the target gets, and it stays as it was when there is none. */
  ghost predicate GetsHeld(s0: Store, s: Store, s': Store, r: Reply, t: Target) {
    && t.id in s && t.id in s'
    && (forall v :: HeldFor(s0, r, t, v) ==>
          Text(t.node.settings.destination) in s'[t.id] && s'[t.id][Text(t.node.settings.destination)] == v)
    && ((forall v :: !HeldFor(s0, r, t, v)) ==> s'[t.id] == s[t.id])
  }

  lemma WrittenIsHeld(s0: Store, s: Store, r: Reply, t: Target)
    requires Hashable(s0, t) && t.id in s
    ensures GetsHeld(s0, s, Searched(Written(s0, s, r, t), r, t), r, t)
  {
    hide HeldFor, Hashable, ValueOf, Lookup, EnterAll;
    LookupIsHeldFor(s0, r, t);
    var written := Written(s0, s, r, t);
    if HasBody(r) { EnterAllKeeps(written, FindObjects(t.node.settings.nodeType, r.actions[0].body)); }
  }

  lemma {:induction false} EnterAllKeeps(s: Store, os: seq<Json>)
    requires forall o :: o in os ==> o.Dict?
    ensures forall id :: id in s ==> id in EnterAll(s, os) && EnterAll(s, os)[id] == s[id]
  {
    hide FieldsOf;
    if os != [] { EnterAllKeeps(s, os[..|os| - 1]); }
  }

  /** One waiting object and node of one reply. `ok` is false where the code raises for a malformed reply. */
  method ApplyTarget(service: Service, ghost s0: Store, ghost arrived0: Store, ghost sent: map<nat, Sent>, n: nat,
                     r: Reply, t: Target, s: Store, ghost arrived: Store, queue: seq<Work>, ghost why: Reasons,
                     e: Errors, ghost ids: set<Atom>, ghost ns: set<Node>)
    returns (ok: bool, s': Store, ghost arrived': Store, queue': seq<Work>, ghost why': Reasons, e': Errors)
    requires n in sent && t in sent[n].targets && r == service(n, sent[n].call) && Hashable(s0, t)
    requires ReplyLeavesIn(r, ids) && Closed(ns) && t.node in ns
    requires RoundInv(service, s0, arrived0, sent, s, arrived, why) && StoreLeavesIn(s, ids) && QueueIn(queue, s, ns)
    ensures RoundInv(service, s0, arrived0, sent, s', arrived', why') && StoreLeavesIn(s', ids)
    ensures QueueIn(queue', s', ns)
    ensures Grows(s, s') && (Brought(service, sent, s0, s) ==> Brought(service, sent, s0, s'))
    ensures ok <==> !Broken(r, t)
    ensures s' == if ok then Searched(Written(s0, s, r, t), r, t) else s
    ensures ok ==> GetsHeld(s0, s, s', r, t)
    ensures ok ==> Answered(s0, s', r, t) && queue' == queue + NestedOf(r, t) && e' == e.Plus(Raised(r, t))
  {
    hide RoundInv, Justified, Wanted, Hashable, ValueOf, LeavesIn, FindObjects, Get, Truthy, Brought, EnterAll,
         Written, Answered, GetsHeld;
    UnansweredStays(s0, s, r, t);
    RoundExtends(service, s0, arrived0, sent, s, arrived, why);
    SourceStays(s0, s, t);
    WrittenIsHeld(s0, s, r, t);
    ok, s', arrived', queue', why', e' := true, s, arrived, queue, why, e;
    var settings := t.node.settings;
    if r.errors != [] {
      if settings.raises { e' := e'.(job := e'.job + r.errors); }
      return;
    }
    if r.actions == [] { return false, s', arrived', queue', why', e'; }
    var a := r.actions[0];
    if a.errors != [] && settings.raises { e' := e'.(action := e'.action + [a]); }
    if Truthy(a.body) {
      var values := Answers(r, settings.responseField);
      if values.None? || !values.value.Dict? { return false, s', arrived', queue', why', e'; }
      s', why' := WriteAnswer(service, s0, arrived0, sent, n, r, t, values.value, s, arrived, why, ids);
      if t.node.kids != [] {
        ghost var s1, arrived1 := s', arrived';
        s', arrived', queue' := ExtendObjects(s', arrived', queue', settings.nodeType, t.node.kids, a.body, ids, ns);
        EnteringKeepsRoundInv(service, s0, arrived0, sent, s1, arrived1, s', arrived', why');
        AnsweredStays(s0, s1, s', r, t);
        if Brought(service, sent, s0, s1) {
          EnteringIsBrought(service, sent, s0, s1, n, settings.nodeType, FindObjects(settings.nodeType, a.body));
        }
      }
    }
  }

  lemma AssigningIsBrought(service: Service, sent: map<nat, Sent>, s0: Store, s: Store, t: Target, v: Json)
    requires Hashable(s0, t) && t.id in s
    ensures Brought(service, sent, s0, s) ==> Brought(service, sent, s0, s[t.id := s[t.id][t.Destination() := v]])
  {
    hide BroughtBy;
  }

  lemma RoundExtends(service: Service, s0: Store, arrived0: Store, sent: map<nat, Sent>,
                     s: Store, arrived: Store, why: Reasons)
    requires RoundInv(service, s0, arrived0, sent, s, arrived, why)
    ensures Extends(s0, s)
  {
  }

  lemma AnswerJustifies(service: Service, s0: Store, sent: map<nat, Sent>, n: nat, t: Target, v: Json)
    requires n in sent && t in sent[n].targets
    requires Lookup(service(n, sent[n].call), t.node.settings.responseField, ValueOf(s0, t)) == Some(v)
    ensures Justified(service, s0, sent, Why(n, t.node), t.id, t.Destination(), v)
  {
    assert Target(t.id, t.node) == t;
  }

  lemma AnswerLeavesIn(r: Reply, responseField: string, value: Atom, ids: set<Atom>)
    requires ReplyLeavesIn(r, ids)
    ensures Lookup(r, responseField, value).Some? ==> LeavesIn(Lookup(r, responseField, value).value, ids)
  {
    var a := Answers(r, responseField);
    if a.Some? {
      assert r.actions[0] in r.actions;
      GetLeavesIn(r.actions[0].body, Text(responseField), ids);
      if a.value.Dict? { GetLeavesIn(a.value, value, ids); }
    }
  }

  /** What the second phase leaves for the third: hashable targets with nodes in play. */
  ghost predicate SentIn(s0: Store, sent: map<nat, Sent>, ns: set<Node>) {
    forall n :: n in sent ==> forall t :: t in sent[n].targets ==> Hashable(s0, t) && t.node in ns
  }

  predicate RepliesLeavesIn(service: Service, sent: map<nat, Sent>, ids: set<Atom>) {
    forall n :: n in sent ==> ReplyLeavesIn(service(n, sent[n].call), ids)
  }

  predicate TreesIn(trees: seq<Tree>, ns: set<Node>) { forall k :: 0 <= k < |trees| ==> NodesIn(trees[k].kids, ns) }

  /** The search of a reply's body for objects of every requested type. */
  method SearchReply(service: Service, trees: seq<Tree>, ghost s0: Store, ghost arrived0: Store, ghost sent: map<nat,
                     Sent>,
                     ghost n: nat, r: Reply, s: Store, ghost arrived: Store, queue: seq<Work>, ghost why: Reasons,
                     ghost ids: set<Atom>, ghost ns: set<Node>)
    returns (s': Store, ghost arrived': Store, queue': seq<Work>)
    requires n in sent && r == service(n, sent[n].call) && HasBody(r) && ReplyLeavesIn(r, ids) && TreesIn(trees, ns)
    requires RoundInv(service, s0, arrived0, sent, s, arrived, why) && StoreLeavesIn(s, ids) && QueueIn(queue, s, ns)
    ensures RoundInv(service, s0, arrived0, sent, s', arrived', why) && StoreLeavesIn(s', ids)
    ensures QueueIn(queue', s', ns)
    ensures Grows(s, s') && (Brought(service, sent, s0, s) ==> Brought(service, sent, s0, s'))
    ensures queue' == queue + Global(trees, r.actions[0].body)
  {
    hide RoundInv, LeavesIn, FindObjects, Truthy, StoreLeavesIn, QueueIn, Brought, EnterAll;
    s', arrived', queue' := s, arrived, queue;
    assert r.actions[0] in r.actions;
    for k := 0 to |trees|
      invariant RoundInv(service, s0, arrived0, sent, s', arrived', why) && StoreLeavesIn(s', ids)
      invariant QueueIn(queue', s', ns)
      invariant Grows(s, s') && (Brought(service, sent, s0, s) ==> Brought(service, sent, s0, s'))
      invariant queue' == queue + Global(trees[..k], r.actions[0].body)
    {
      assert trees[..k + 1][..k] == trees[..k];
      ghost var s1, arrived1, ty := s', arrived', Some(trees[k].nodeType);
      s', arrived', queue' :=
        ExtendObjects(s', arrived', queue', Some(trees[k].nodeType), trees[k].kids, r.actions[0].body, ids, ns);
      EnteringKeepsRoundInv(service, s0, arrived0, sent, s1, arrived1, s', arrived', why);
      if Brought(service, sent, s0, s1) {
        EnteringIsBrought(service, sent, s0, s1, n, ty, FindObjects(ty, r.actions[0].body));
      }
    }
    assert trees[..|trees|] == trees;
  }

  /** One whole reply: its waiting objects, then the search of its body for objects of every requested type. */
  method ApplyReply(service: Service, trees: seq<Tree>, ghost s0: Store, ghost arrived0: Store, sent: map<nat, Sent>,
                    n: nat, s: Store, ghost arrived: Store, queue: seq<Work>, ghost why: Reasons, e: Errors,
                    ghost ids: set<Atom>, ghost ns: set<Node>)
    returns (ok: bool, s': Store, ghost arrived': Store, queue': seq<Work>, ghost why': Reasons, e': Errors)
    requires n in sent && sent[n].targets != [] && SentIn(s0, sent, ns)
    requires RepliesLeavesIn(service, sent, ids) && Closed(ns) && TreesIn(trees, ns)
    requires RoundInv(service, s0, arrived0, sent, s, arrived, why) && StoreLeavesIn(s, ids) && QueueIn(queue, s, ns)
    ensures RoundInv(service, s0, arrived0, sent, s', arrived', why') && StoreLeavesIn(s', ids)
    ensures QueueIn(queue', s', ns)
    ensures Grows(s, s') && (Brought(service, sent, s0, s) ==> Brought(service, sent, s0, s'))
    ensures ok <==> forall t :: t in sent[n].targets ==> !Broken(service(n, sent[n].call), t)
    ensures ok ==> forall t :: t in sent[n].targets ==> Answered(s0, s', service(n, sent[n].call), t)
    ensures ok ==> queue' == queue + Discovered(trees, service(n, sent[n].call), sent[n].targets)
    ensures ok ==> e' == e.Plus(RaisedBy(service(n, sent[n].call), sent[n].targets))
  {
    hide RoundInv, Hashable, LeavesIn, FindObjects, Truthy, StoreLeavesIn, Answered, QueueIn, Brought, EnterAll,
         Broken, Raised, NestedOf, Grows, Errors.Plus;
    Reflexive(s, e);
    ok, s', arrived', queue', why', e' := true, s, arrived, queue, why, e;
    var r, targets := service(n, sent[n].call), sent[n].targets;
    for k := 0 to |targets|
      invariant RoundInv(service, s0, arrived0, sent, s', arrived', why') && StoreLeavesIn(s', ids)
      invariant QueueIn(queue', s', ns)
      invariant Grows(s, s')
      invariant Brought(service, sent, s0, s) ==> Brought(service, sent, s0, s')
      invariant forall j :: 0 <= j < k ==> Answered(s0, s', r, targets[j]) && !Broken(r, targets[j])
      invariant queue' == queue + Nested(r, targets[..k]) && e' == e.Plus(RaisedBy(r, targets[..k]))
    {
      var t := targets[k];
      assert targets[..k + 1][..k] == targets[..k];
      ghost var before := s';
      assert t in targets;
      ok, s', arrived', queue', why', e' :=
        ApplyTarget(service, s0, arrived0, sent, n, r, t, s', arrived', queue', why', e', ids, ns);
      GrowsTransitive(s, before, s');
      if !ok { return; }
      forall j | 0 <= j < k ensures Answered(s0, s', r, targets[j]) { AnsweredStays(s0, before, s', r, targets[j]); }
      PlusAssociative(e, RaisedBy(r, targets[..k]), Raised(r, t));
    }
    assert targets[..|targets|] == targets;
    UnbrokenHasAction(r, targets[0]);
    if r.errors == [] && r.actions[0].errors == [] && Truthy(r.actions[0].body) {
      ghost var before := s';
      s', arrived', queue' :=
        SearchReply(service, trees, s0, arrived0, sent, n, r, s', arrived', queue', why', ids, ns);
      forall t | t in targets ensures Answered(s0, s', r, t) { AnsweredStays(s0, before, s', r, t); }
      GrowsTransitive(s, before, s');
    }
  }

  lemma Reflexive(s: Store, e: Errors)
    ensures Grows(s, s) && e.Plus(Errors([], [])) == e
  {
  }

  lemma GrowsTransitive(a: Store, b: Store, c: Store)
    requires Grows(a, b) && Grows(b, c)
    ensures Grows(a, c)
  {
  }

  lemma PlusAssociative(a: Errors, b: Errors, c: Errors)
    ensures a.Plus(b).Plus(c) == a.Plus(b.Plus(c))
  {
  }

  lemma UnbrokenHasAction(r: Reply, t: Target)
    requires !Broken(r, t)
    ensures r.errors == [] ==> r.actions != []
  {
  }

  /** `Done` when the round completes; the other outcomes are the exceptions the client raises. */
  datatype Outcome =
    | Done
    | Malformed
    | Unhashable
    | ActionErrors(replies: seq<ActionReply>)
    | JobErrors(errors: seq<string>)

  /** After a completed round every answered object has its field, and no raising node got an error. */
  ghost predicate RoundDone(service: Service, s0: Store, sent: map<nat, Sent>, s: Store) {
    forall n :: n in sent ==> forall t :: t in sent[n].targets ==>
      Answered(s0, s, service(n, sent[n].call), t) && Quiet(service(n, sent[n].call), t)
  }

  function OutcomeOf(e: Errors): Outcome {
    if e.action != [] then ActionErrors(e.action) else if e.job != [] then JobErrors(e.job) else Done
  }

  predicate AllSound(service: Service, sent: map<nat, Sent>) {
    forall n :: n in sent ==> forall t :: t in sent[n].targets ==> !Broken(service(n, sent[n].call), t)
  }

  /** What the third phase comes to when the replies arrive in the given order. */
  ghost predicate Received(service: Service, trees: seq<Tree>, sent: map<nat, Sent>, order: seq<nat>, outcome: Outcome,
                     queue: seq<Work>) {
    if !AllSound(service, sent) then outcome.Malformed?
    else
      && IsOrder(order, sent.Keys)
      && outcome == OutcomeOf(RaisedIn(service, sent, order)) && queue == DiscoveredIn(trees, service, sent, order)
  }

  /** The third phase: take the replies in any order, then raise what has to be raised. */
  method ReceiveReplies(service: Service, trees: seq<Tree>, s0: Store, ghost arrived0: Store, sent: map<nat, Sent>,
                        ghost ids: set<Atom>, ghost ns: set<Node>)
    returns (outcome: Outcome, s: Store, ghost arrived: Store, queue: seq<Work>, ghost why: Reasons,
             ghost order: seq<nat>)
    requires SentIn(s0, sent, ns) && forall n :: n in sent ==> sent[n].targets != []
    requires RepliesLeavesIn(service, sent, ids) && Closed(ns) && TreesIn(trees, ns)
    requires s0.Keys == arrived0.Keys && StoreLeavesIn(s0, ids)
    ensures RoundInv(service, s0, arrived0, sent, s, arrived, why) && StoreLeavesIn(s, ids) && QueueIn(queue, s, ns)
    ensures Received(service, trees, sent, order, outcome, queue) && Brought(service, sent, s0, s)
    ensures outcome.Done? ==> RoundDone(service, s0, sent, s)
    ensures WritesHeld(service, s0, sent, s) && (outcome.Done? ==> AllGotHeld(service, s0, sent, s))
    ensures sent == map[] ==> outcome.Done? && s == s0 && queue == []
  {
    hide RoundInv, SentIn, RepliesLeavesIn, StoreLeavesIn, Answered, Quiet, QueueIn, TreesIn, Closed, Brought, Broken,
         RaisedBy, Discovered, BroughtBy, WritesHeld, AllGotHeld;
    s, arrived, queue, why, order := s0, arrived0, [], map[], [];
    NothingReceived(service, s0, arrived0, sent, ns);
    var e := Errors([], []);
    var left := sent.Keys;
    while left != {}
      invariant left <= sent.Keys && (left == sent.Keys ==> s == s0)
      invariant RoundInv(service, s0, arrived0, sent, s, arrived, why) && StoreLeavesIn(s, ids) && QueueIn(queue, s, ns)
      invariant Brought(service, sent, s0, s) && IsOrder(order, sent.Keys - left)
      invariant forall n :: n in sent && n !in left ==>
                  forall t :: t in sent[n].targets ==>
                    Answered(s0, s, service(n, sent[n].call), t) && !Broken(service(n, sent[n].call), t)
      invariant e == RaisedIn(service, sent, order) && queue == DiscoveredIn(trees, service, sent, order)
      decreases left
    {
      var n :| n in left;
      ghost var before := s;
      var ok;
      ok, s, arrived, queue, why, e :=
        ApplyReply(service, trees, s0, arrived0, sent, n, s, arrived, queue, why, e, ids, ns);
      if !ok {
        RoundWritesHeld(service, s0, arrived0, sent, s, arrived, why, ns);
        return Malformed, s, arrived, queue, why, order;
      }
      forall k, t | k in sent && k !in left && t in sent[k].targets
        ensures Answered(s0, s, service(k, sent[k].call), t)
      {
        AnsweredStays(s0, before, s, service(k, sent[k].call), t);
      }
      left := left - {n};
      assert (order + [n])[..|order|] == order;
      order := order + [n];
    }
    outcome := if e.action != [] then ActionErrors(e.action) else if e.job != [] then JobErrors(e.job) else Done;
    RoundWritesHeld(service, s0, arrived0, sent, s, arrived, why, ns);
    if e.None() {
      NoneRaised(service, sent, order);
      DoneGotHeld(service, s0, sent, s, ns);
    }
  }

  /** Nothing is kept for raising only if no raising node got an error. */
  lemma {:induction false} NoneRaised(service: Service, sent: map<nat, Sent>, order: seq<nat>)
    requires (forall n :: n in order ==> n in sent) && RaisedIn(service, sent, order).None()
    ensures forall n :: n in order ==> forall t :: t in sent[n].targets ==> Quiet(service(n, sent[n].call), t)
  {
    hide Quiet;
    if order != [] {
      var n := order[|order| - 1];
      NoneRaised(service, sent, order[..|order| - 1]);
      NoneRaisedBy(service(n, sent[n].call), sent[n].targets);
    }
  }

  lemma {:induction false} NoneRaisedBy(r: Reply, ts: seq<Target>)
    requires RaisedBy(r, ts).None()
    ensures forall t :: t in ts ==> Quiet(r, t)
  {
    if ts != [] { NoneRaisedBy(r, ts[..|ts| - 1]); }
  }

  /** Every field that the round adds to an old object is a waiting node's destination and holds what the reply has for
      the object's source value. */
  ghost predicate WritesHeld(service: Service, s0: Store, sent: map<nat, Sent>, s: Store) {
    forall id, f :: id in s0 && id in s && f in s[id] && f !in s0[id] ==>
      exists n, x ::
        WaitsFor(sent, n, Target(id, x), f) && HeldFor(s0, service(n, sent[n].call), Target(id, x), s[id][f])
  }

  predicate WaitsFor(sent: map<nat, Sent>, n: nat, t: Target, f: Atom) {
    n in sent && t in sent[n].targets && Text(t.node.settings.destination) == f
  }

  /** Every waiting object for whose value its reply holds an object has its field. */
  ghost predicate AllGotHeld(service: Service, s0: Store, sent: map<nat, Sent>, s: Store) {
    forall n, t, v :: n in sent && t in sent[n].targets && HeldFor(s0, service(n, sent[n].call), t, v) ==>
      t.id in s && Text(t.node.settings.destination) in s[t.id]
  }

  lemma RoundWritesHeld(service: Service, s0: Store, arrived0: Store, sent: map<nat, Sent>, s: Store, arrived: Store,
                        why: Reasons, ns: set<Node>)
    requires RoundInv(service, s0, arrived0, sent, s, arrived, why) && SentIn(s0, sent, ns)
    ensures WritesHeld(service, s0, sent, s)
  {
    hide Hashable, HeldFor, Lookup, ValueOf;
    forall id, f | id in s0 && id in s && f in s[id] && f !in s0[id]
      ensures exists n, x ::
        WaitsFor(sent, n, Target(id, x), f) && HeldFor(s0, service(n, sent[n].call), Target(id, x), s[id][f])
    {
      var w := why[(id, f)];
      assert Justified(service, s0, sent, w, id, f, s[id][f]);
      LookupIsHeldFor(s0, service(w.n, sent[w.n].call), Target(id, w.node));
      assert WaitsFor(sent, w.n, Target(id, w.node), f);
    }
  }

  lemma DoneGotHeld(service: Service, s0: Store, sent: map<nat, Sent>, s: Store, ns: set<Node>)
    requires RoundDone(service, s0, sent, s) && SentIn(s0, sent, ns)
    ensures AllGotHeld(service, s0, sent, s)
  {
    hide Hashable, HeldFor, Lookup, ValueOf, Quiet;
    forall n, t, v | n in sent && t in sent[n].targets && HeldFor(s0, service(n, sent[n].call), t, v)
      ensures t.id in s && Text(t.node.settings.destination) in s[t.id]
    {
      LookupIsHeldFor(s0, service(n, sent[n].call), t);
      assert Answered(s0, s, service(n, sent[n].call), t);
    }
  }

  lemma NothingReceived(service: Service, s0: Store, arrived0: Store, sent: map<nat, Sent>, ns: set<Node>)
    requires s0.Keys == arrived0.Keys
    ensures RoundInv(service, s0, arrived0, sent, s0, arrived0, map[]) && QueueIn([], s0, ns)
    ensures Brought(service, sent, s0, s0)
  {
  }
}
