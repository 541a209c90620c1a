/** The client's expansion engine: rounds of batched, de-duplicated lookups that write into shared objects.

    The objects being expanded are dicts shared by reference; they live in a store from object identity to current
    content, entered the first time a search finds them. */
module Expansion {
  import opened ByteText
  import opened Json
  import opened Trees

  type Fields = map<Atom, Json>
  type Store = map<nat, Fields>

  // ------------------------------------------------------------------ services

  /** One expansion request: the action and its one body field, holding the values to look up. */
  datatype Call = Call(service: string, action: string, field: string, values: set<Atom>)

  datatype ActionReply = ActionReply(errors: seq<string>, body: Json)

  datatype Reply = Reply(errors: seq<string>, actions: seq<ActionReply>)

  /** What a service answers may depend on the request number, so replies need not repeat. */
  type Service = (nat, Call) -> Reply

  /** `body[responseField]`, when the reply gets that far. */
  function Answers(r: Reply, responseField: string): Option<Json> {
    if r.errors != [] || r.actions == [] || !Truthy(r.actions[0].body) || !r.actions[0].body.Dict? then None
    else Get(r.actions[0].body, Text(responseField))
  }

  /** The object a reply holds for a value. */
  function Lookup(r: Reply, responseField: string, value: Atom): Option<Json> {
    var a := Answers(r, responseField);
    if a.Some? && a.value.Dict? then Get(a.value, value) else None
  }

  /** The reply holds an object for the value: its first action's body has a dict under the response field, and that
      dict has the object under the value. */
  ghost predicate ReplyHolds(r: Reply, responseField: string, value: Atom, v: Json) {
    && r.errors == [] && r.actions != []
    && exists d :: Holds(r.actions[0].body, Text(responseField), d) && Holds(d, value, v)
  }

  /** The object of a reply is the one for the value, and there is none when no key equals the value. */
  lemma LookupIsHeld(r: Reply, responseField: string, value: Atom, v: Json)
    ensures Lookup(r, responseField, value) == Some(v) <==> ReplyHolds(r, responseField, value, v)
  {
    hide Get, Holds;
    if r.errors == [] && r.actions != [] {
      var body := r.actions[0].body;
      HoldsInDict(body, Text(responseField));
      if body.Dict? {
        forall d ensures Get(body, Text(responseField)) == Some(d) <==> Holds(body, Text(responseField), d) {
          GetIsHeld(body, Text(responseField), d);
        }
        forall d: Json ensures Holds(d, value, v) <==> d.Dict? && Get(d, value) == Some(v) {
          HoldsInDict(d, value);
          if d.Dict? { GetIsHeld(d, value, v); }
        }
      }
    }
  }

  lemma HoldsInDict(d: Json, key: Atom)
    ensures forall v :: Holds(d, key, v) ==> d.Dict? && Truthy(d)
  {
  }

  // ------------------------------------------------------------------ the store

  function FieldsOf(o: Json): Fields
    requires o.Dict?
  {
    map k | k in o.keys && Get(o, k).Some? :: Get(o, k).value
  }

  /** The fields of an object are what it holds. */
  lemma FieldsAreHeld(o: Json, f: Atom, v: Json)
    requires o.Dict?
    ensures f in FieldsOf(o) && FieldsOf(o)[f] == v <==> Holds(o, f, v)
  {
    GetIsHeld(o, f, v);
  }

  function Enter(s: Store, o: Json): Store
    requires o.Dict?
  {
    if o.id in s then s else s[o.id := FieldsOf(o)]
  }

  /** Nothing that was there is gone or different. */
  predicate Extends(s: Store, s': Store) {
    forall id :: id in s ==> id in s' && forall f :: f in s[id] ==> f in s'[id] && s'[id][f] == s[id][f]
  }

  predicate StoreLeavesIn(s: Store, ids: set<Atom>) {
    forall id :: id in s ==> forall f :: f in s[id] ==> LeavesIn(s[id][f], ids)
  }

  lemma FieldsLeavesIn(o: Json, ids: set<Atom>)
    requires o.Dict? && LeavesIn(o, ids)
    ensures forall f :: f in FieldsOf(o) ==> LeavesIn(FieldsOf(o)[f], ids)
  {
    forall f | f in FieldsOf(o) ensures LeavesIn(FieldsOf(o)[f], ids) { GetLeavesIn(o, f, ids); }
  }

  lemma GetLeavesIn(o: Json, key: Atom, ids: set<Atom>)
    requires o.Dict? && LeavesIn(o, ids)
    ensures Get(o, key).Some? ==> LeavesIn(Get(o, key).value, ids)
  {
  }

  // ------------------------------------------------------------------ what is pending

  /** An object to expand and the nodes to expand it by. */
  datatype Work = Work(id: nat, nodes: seq<Node>)

  datatype Target = Target(id: nat, node: Node)
  {
    function Destination(): Atom { Text(node.settings.destination) }
    function Source(): Atom { Text(node.settings.source) }
    function Group(): (string, string) { (node.settings.service, node.settings.action) }
  }

  /** Not satisfied yet, and the source field is there and truthy. */
  predicate Wanted(s: Store, t: Target) {
    && t.id in s && t.Destination() !in s[t.id]
    && t.Source() in s[t.id] && Truthy(s[t.id][t.Source()])
  }

  /** Never asked for is a null, a zero or an empty value; nor is a destination that is there already. */
  lemma WantedMeans(s: Store, t: Target)
    ensures
      var x := t.node.settings;
      Wanted(s, t)
      <==> t.id in s && Text(x.destination) !in s[t.id] && Text(x.source) in s[t.id]
           && var v := s[t.id][Text(x.source)];
              v !in {Leaf(Nil), Leaf(Bool(false)), Leaf(Num(0)), Leaf(Text("")), List([])} && !(v.Dict? && v.keys == [])
  {
    if t.id in s && Text(t.node.settings.source) in s[t.id] { TruthyMeans(s[t.id][t.Source()]); }
  }

  predicate Hashable(s: Store, t: Target) { Wanted(s, t) && s[t.id][t.Source()].Leaf? }

  function ValueOf(s: Store, t: Target): Atom { if Hashable(s, t) then s[t.id][t.Source()].atom else Nil }

  function WantedOf(s: Store, id: nat, nodes: seq<Node>): seq<Target> {
    if nodes == [] then []
    else
      var t := Target(id, nodes[|nodes| - 1]);
      WantedOf(s, id, nodes[..|nodes| - 1]) + if Wanted(s, t) then [t] else []
  }

  /** Every pending (object, node), in queue order. */
  function WantedIn(s: Store, queue: seq<Work>): seq<Target> {
    if queue == [] then []
    else
      var w := queue[|queue| - 1];
      WantedIn(s, queue[..|queue| - 1]) + WantedOf(s, w.id, w.nodes)
  }

  function Select(ts: seq<Target>, g: (string, string)): (r: seq<Target>)
    ensures forall t :: t in r <==> t in ts && t.Group() == g
  {
    if ts == [] then []
    else Select(ts[..|ts| - 1], g) + if ts[|ts| - 1].Group() == g then [ts[|ts| - 1]] else []
  }

  /** How one action is going to be called: the request field of the first node that asked for it, the values, and
      the objects and nodes waiting for the answer. */
  datatype Instruction = Instruction(field: string, values: set<Atom>, targets: seq<Target>)

  type Pending = map<(string, string), Instruction>

  function Instruct(s: Store, ts: seq<Target>): Instruction
    requires ts != []
  {
    Instruction(ts[0].node.settings.requestField, set t | t in ts :: ValueOf(s, t), ts)
  }

  predicate Grouped(s: Store, ts: seq<Target>, p: Pending) {
    && (forall t :: t in ts ==> t.Group() in p)
    && (forall g :: g in p ==> Select(ts, g) != [] && p[g] == Instruct(s, Select(ts, g)))
  }

  /** File one more target under its group: `setdefault` of the field, the values and the list, then the updates. */
  function AddPending(s: Store, p: Pending, t: Target): Pending {
    var g := t.Group();
    var known := if g in p then p[g] else Instruction(t.node.settings.requestField, {}, []);
    p[g := Instruction(known.field, known.values + {ValueOf(s, t)}, known.targets + [t])]
  }

  lemma SelectSnoc(ts: seq<Target>, t: Target, g: (string, string))
    ensures Select(ts + [t], g) == Select(ts, g) + if t.Group() == g then [t] else []
  {
    assert (ts + [t])[..|ts|] == ts;
  }

  lemma SelectNone(ts: seq<Target>, g: (string, string))
    requires forall t :: t in ts ==> t.Group() != g
    ensures Select(ts, g) == []
  {
  }

  lemma InstructSnoc(s: Store, ts: seq<Target>, t: Target)
    requires ts != []
    ensures
      var i := Instruct(s, ts);
      Instruct(s, ts + [t]) == Instruction(i.field, i.values + {ValueOf(s, t)}, ts + [t])
  {
    hide ValueOf;
    forall u ensures u in ts + [t] <==> u in ts || u == t {
    }
  }

  lemma InstructOne(s: Store, t: Target)
    ensures Instruct(s, [t]) == Instruction(t.node.settings.requestField, {ValueOf(s, t)}, [t])
  {
    hide ValueOf;
  }

  lemma AddPendingGroups(s: Store, ts: seq<Target>, p: Pending, t: Target)
    requires Grouped(s, ts, p)
    ensures Grouped(s, ts + [t], AddPending(s, p, t))
  {
    hide Instruct, ValueOf, Target.Group;
    var p' := AddPending(s, p, t);
    forall h | h in p'
      ensures Select(ts + [t], h) != [] && p'[h] == Instruct(s, Select(ts + [t], h))
    {
      SelectSnoc(ts, t, h);
      if h == t.Group() { AddPendingGrows(s, ts, p, t); } else { assert Select(ts + [t], h) == Select(ts, h); }
    }
  }

  /** The target's own group: begun with it, or grown by it. */
  lemma AddPendingGrows(s: Store, ts: seq<Target>, p: Pending, t: Target)
    requires Grouped(s, ts, p)
    ensures
      var sel := Select(ts, t.Group()) + [t];
      AddPending(s, p, t)[t.Group()] == Instruct(s, sel)
  {
    hide Select, Instruct, ValueOf, Target.Group;
    var g := t.Group();
    if g in p {
      InstructSnoc(s, Select(ts, g), t);
      InstructTargets(s, Select(ts, g));
    } else {
      SelectNone(ts, g);
      assert [] + [t] == [t];
      InstructOne(s, t);
    }
  }

  lemma InstructTargets(s: Store, ts: seq<Target>)
    requires ts != []
    ensures Instruct(s, ts).targets == ts
  {
  }

  lemma NothingGrouped(s: Store)
    ensures Grouped(s, [], map[])
  {
  }

  /** The first phase of a round: gather the pending expansions into one instruction per service and action. */
  method CollectPending(s: Store, queue: seq<Work>) returns (hashable: bool, p: Pending)
    ensures hashable ==> Grouped(s, WantedIn(s, queue), p)
    ensures hashable <==> forall t :: t in WantedIn(s, queue) ==> Hashable(s, t)
  {
    hide Wanted, Hashable, Grouped, AddPending;
    p := map[];
    NothingGrouped(s);
    var i := 0;
    while i < |queue|
      invariant i <= |queue|
      invariant Grouped(s, WantedIn(s, queue[..i]), p)
      invariant forall t :: t in WantedIn(s, queue[..i]) ==> Hashable(s, t)
    {
      var w := queue[i];
      ghost var before := WantedIn(s, queue[..i]);
      var j := 0;
      assert w.nodes[..0] == [] && before + [] == before;
      while j < |w.nodes|
        invariant j <= |w.nodes|
        invariant Grouped(s, before + WantedOf(s, w.id, w.nodes[..j]), p)
        invariant forall t :: t in before + WantedOf(s, w.id, w.nodes[..j]) ==> Hashable(s, t)
      {
        var t := Target(w.id, w.nodes[j]);
        ghost var ts := WantedOf(s, w.id, w.nodes[..j]);
        assert w.nodes[..j + 1][..j] == w.nodes[..j];
        if Wanted(s, t) {
          if !Hashable(s, t) {
            WantedMember(s, queue, i, j);
            return false, p;
          }
          AddPendingGroups(s, before + ts, p, t);
          p := AddPending(s, p, t);
          assert before + (ts + [t]) == before + ts + [t];
        } else {
          assert ts + [] == ts;
        }
        j := j + 1;
      }
      assert w.nodes[..j] == w.nodes && queue[..i + 1][..i] == queue[..i];
      i := i + 1;
    }
    assert queue[..i] == queue;
    hashable := true;
  }

  lemma WantedMember(s: Store, queue: seq<Work>, i: nat, j: nat)
    requires i < |queue| && j < |queue[i].nodes|
    ensures Wanted(s, Target(queue[i].id, queue[i].nodes[j])) ==>
              Target(queue[i].id, queue[i].nodes[j]) in WantedIn(s, queue)
  {
    if i < |queue| - 1 {
      WantedMember(s, queue[..|queue| - 1], i, j);
    } else {
      WantedOfMember(s, queue[i].id, queue[i].nodes, j);
    }
  }

  lemma WantedOfMember(s: Store, id: nat, nodes: seq<Node>, j: nat)
    requires j < |nodes|
    ensures Wanted(s, Target(id, nodes[j])) ==> Target(id, nodes[j]) in WantedOf(s, id, nodes)
  {
    if j < |nodes| - 1 { WantedOfMember(s, id, nodes[..|nodes| - 1], j); }
  }

  /** The queue asks for a pending expansion exactly when it holds the object with a node that wants it. */
  predicate InQueue(queue: seq<Work>, t: Target) {
    exists i :: 0 <= i < |queue| && queue[i].id == t.id && t.node in queue[i].nodes
  }

  lemma {:induction false} WantedInQueue(s: Store, queue: seq<Work>, t: Target)
    ensures t in WantedIn(s, queue) <==> InQueue(queue, t) && Wanted(s, t)
  {
    hide Wanted;
    if queue != [] {
      var front, w := queue[..|queue| - 1], queue[|queue| - 1];
      WantedInQueue(s, front, t);
      WantedOfNodes(s, w.id, w.nodes, t);
      assert forall i :: 0 <= i < |front| ==> queue[i] == front[i];
      if w.id == t.id && t.node in w.nodes { assert queue[|queue| - 1].id == t.id; }
    }
  }

  lemma {:induction false} WantedOfNodes(s: Store, id: nat, nodes: seq<Node>, t: Target)
    ensures t in WantedOf(s, id, nodes) <==> t.id == id && t.node in nodes && Wanted(s, t)
  {
    hide Wanted;
    if nodes != [] {
      var front := nodes[..|nodes| - 1];
      WantedOfNodes(s, id, front, t);
      assert nodes == front + [nodes[|nodes| - 1]];
    }
  }

  // ------------------------------------------------------------------ sending

  type Made = map<string, set<Atom>>

  /** The text under which requests are remembered. */
  function Key(service: string, action: string, field: string): string { service + "." + action + "." + field }

  function KeyOf(c: Call): string { Key(c.service, c.action, c.field) }

  function KeyFor(g: (string, string), i: Instruction): string { Key(g.0, g.1, i.field) }

  function MadeUnder(m: Made, key: string): set<Atom> { if key in m then m[key] else {} }

  /** Every (key, value) pair asked for so far. */
  function Pairs(m: Made): set<(string, Atom)> { set k, v | k in m && v in m[k] :: (k, v) }

  datatype Sent = Sent(call: Call, targets: seq<Target>)

  predicate SentFor(p: Pending, g: (string, string), x: Sent) {
    && g in p && x.targets == p[g].targets && x.call.field == p[g].field
    && x.call.service == g.0 && x.call.action == g.1 && x.call.values <= p[g].values
  }

  /** No other instruction is remembered under the same text. */
  predicate SoleKey(p: Pending, g: (string, string)) {
    g in p && forall h :: h in p && KeyFor(h, p[h]) == KeyFor(g, p[g]) ==> h == g
  }

  /** Each request stems from one instruction. */
  predicate FromGroups(p: Pending, sent: map<nat, Sent>, of: map<nat, (string, string)>) {
    forall n :: n in sent ==> n in of && SentFor(p, of[n], sent[n])
  }

  /** Each request holds values, none of them on record before the round. */
  predicate New(m: Made, sent: map<nat, Sent>) {
    forall n :: n in sent ==> sent[n].call.values != {} && sent[n].call.values !! MadeUnder(m, KeyOf(sent[n].call))
  }

  /** No two requests ask for the same value under the same key. */
  predicate Disjoint(sent: map<nat, Sent>) {
    forall n, k :: n in sent && k in sent && n != k && KeyOf(sent[n].call) == KeyOf(sent[k].call) ==>
      sent[n].call.values !! sent[k].call.values
  }

  predicate Asked(sent: map<nat, Sent>, key: string, v: Atom) {
    exists n :: n in sent && KeyOf(sent[n].call) == key && v in sent[n].call.values
  }

  /** What is on record after the round is what was before it and what was sent in it. */
  ghost predicate Recorded(m: Made, m': Made, sent: map<nat, Sent>) {
    forall k, v :: v in MadeUnder(m', k) <==> v in MadeUnder(m, k) || Asked(sent, k, v)
  }

  /** An instruction whose key is its own asks for exactly its values that are not on record. */
  predicate CompleteFor(p: Pending, m: Made, sent: map<nat, Sent>, number: map<(string, string), nat>,
                        g: (string, string))
    requires g in p
  {
    SoleKey(p, g) && !(p[g].values <= MadeUnder(m, KeyFor(g, p[g]))) ==>
      && g in number && number[g] in sent && SentFor(p, g, sent[number[g]])
      && sent[number[g]].call.values == p[g].values - MadeUnder(m, KeyFor(g, p[g]))
  }

  predicate Complete(p: Pending, m: Made, sent: map<nat, Sent>, number: map<(string, string), nat>) {
    forall g :: g in p ==> CompleteFor(p, m, sent, number, g)
  }

  /** No value that is waited for is off the record. */
  predicate Covered(p: Pending, m: Made) { forall g :: g in p ==> p[g].values <= MadeUnder(m, KeyFor(g, p[g])) }

  /** Which request each instruction became and the other way round. */
  datatype Numbering = Numbering(number: map<(string, string), nat>, of: map<nat, (string, string)>)

  ghost predicate SendSpec(p: Pending, m: Made, m': Made, sent: map<nat, Sent>, num: Numbering) {
    && FromGroups(p, sent, num.of) && New(m, sent) && Disjoint(sent) && Recorded(m, m', sent)
    && Complete(p, m, sent, num.number) && Covered(p, m')
  }

  /** The second phase: send one request per instruction, in any order, without the values already asked for. */
  method SendRequests(p: Pending, m: Made, next: nat)
    returns (m': Made, next': nat, sent: map<nat, Sent>, ghost num: Numbering)
    ensures SendSpec(p, m, m', sent, num)
    ensures next <= next' && forall n :: n in sent <==> next <= n < next'
  {
    hide Key, SendSpec;
    m', next', sent, num := m, next, map[], Numbering(map[], map[]);
    var left := p.Keys;
    ghost var done: Pending := map[];
    NothingSent(m);
    while left != {}
      invariant left <= p.Keys && done == map g | g in p && g !in left :: p[g]
      invariant SendSpec(done, m, m', sent, num)
      invariant next <= next' && forall n :: n in sent <==> next <= n < next'
      decreases left
    {
      var g :| g in left;
      left := left - {g};
      var i := p[g];
      var key := KeyFor(g, i);
      var values := i.values - MadeUnder(m', key);
      if values != {} {
        SendStep(done, m, m', sent, num, g, i, next');
        sent := sent[next' := Sent(Call(g.0, g.1, i.field, values), i.targets)];
        num := Numbering(num.number[g := next'], num.of[next' := g]);
        next' := next' + 1;
      } else {
        SkipStep(done, m, m', sent, num, g, i);
      }
      m' := m'[key := MadeUnder(m', key) + values];
      done := done[g := i];
    }
    assert done == p;
  }

  lemma NothingSent(m: Made)
    ensures SendSpec(map[], m, m, map[], Numbering(map[], map[]))
  {
  }

  lemma SendStep(p: Pending, m: Made, m': Made, sent: map<nat, Sent>, num: Numbering,
                 g: (string, string), i: Instruction, n: nat)
    requires SendSpec(p, m, m', sent, num) && g !in p && n !in sent
    requires !(i.values <= MadeUnder(m', KeyFor(g, i)))
    ensures
      var key := KeyFor(g, i);
      var values := i.values - MadeUnder(m', key);
      SendSpec(p[g := i], m, m'[key := MadeUnder(m', key) + values],
               sent[n := Sent(Call(g.0, g.1, i.field, values), i.targets)],
               Numbering(num.number[g := n], num.of[n := g]))
  {
    hide Key, Recorded, Complete, FromGroups, New, Disjoint, Covered;
    CoversOneMore(p, m', g, i);
    var key := KeyFor(g, i);
    var values := i.values - MadeUnder(m', key);
    var x := Sent(Call(g.0, g.1, i.field, values), i.targets);
    SendRecords(m, m', sent, key, values, n, x);
    SendCompletes(p, m, m', sent, num, g, i, n);
    SendIsNew(m, m', sent, key, values, n, x);
    SendFromGroup(p, sent, num.of, g, i, n, x);
  }

  lemma CoversOneMore(p: Pending, m: Made, g: (string, string), i: Instruction)
    requires Covered(p, m)
    ensures
      var key := KeyFor(g, i);
      Covered(p[g := i], m[key := MadeUnder(m, key) + (i.values - MadeUnder(m, key))])
  {
    hide Key;
  }

  lemma SendFromGroup(p: Pending, sent: map<nat, Sent>, of: map<nat, (string, string)>, g: (string, string),
                      i: Instruction, n: nat, x: Sent)
    requires FromGroups(p, sent, of) && g !in p && n !in sent && SentFor(map[g := i], g, x)
    ensures FromGroups(p[g := i], sent[n := x], of[n := g])
  {
  }

  lemma SendIsNew(m: Made, m': Made, sent: map<nat, Sent>, key: string, values: set<Atom>, n: nat, x: Sent)
    requires Recorded(m, m', sent) && New(m, sent) && Disjoint(sent) && n !in sent
    requires KeyOf(x.call) == key && x.call.values == values && values != {} && values !! MadeUnder(m', key)
    ensures New(m, sent[n := x]) && Disjoint(sent[n := x])
  {
    hide KeyOf, MadeUnder;
    assert forall v :: v in MadeUnder(m, key) ==> v in MadeUnder(m', key);
    forall k | k in sent && KeyOf(sent[k].call) == key ensures values !! sent[k].call.values {
      assert forall v :: v in sent[k].call.values ==> Asked(sent, key, v);
    }
  }

  lemma SendRecords(m: Made, m': Made, sent: map<nat, Sent>, key: string, values: set<Atom>, n: nat, x: Sent)
    requires Recorded(m, m', sent) && n !in sent && KeyOf(x.call) == key && x.call.values == values
    ensures Recorded(m, m'[key := MadeUnder(m', key) + values], sent[n := x])
  {
    hide KeyOf;
    var m2, sent2 := m'[key := MadeUnder(m', key) + values], sent[n := x];
    forall k, v ensures v in MadeUnder(m2, k) <==> v in MadeUnder(m, k) || Asked(sent2, k, v) {
      if Asked(sent, k, v) {
        var j :| j in sent && KeyOf(sent[j].call) == k && v in sent[j].call.values;
        assert sent2[j] == sent[j];
      }
      if k == key && v in values { assert sent2[n] == x; }
    }
  }

  lemma SendCompletes(p: Pending, m: Made, m': Made, sent: map<nat, Sent>, num: Numbering,
                      g: (string, string), i: Instruction, n: nat)
    requires FromGroups(p, sent, num.of) && Recorded(m, m', sent) && Complete(p, m, sent, num.number)
    requires g !in p && n !in sent
    ensures
      var values := i.values - MadeUnder(m', KeyFor(g, i));
      Complete(p[g := i], m, sent[n := Sent(Call(g.0, g.1, i.field, values), i.targets)], num.number[g := n])
  {
    hide Key, SoleKey, Recorded, FromGroups;
    var values := i.values - MadeUnder(m', KeyFor(g, i));
    var p2, number2 := p[g := i], num.number[g := n];
    var sent2 := sent[n := Sent(Call(g.0, g.1, i.field, values), i.targets)];
    SoleKeys(p, g, i);
    if SoleKey(p2, g) { UnsharedRecord(p, m, m', sent, num, g, i); }
    forall h | h in p2 ensures CompleteFor(p2, m, sent2, number2, h) {
      if h != g {
        assert CompleteFor(p, m, sent, num.number, h) && p2[h] == p[h];
      }
    }
  }

  lemma SoleKeys(p: Pending, g: (string, string), i: Instruction)
    requires g !in p
    ensures forall h :: h != g && SoleKey(p[g := i], h) ==> SoleKey(p, h)
    ensures SoleKey(p[g := i], g) ==> forall h :: h in p ==> KeyFor(h, p[h]) != KeyFor(g, i)
  {
    hide Key;
    var p2 := p[g := i];
    assert forall h :: h in p ==> p2[h] == p[h];
  }

  /** Nothing was sent under a key that no instruction so far has. */
  lemma UnsharedRecord(p: Pending, m: Made, m': Made, sent: map<nat, Sent>, num: Numbering,
                       g: (string, string), i: Instruction)
    requires FromGroups(p, sent, num.of) && Recorded(m, m', sent)
    requires forall h :: h in p ==> KeyFor(h, p[h]) != KeyFor(g, i)
    ensures MadeUnder(m', KeyFor(g, i)) == MadeUnder(m, KeyFor(g, i))
  {
    hide Key;
    forall n | n in sent ensures KeyOf(sent[n].call) != KeyFor(g, i) {
      assert SentFor(p, num.of[n], sent[n]);
    }
  }

  lemma SkipStep(p: Pending, m: Made, m': Made, sent: map<nat, Sent>, num: Numbering,
                 g: (string, string), i: Instruction)
    requires SendSpec(p, m, m', sent, num) && g !in p
    requires i.values - MadeUnder(m', KeyFor(g, i)) == {}
    ensures SendSpec(p[g := i], m, m'[KeyFor(g, i) := MadeUnder(m', KeyFor(g, i)) + {}], sent, num)
  {
    hide Key, Asked, SoleKey, New, Disjoint, Covered;
    CoversOneMore(p, m', g, i);
    var key := KeyFor(g, i);
    var p2, m2 := p[g := i], m'[key := MadeUnder(m', key) + {}];
    assert forall k :: MadeUnder(m2, k) == MadeUnder(m', k);
    SoleKeys(p, g, i);
    if SoleKey(p2, g) { UnsharedRecord(p, m, m', sent, num, g, i); }
    forall h | h in p2 ensures CompleteFor(p2, m, sent, num.number, h) {
      if h != g {
        assert CompleteFor(p, m, sent, num.number, h) && p2[h] == p[h];
      }
    }
  }
}
