/** Whole expansion runs: they end, they only add, they never ask twice; and a round equals single lookups. */
module ExpansionRun {
  import opened ByteText
  import opened Json
  import opened Trees
  import opened Expansion
  import opened Rounds

  // ------------------------------------------------------------------ one round

  /** What sending guarantees about the objects waiting for each reply. */
  lemma SentTargets(s: Store, queue: seq<Work>, p: Pending, m: Made, m': Made, sent: map<nat, Sent>, num: Numbering,
                    ns: set<Node>)
    requires Grouped(s, WantedIn(s, queue), p) && SendSpec(p, m, m', sent, num) && QueueIn(queue, s, ns)
    requires forall t :: t in WantedIn(s, queue) ==> Hashable(s, t)
    ensures SentIn(s, sent, ns)
    ensures forall n :: n in sent ==> sent[n].targets != []
    ensures forall n :: n in sent ==> forall t :: t in sent[n].targets ==>
              t.Group() == (sent[n].call.service, sent[n].call.action)
  {
    hide WantedIn, Wanted, Hashable, New, Disjoint, Recorded, Complete;
    var ts := WantedIn(s, queue);
    forall n, t | n in sent && t in sent[n].targets
      ensures t in ts && t.node in ns && t.Group() == (sent[n].call.service, sent[n].call.action)
    {
      assert SentFor(p, num.of[n], sent[n]);
      assert t in Select(ts, num.of[n]);
      WantedInQueue(s, queue, t);
    }
    assert forall n :: n in sent ==> SentFor(p, num.of[n], sent[n]);
  }

  function NodeKey(x: Node): string { Key(x.settings.service, x.settings.action, x.settings.requestField) }

  /** Every pair that can ever be asked for: a node's key with an identifier. */
  function Universe(ns: set<Node>, ids: set<Atom>): set<(string, Atom)> {
    set x, v | x in ns && v in ids :: (NodeKey(x), v)
  }

  lemma SentInUniverse(s: Store, queue: seq<Work>, p: Pending, m: Made, m': Made, sent: map<nat, Sent>, num: Numbering,
                       ns: set<Node>, ids: set<Atom>)
    requires Grouped(s, WantedIn(s, queue), p) && SendSpec(p, m, m', sent, num) && QueueIn(queue, s, ns)
    requires forall t :: t in WantedIn(s, queue) ==> Hashable(s, t)
    requires StoreLeavesIn(s, ids) && Pairs(m) <= Universe(ns, ids)
    ensures Pairs(m) <= Pairs(m') <= Universe(ns, ids)
    ensures sent != map[] ==> Pairs(m) != Pairs(m')
  {
    hide WantedIn, Key, Complete, Covered, Disjoint, FromGroups, Pairs, Universe;
    PairsMember(m);
    PairsMember(m');
    forall kv | kv in Pairs(m') ensures kv in Universe(ns, ids) {
      var (k, v) := kv;
      if v in MadeUnder(m, k) {
        assert (k, v) in Pairs(m);
      } else {
        assert v in MadeUnder(m', k) && Asked(sent, k, v);
        var n :| n in sent && KeyOf(sent[n].call) == k && v in sent[n].call.values;
        CallInUniverse(s, queue, p, sent, num, n, v, ns, ids);
      }
    }
    forall kv | kv in Pairs(m) ensures kv in Pairs(m') {
      var (k, v) := kv;
      assert v in MadeUnder(m, k) && v in MadeUnder(m', k);
    }
    if sent != map[] {
      var n :| n in sent;
      var v :| v in sent[n].call.values;
      assert Asked(sent, KeyOf(sent[n].call), v);
      assert (KeyOf(sent[n].call), v) in Pairs(m') && (KeyOf(sent[n].call), v) !in Pairs(m);
    }
  }

  lemma PairsMember(m: Made)
    ensures forall k, v :: (k, v) in Pairs(m) <==> v in MadeUnder(m, k)
  {
  }

  lemma CallInUniverse(s: Store, queue: seq<Work>, p: Pending, sent: map<nat, Sent>, num: Numbering, n: nat, v: Atom,
                       ns: set<Node>, ids: set<Atom>)
    requires Grouped(s, WantedIn(s, queue), p) && FromGroups(p, sent, num.of) && QueueIn(queue, s, ns)
    requires forall t :: t in WantedIn(s, queue) ==> Hashable(s, t)
    requires StoreLeavesIn(s, ids) && n in sent && v in sent[n].call.values
    ensures (KeyOf(sent[n].call), v) in Universe(ns, ids)
  {
    hide WantedIn, Key;
    var g := num.of[n];
    assert SentFor(p, g, sent[n]);
    var sel := Select(WantedIn(s, queue), g);
    var t0 := sel[0];
    WantedInQueue(s, queue, t0);
    assert t0.Group() == g && NodeKey(t0.node) == KeyOf(sent[n].call);
    var t :| t in sel && ValueOf(s, t) == v;
    assert v in ids;
  }

  // ------------------------------------------------------------------ the record of a run

  /** Content on arrival, requests by number, and the reason for each added field. */
  datatype Log = Log(arrived: Store, sent: map<nat, Sent>, why: Reasons)

  /** The field is the destination of a node that waited for the reply of a request to its service and action, and holds
      what that reply has for the object's source value. */
  predicate Explained(service: Service, log: Log, o: Fields, id: nat, f: Atom)
    requires f in o
  {
    && (id, f) in log.why
    && var w := log.why[(id, f)];
       var x := w.node.settings;
       && w.n in log.sent && Target(id, w.node) in log.sent[w.n].targets
       && log.sent[w.n].call.service == x.service && log.sent[w.n].call.action == x.action
       && Text(x.destination) == f && Text(x.source) in o && o[Text(x.source)].Leaf?
       && Lookup(service(w.n, log.sent[w.n].call), x.responseField, o[Text(x.source)].atom) == Some(o[f])
  }

  /** Expansion only adds: no field an object had on arrival is reassigned, and every added field is explained. */
  ghost predicate OnlyAdds(service: Service, s: Store, log: Log) {
    && s.Keys == log.arrived.Keys && Extends(log.arrived, s)
    && forall id, f :: id in s && f in s[id] && f !in log.arrived[id] ==> Explained(service, log, s[id], id, f)
  }

  /** Every added field is the destination of a node that waited for a reply, and holds what that reply has for the
      object's source value. */
  ghost predicate AddsHeld(service: Service, s: Store, log: Log) {
    forall id, f :: id in s && id in log.arrived && f in s[id] && f !in log.arrived[id] ==>
      exists n, x :: WaitsFor(log.sent, n, Target(id, x), f)
                     && HeldFor(s, service(n, log.sent[n].call), Target(id, x), s[id][f])
  }

  lemma AddedIsHeld(service: Service, s: Store, log: Log)
    requires OnlyAdds(service, s, log)
    ensures AddsHeld(service, s, log)
  {
    hide ReplyHolds, Lookup;
    forall id, f | id in s && id in log.arrived && f in s[id] && f !in log.arrived[id]
      ensures exists n, x :: WaitsFor(log.sent, n, Target(id, x), f)
                             && HeldFor(s, service(n, log.sent[n].call), Target(id, x), s[id][f])
    {
      assert Explained(service, log, s[id], id, f);
      var w := log.why[(id, f)];
      var x := w.node.settings;
      LookupIsHeld(service(w.n, log.sent[w.n].call), x.responseField, s[id][Text(x.source)].atom, s[id][f]);
      assert WaitsFor(log.sent, w.n, Target(id, w.node), f);
      assert HeldFor(s, service(w.n, log.sent[w.n].call), Target(id, w.node), s[id][f]);
    }
  }

  /** No pair is requested twice. */
  predicate AskedOnce(sent: map<nat, Sent>) {
    forall n, k :: n in sent && k in sent && n != k && KeyOf(sent[n].call) == KeyOf(sent[k].call) ==>
      sent[n].call.values !! sent[k].call.values
  }

  predicate OnRecord(sent: map<nat, Sent>, m: Made) {
    forall n :: n in sent ==> sent[n].call.values <= MadeUnder(m, KeyOf(sent[n].call))
  }

  lemma RoundOnlyAdds(service: Service, s0: Store, log: Log, sent: map<nat, Sent>, s: Store, arrived: Store,
                      why: Reasons,
                      ns: set<Node>)
    requires OnlyAdds(service, s0, log) && RoundInv(service, s0, log.arrived, sent, s, arrived, why)
    requires SentIn(s0, sent, ns) && sent.Keys !! log.sent.Keys
    requires forall n :: n in sent ==> forall t :: t in sent[n].targets ==>
               t.Group() == (sent[n].call.service, sent[n].call.action)
    ensures OnlyAdds(service, s, Log(arrived, log.sent + sent, log.why + why))
  {
    hide Lookup, Explained, Justified, SentIn, RoundInv, Hashable, Target.Group;
    var log' := Log(arrived, log.sent + sent, log.why + why);
    ArrivedStay(service, s0, log.arrived, sent, s, arrived, why);
    forall id, f | id in s && f in s[id] && f !in arrived[id] ensures Explained(service, log', s[id], id, f) {
      FieldIsOldOrJustified(service, s0, log.arrived, sent, s, arrived, why, id, f);
      if f in s0[id] {
        ExplainedStays(service, log, log', why, s0[id], s[id], id, f);
      } else {
        JustifiedExplains(service, s0, sent, s, log', why, id, f, ns);
      }
    }
  }

  lemma FieldIsOldOrJustified(service: Service, s0: Store, arrived0: Store, sent: map<nat, Sent>, s: Store,
                              arrived: Store, why: Reasons, id: nat, f: Atom)
    requires RoundInv(service, s0, arrived0, sent, s, arrived, why) && Extends(arrived0, s0)
    requires id in s && f in s[id] && id in arrived && f !in arrived[id]
    ensures id in s0 && id in arrived0 && f !in arrived0[id] && Extends(s0, s)
    ensures if f in s0[id] then (id, f) !in why
            else (id, f) in why && Justified(service, s0, sent, why[(id, f)], id, f, s[id][f])
  {
    hide Justified;
  }

  lemma ExplainedStays(service: Service, log: Log, log': Log, why: Reasons, o: Fields, o': Fields, id: nat, f: Atom)
    requires f in o && Explained(service, log, o, id, f)
    requires forall k :: k in o ==> k in o' && o'[k] == o[k]
    requires (id, f) !in why && log'.why == log.why + why
    requires forall n :: n in log.sent ==> n in log'.sent && log'.sent[n] == log.sent[n]
    ensures Explained(service, log', o', id, f)
  {
  }

  lemma JustifiedExplains(service: Service, s0: Store, sent: map<nat, Sent>, s: Store, log': Log, why: Reasons,
                          id: nat, f: Atom, ns: set<Node>)
    requires id in s0 && Extends(s0, s) && f in s[id] && SentIn(s0, sent, ns)
    requires (id, f) in why && Justified(service, s0, sent, why[(id, f)], id, f, s[id][f])
    requires (id, f) in log'.why && log'.why[(id, f)] == why[(id, f)]
    requires forall n :: n in sent ==> n in log'.sent && log'.sent[n] == sent[n]
    requires forall n :: n in sent ==> forall t :: t in sent[n].targets ==>
               t.Group() == (sent[n].call.service, sent[n].call.action)
    ensures Explained(service, log', s[id], id, f)
  {
    hide Hashable, Extends;
    var w := why[(id, f)];
    var t := Target(id, w.node);
    assert t in sent[w.n].targets && Hashable(s0, t);
    SourceStays(s0, s, t);
  }

  lemma RoundAsksOnce(m: Made, m': Made, sent: map<nat, Sent>, before: map<nat, Sent>)
    requires AskedOnce(before) && OnRecord(before, m) && sent.Keys !! before.Keys
    requires New(m, sent) && Disjoint(sent) && Recorded(m, m', sent)
    ensures AskedOnce(before + sent) && OnRecord(before + sent, m')
  {
    hide KeyOf, MadeUnder, Asked;
    forall n, v | n in sent && v in sent[n].call.values ensures v in MadeUnder(m', KeyOf(sent[n].call)) {
      CallAsks(sent, n, v);
    }
    assert forall k :: MadeUnder(m, k) <= MadeUnder(m', k);
  }

  lemma CallAsks(sent: map<nat, Sent>, n: nat, v: Atom)
    requires n in sent && v in sent[n].call.values
    ensures Asked(sent, KeyOf(sent[n].call), v)
  {
  }

  lemma SmallerRemainder(u: set<(string, Atom)>, a: set<(string, Atom)>, b: set<(string, Atom)>)
    requires a <= b <= u && a != b
    ensures |u - b| < |u - a|
  {
    var x :| x in b && x !in a;
    assert x in u - a && u - b <= u - a - {x};
    Subset(u - b, u - a - {x});
  }

  lemma {:induction false} Subset(a: set<(string, Atom)>, b: set<(string, Atom)>)
    requires a <= b
    ensures |a| <= |b|
  {
    if a != {} {
      var x :| x in a;
      Subset(a - {x}, b - {x});
    }
  }

  // ------------------------------------------------------------------ the run

  /** Some finite set of identifiers covers what every reply and the initial objects contain. */
  ghost predicate FiniteWorld(service: Service, s: Store, ids: set<Atom>) {
    StoreLeavesIn(s, ids) && forall n, c :: ReplyLeavesIn(service(n, c), ids)
  }

  /** How many pairs can still be asked for. */
  ghost function Remaining(ns: set<Node>, ids: set<Atom>, m: Made): nat { |Universe(ns, ids) - Pairs(m)| }

  /** What holds between rounds. */
  ghost predicate Between(service: Service, s: Store, queue: seq<Work>, m: Made, next: nat, log: Log,
                          ids: set<Atom>, ns: set<Node>) {
    && StoreLeavesIn(s, ids) && QueueIn(queue, s, ns) && OnlyAdds(service, s, log)
    && AskedOnce(log.sent) && OnRecord(log.sent, m) && (forall n :: n in log.sent ==> n < next)
    && Pairs(m) <= Universe(ns, ids)
  }

  lemma SentIsReady(service: Service, s: Store, queue: seq<Work>, p: Pending, m: Made, m': Made, next: nat,
                    sent: map<nat, Sent>, num: Numbering, log: Log, ids: set<Atom>, ns: set<Node>)
    requires Between(service, s, queue, m, next, log, ids, ns) && (forall n :: n in sent ==> n >= next)
    requires Grouped(s, WantedIn(s, queue), p) && SendSpec(p, m, m', sent, num)
    requires forall t :: t in WantedIn(s, queue) ==> Hashable(s, t)
    ensures SentIn(s, sent, ns) && s.Keys == log.arrived.Keys && StoreLeavesIn(s, ids) && sent.Keys !! log.sent.Keys
    ensures forall n :: n in sent ==> sent[n].targets != []
    ensures forall n :: n in sent ==> forall t :: t in sent[n].targets ==>
              t.Group() == (sent[n].call.service, sent[n].call.action)
    ensures AskedOnce(log.sent + sent) && OnRecord(log.sent + sent, m')
    ensures Pairs(m') <= Universe(ns, ids)
    ensures if sent == map[] then Remaining(ns, ids, m') == Remaining(ns, ids, m)
            else Remaining(ns, ids, m') < Remaining(ns, ids, m)
  {
    hide Grouped, WantedIn, Hashable, FromGroups, New, Disjoint, Recorded, Complete, Covered, AskedOnce, OnRecord,
         Pairs,
         Universe, SentIn, StoreLeavesIn, QueueIn, Target.Group;
    SentTargets(s, queue, p, m, m', sent, num, ns);
    SentInUniverse(s, queue, p, m, m', sent, num, ns, ids);
    RoundAsksOnce(m, m', sent, log.sent);
    if sent != map[] { SmallerRemainder(Universe(ns, ids), Pairs(m), Pairs(m')); } else { SamePairs(m, m', sent); }
  }

  lemma RoundKeepsBetween(service: Service, s0: Store, queue0: seq<Work>, m: Made, next: nat, log: Log,
                          sent: map<nat, Sent>, s: Store, arrived: Store, queue: seq<Work>, why: Reasons,
                          m': Made, next': nat, ids: set<Atom>, ns: set<Node>)
    requires Between(service, s0, queue0, m, next, log, ids, ns) && SentIn(s0, sent, ns)
    requires RoundInv(service, s0, log.arrived, sent, s, arrived, why) && StoreLeavesIn(s, ids) && QueueIn(queue, s, ns)
    requires next <= next' && (forall n :: n in sent <==> next <= n < next')
    requires forall n :: n in sent ==> forall t :: t in sent[n].targets ==>
               t.Group() == (sent[n].call.service, sent[n].call.action)
    requires AskedOnce(log.sent + sent) && OnRecord(log.sent + sent, m')
    requires Pairs(m') <= Universe(ns, ids)
    ensures
      var log' := Log(arrived, log.sent + sent, log.why + why);
      Between(service, s, queue, m', next', log', ids, ns)
  {
    hide OnlyAdds, RoundInv, AskedOnce, OnRecord, StoreLeavesIn, QueueIn, SentIn, Pairs, Universe, Target.Group,
         Extends;
    RoundOnlyAdds(service, s0, log, sent, s, arrived, why, ns);
  }

  /** What is left between two rounds: the objects, what waits for expansion, and what was asked for. */
  datatype State = State(store: Store, queue: seq<Work>, made: Made)

  /** One round, with what it gathered and sent and the order its replies came in. */
  datatype Course = Course(pending: Pending, sent: map<nat, Sent>, num: Numbering, order: seq<nat>)

  predicate AllHashable(s: Store, ts: seq<Target>) { forall t :: t in ts ==> Hashable(s, t) }

  /** What the round may come to. */
  ghost predicate Follows(service: Service, trees: seq<Tree>, a: State, c: Course, outcome: Outcome, b: State) {
    var ts := WantedIn(a.store, a.queue);
    if !AllHashable(a.store, ts) then outcome.Unhashable? && b == a && c.sent == map[]
    else
      && Grouped(a.store, ts, c.pending) && SendSpec(c.pending, a.made, b.made, c.sent, c.num)
      && Received(service, trees, c.sent, c.order, outcome, b.queue)
      && Extends(a.store, b.store) && AddedOnlyAnswers(service, a.store, c.sent, b.store)
      && Brought(service, c.sent, a.store, b.store) && (outcome.Done? ==> RoundDone(service, a.store, c.sent, b.store))
  }

  /** What was on record as it arrived stays so, and what is new is on record as a reply to one of the requests holds
      it. */
  ghost predicate ArrivesBy(service: Service, sent: map<nat, Sent>, arrived: Store, arrived': Store) {
    && (forall id :: id in arrived ==> id in arrived' && arrived'[id] == arrived[id])
    && (forall id :: id in arrived' && id !in arrived ==> BroughtBy(service, sent, id, arrived'[id]))
  }

  lemma RoundArrivals(service: Service, s0: Store, arrived0: Store, sent: map<nat, Sent>, s: Store, arrived: Store,
                      why: Reasons)
    requires RoundInv(service, s0, arrived0, sent, s, arrived, why) && Brought(service, sent, s0, s)
    ensures ArrivesBy(service, sent, arrived0, arrived)
  {
    hide Justified, BroughtBy;
  }

  lemma ArrivesByMore(service: Service, sent: map<nat, Sent>, more: map<nat, Sent>, a: Store, b: Store, c: Store)
    requires ArrivesBy(service, sent, a, b) && ArrivesBy(service, more, b, c) && more.Keys !! sent.Keys
    ensures ArrivesBy(service, sent + more, a, c)
  {
    hide BroughtBy;
    forall id | id in c && id !in a ensures BroughtBy(service, sent + more, id, c[id]) {
      BroughtByMore(service, if id in b then sent else more, sent + more, id, c[id]);
    }
  }

  lemma BroughtByMore(service: Service, sent: map<nat, Sent>, more: map<nat, Sent>, id: nat, content: Fields)
    requires BroughtBy(service, sent, id, content) && forall n :: n in sent ==> n in more && more[n] == sent[n]
    ensures BroughtBy(service, more, id, content)
  {
    hide FoundIn, FieldsOf;
    var n, o :| n in sent && FoundIn(service(n, sent[n].call), o) && o.Dict? && o.id == id && FieldsOf(o) == content;
    assert FoundIn(service(n, more[n].call), o);
  }

  /** One round, up to the exception it may end in. */
  method Round(service: Service, trees: seq<Tree>, s: Store, queue: seq<Work>, m: Made, next: nat, ghost log: Log,
               ghost ids: set<Atom>, ghost ns: set<Node>)
    returns (outcome: Outcome, s': Store, queue': seq<Work>, m': Made, next': nat, ghost log': Log, ghost c: Course)
    requires FiniteWorld(service, s, ids) && Closed(ns) && TreesIn(trees, ns)
    requires Between(service, s, queue, m, next, log, ids, ns)
    ensures Between(service, s', queue', m', next', log', ids, ns)
    ensures Remaining(ns, ids, m') < Remaining(ns, ids, m)
         || (Remaining(ns, ids, m') == Remaining(ns, ids, m) && (outcome.Done? ==> queue' == []))
    ensures Follows(service, trees, State(s, queue, m), c, outcome, State(s', queue', m'))
    ensures log'.sent == log.sent + c.sent && c.sent.Keys !! log.sent.Keys
    ensures ArrivesBy(service, c.sent, log.arrived, log'.arrived)
  {
    hide Between, Closed, TreesIn, Grouped, WantedIn, Hashable, SendSpec, SentIn, RoundInv, RoundDone, StoreLeavesIn,
         QueueIn, Remaining, Extends, AddedOnlyAnswers, Received, Brought, ArrivesBy;
    outcome, s', queue', m', next', log' := Unhashable, s, queue, m, next, log;
    c := Course(map[], map[], Numbering(map[], map[]), []);
    NothingArrives(service, log.arrived);
    var hashable, p := CollectPending(s, queue);
    if !hashable { return; }
    var sent;
    ghost var num, arrived', why, order;
    m', next', sent, num := SendRequests(p, m, next);
    SentIsReady(service, s, queue, p, m, m', next, sent, num, log, ids, ns);
    outcome, s', arrived', queue', why, order := ReceiveReplies(service, trees, s, log.arrived, sent, ids, ns);
    RoundKeepsBetween(service, s, queue, m, next, log, sent, s', arrived', queue', why, m', next', ids, ns);
    RoundAddsAnswers(service, s, log.arrived, sent, s', arrived', why);
    RoundArrivals(service, s, log.arrived, sent, s', arrived', why);
    log' := Log(arrived', log.sent + sent, log.why + why);
    c := Course(p, sent, num, order);
  }

  lemma NothingArrives(service: Service, arrived: Store)
    ensures ArrivesBy(service, map[], arrived, arrived)
  {
  }

  lemma ExtendsItself(s: Store)
    ensures Extends(s, s)
  {
  }

  /** Every field a round adds is some waiting node's answer. */
  ghost predicate AddedOnlyAnswers(service: Service, s0: Store, sent: map<nat, Sent>, s: Store) {
    forall id, f :: id in s0 && id in s && f in s[id] && f !in s0[id] ==>
      exists n, x :: Justified(service, s0, sent, Why(n, x), id, f, s[id][f])
  }

  lemma RoundAddsAnswers(service: Service, s0: Store, arrived0: Store, sent: map<nat, Sent>, s: Store, arrived: Store,
                         why: Reasons)
    requires RoundInv(service, s0, arrived0, sent, s, arrived, why)
    ensures AddedOnlyAnswers(service, s0, sent, s) && Extends(s0, s)
  {
    hide Justified;
    forall id, f | id in s0 && id in s && f in s[id] && f !in s0[id]
      ensures exists n, x :: Justified(service, s0, sent, Why(n, x), id, f, s[id][f])
    {
      var w := why[(id, f)];
      assert Justified(service, s0, sent, Why(w.n, w.node), id, f, s[id][f]);
    }
  }

  /** Completed rounds, each starting where the one before it stopped, with something left to expand. */
  ghost predicate Chain(service: Service, trees: seq<Tree>, states: seq<State>, courses: seq<Course>) {
    && |states| - 1 <= |courses|
    && forall k :: 0 <= k < |states| - 1 ==>
         states[k].queue != [] && Follows(service, trees, states[k], courses[k], Done, states[k + 1])
  }

  /** A whole run: completed rounds until nothing is left to expand, or until a round that raises. */
  ghost predicate IsRun(service: Service, trees: seq<Tree>, states: seq<State>, courses: seq<Course>, outcome: Outcome,
                        last: State) {
    && states != [] && Chain(service, trees, states, courses)
    && var n := |states| - 1;
       if states[n].queue == [] then |courses| == n && outcome.Done? && last == states[n]
       else |courses| == n + 1 && !outcome.Done? && Follows(service, trees, states[n], courses[n], outcome, last)
  }

  function AllSent(courses: seq<Course>): map<nat, Sent> {
    if courses == [] then map[] else AllSent(courses[..|courses| - 1]) + courses[|courses| - 1].sent
  }

  /** No request number is used in two rounds. */
  predicate OwnNumbers(courses: seq<Course>) {
    forall i, j :: 0 <= i < j < |courses| ==> courses[i].sent.Keys !! courses[j].sent.Keys
  }

  /** The log is that of the run: all requests of its rounds; the objects it started with, as they were; and every other
      object as a reply to one of the requests holds it. */
  ghost predicate LogsRun(service: Service, s0: Store, courses: seq<Course>, log: Log) {
    log.sent == AllSent(courses) && OwnNumbers(courses) && ArrivesBy(service, log.sent, s0, log.arrived)
  }

  lemma {:induction false} AllSentHas(courses: seq<Course>, i: nat)
    requires i < |courses|
    ensures courses[i].sent.Keys <= AllSent(courses).Keys
  {
    if i < |courses| - 1 { AllSentHas(courses[..|courses| - 1], i); }
  }

  lemma LogsOneMore(service: Service, s0: Store, courses: seq<Course>, c: Course, log: Log, log': Log)
    requires LogsRun(service, s0, courses, log)
    requires log'.sent == log.sent + c.sent && c.sent.Keys !! log.sent.Keys
    requires ArrivesBy(service, c.sent, log.arrived, log'.arrived)
    ensures LogsRun(service, s0, courses + [c], log')
  {
    hide ArrivesBy;
    ArrivesByMore(service, log.sent, c.sent, s0, log.arrived, log'.arrived);
    assert (courses + [c])[..|courses|] == courses;
    forall i | 0 <= i < |courses| ensures courses[i].sent.Keys !! c.sent.Keys { AllSentHas(courses, i); }
  }

  lemma RunOnlyExtends(service: Service, s0: Store, s: Store, courses: seq<Course>, log: Log)
    requires LogsRun(service, s0, courses, log) && OnlyAdds(service, s, log)
    ensures Extends(s0, s)
  {
    hide Explained, BroughtBy;
  }

  /** `_expand_objects`. The loop ends because the pairs not yet asked for run out: each round asks for a new one or
      leaves nothing to expand. */
  method ExpandObjects(service: Service, trees: seq<Tree>, s0: Store, queue0: seq<Work>, first: nat,
                       ghost ids: set<Atom>, ghost ns: set<Node>)
    returns (outcome: Outcome, s: Store, ghost log: Log, ghost states: seq<State>, ghost courses: seq<Course>,
             ghost last: State)
    requires FiniteWorld(service, s0, ids) && Closed(ns) && TreesIn(trees, ns) && QueueIn(queue0, s0, ns)
    ensures IsRun(service, trees, states, courses, outcome, last)
    ensures states[0] == State(s0, queue0, map[]) && last.store == s
    ensures LogsRun(service, s0, courses, log) && OnlyAdds(service, s, log) && Extends(s0, s) && AskedOnce(log.sent)
    ensures AddsHeld(service, s, log)
  {
    hide OnlyAdds, QueueIn, TreesIn, Closed, Universe, StoreLeavesIn, AskedOnce, OnRecord, Pairs, Extends, Remaining,
         ReplyLeavesIn, Follows, LogsRun, AddsHeld;
    s := s0;
    var queue, m: Made, next := queue0, map[], first;
    log, last := Log(s0, map[], map[]), State(s0, queue0, map[]);
    states, courses := [last], [];
    NothingYet(service, s0, ns, ids);
    while queue != []
      invariant Between(service, s, queue, m, next, log, ids, ns) && LogsRun(service, s0, courses, log)
      invariant last == State(s, queue, m) && |states| == |courses| + 1 && states[|states| - 1] == last
      invariant states[0] == State(s0, queue0, map[]) && Chain(service, trees, states, courses)
      decreases Remaining(ns, ids, m), |queue|
    {
      ghost var before := log;
      ghost var c;
      outcome, s, queue, m, next, log, c := Round(service, trees, s, queue, m, next, log, ids, ns);
      LogsOneMore(service, s0, courses, c, before, log);
      last, courses := State(s, queue, m), courses + [c];
      if !outcome.Done? {
        RunOnlyExtends(service, s0, s, courses, log);
        AddedIsHeld(service, s, log);
        return;
      }
      states := states + [last];
    }
    outcome := Done;
    RunOnlyExtends(service, s0, s, courses, log);
    AddedIsHeld(service, s, log);
  }

  lemma ExtendsTransitive(a: Store, b: Store, c: Store)
    requires Extends(a, b) && Extends(b, c)
    ensures Extends(a, c)
  {
  }

  lemma NothingYet(service: Service, s: Store, ns: set<Node>, ids: set<Atom>)
    ensures OnlyAdds(service, s, Log(s, map[], map[])) && AskedOnce(map[]) && OnRecord(map[], map[])
    ensures Pairs(map[]) <= Universe(ns, ids) && LogsRun(service, s, [], Log(s, map[], map[]))
  {
  }

  lemma SamePairs(m: Made, m': Made, sent: map<nat, Sent>)
    requires Recorded(m, m', sent) && sent == map[]
    ensures Pairs(m') == Pairs(m)
  {
    hide Pairs;
    PairsMember(m);
    PairsMember(m');
    forall kv ensures kv in Pairs(m') <==> kv in Pairs(m) {
      var (k, v) := kv;
      assert !Asked(sent, k, v);
    }
  }

  lemma ArrivedStay(service: Service, s0: Store, arrived0: Store, sent: map<nat, Sent>, s: Store, arrived: Store,
                    why: Reasons)
    requires RoundInv(service, s0, arrived0, sent, s, arrived, why) && Extends(arrived0, s0)
    ensures Extends(arrived0, arrived) && Extends(arrived, s) && s.Keys == arrived.Keys
  {
    hide Justified;
  }

  /** The candidates for expansion: every tree's objects in every body. */
  function CandidatesOf(tree: Tree, bodies: seq<Json>): seq<Work> {
    if bodies == [] then []
    else
      CandidatesOf(tree, bodies[..|bodies| - 1])
      + WorkFor(FindObjects(Some(tree.nodeType), bodies[|bodies| - 1]), tree.kids)
  }

  function Candidates(trees: seq<Tree>, bodies: seq<Json>): seq<Work> {
    if trees == [] then []
    else Candidates(trees[..|trees| - 1], bodies) + CandidatesOf(trees[|trees| - 1], bodies)
  }

  function HeldBy(s: Store, tree: Tree, bodies: seq<Json>): Store {
    if bodies == [] then s
    else
      EnterAll(HeldBy(s, tree, bodies[..|bodies| - 1]), FindObjects(Some(tree.nodeType), bodies[|bodies| - 1]))
  }

  /** The objects those are, as the bodies hold them. */
  function Held(trees: seq<Tree>, bodies: seq<Json>): Store {
    if trees == [] then map[] else HeldBy(Held(trees[..|trees| - 1], bodies), trees[|trees| - 1], bodies)
  }

  /** `_extract_candidate_objects` and the run: expand what the action bodies hold. */
  method PerformExpansion(service: Service, trees: seq<Tree>, bodies: seq<Json>, first: nat, ghost ids: set<Atom>)
    returns (outcome: Outcome, s: Store, ghost log: Log, ghost states: seq<State>, ghost courses: seq<Course>,
             ghost last: State)
    requires FiniteWorld(service, map[], ids) && AllLeavesIn(bodies, ids)
    ensures IsRun(service, trees, states, courses, outcome, last)
    ensures states[0] == State(Held(trees, bodies), Candidates(trees, bodies), map[]) && last.store == s
    ensures LogsRun(service, Held(trees, bodies), courses, log) && OnlyAdds(service, s, log) && AskedOnce(log.sent)
    ensures AddsHeld(service, s, log)
  {
    hide LeavesIn, FindObjects, TreesIn, OnlyAdds, AskedOnce, ReplyLeavesIn, Closed, IsRun, EnterAll, Enter,
         LogsRun, AddsHeld;
    ghost var ns := TreesNodes(trees);
    TreesNodesClose(trees);
    s := map[];
    ghost var arrived: Store := map[];
    var queue: seq<Work> := [];
    for i := 0 to |trees|
      invariant StoreLeavesIn(s, ids) && QueueIn(queue, s, ns)
      invariant s == Held(trees[..i], bodies) && queue == Candidates(trees[..i], bodies)
    {
      assert trees[..i + 1][..i] == trees[..i];
      for j := 0 to |bodies|
        invariant StoreLeavesIn(s, ids) && QueueIn(queue, s, ns)
        invariant s == HeldBy(Held(trees[..i], bodies), trees[i], bodies[..j])
        invariant queue == Candidates(trees[..i], bodies) + CandidatesOf(trees[i], bodies[..j])
      {
        assert bodies[j] in bodies && bodies[..j + 1][..j] == bodies[..j];
        TreeNodesIn(trees, i, ns);
        s, arrived, queue :=
          ExtendObjects(s, arrived, queue, Some(trees[i].nodeType), trees[i].kids, bodies[j], ids, ns);
      }
      assert bodies[..|bodies|] == bodies;
    }
    assert trees[..|trees|] == trees;
    outcome, s, log, states, courses, last :=
      ExpandObjects(service, trees, s, queue, first, ids, ns);
  }

  function TreesNodes(trees: seq<Tree>): set<Node> {
    if trees == [] then {} else NodeSet(trees[0].kids) + TreesNodes(trees[1..])
  }

  lemma {:induction false} TreesNodesClose(trees: seq<Tree>)
    ensures Closed(TreesNodes(trees)) && TreesIn(trees, TreesNodes(trees))
  {
    if trees != [] {
      NodeSetCloses(trees[0].kids);
      TreesNodesClose(trees[1..]);
      assert forall k :: 1 <= k < |trees| ==> trees[k] == trees[1..][k - 1];
    }
  }

  lemma TreeNodesIn(trees: seq<Tree>, i: nat, ns: set<Node>)
    requires TreesIn(trees, ns) && i < |trees|
    ensures NodesIn(trees[i].kids, ns)
  {
  }
}
