/** What the replies of a round bring, told from the replies alone: the objects to expand next, and the exception. */
module Discovery {
  import opened ByteText
  import opened Json
  import opened Trees
  import opened Expansion
  import opened Rounds

  // ------------------------------------------------------------------ objects to expand next

  /** An object of the type lies in the body, inside no other object of the type. */
  ghost predicate LiesIn(t: Option<string>, body: Json, id: nat) {
    exists p :: Outermost(t, body, p) && At(body, p).value.id == id
  }

  lemma FoundLiesIn(t: Option<string>, body: Json, id: nat)
    ensures (exists o :: o in FindObjects(t, body) && o.id == id) <==> LiesIn(t, body, id)
  {
    hide FindObjects, FindPaths, Outermost;
    FindObjectsExact(t, body);
    var ps, os := FindPaths(t, body), FindObjects(t, body);
    if o :| o in os && o.id == id {
      var k :| 0 <= k < |os| && os[k] == o;
      assert ps[k] in ps && At(body, ps[k]) == Some(o);
    }
    if LiesIn(t, body, id) {
      var p :| Outermost(t, body, p) && At(body, p).value.id == id;
      var k :| 0 <= k < |ps| && ps[k] == p;
      assert os[k] in os && At(body, p) == Some(os[k]);
    }
  }

  lemma WorkForHas(t: Option<string>, body: Json, nodes: seq<Node>, w: Work)
    ensures w in WorkFor(FindObjects(t, body), nodes) <==> w.nodes == nodes && LiesIn(t, body, w.id)
  {
    hide FindObjects, LiesIn;
    FoundLiesIn(t, body, w.id);
    var os := FindObjects(t, body);
    var ws := WorkFor(os, nodes);
    if w.nodes == nodes && exists o :: o in os && o.id == w.id {
      var o :| o in os && o.id == w.id;
      var k :| 0 <= k < |os| && os[k] == o;
      assert ws[k] == w;
    }
  }

  /** The work comes of the reply: its object is one of a waiting node's type, for the children of that node, or one of
      a requested type, unless the action failed. */
  ghost predicate Finds(trees: seq<Tree>, r: Reply, ts: seq<Target>, w: Work) {
    && r.errors == [] && r.actions != [] && Truthy(r.actions[0].body)
    && ((exists t :: t in ts && t.node.kids != [] && w.nodes == t.node.kids
                     && LiesIn(t.node.settings.nodeType, r.actions[0].body, w.id))
        || (r.actions[0].errors == []
            && exists tree :: tree in trees && w.nodes == tree.kids
                              && LiesIn(Some(tree.nodeType), r.actions[0].body, w.id)))
  }

  lemma {:induction false} NestedFinds(r: Reply, ts: seq<Target>, w: Work)
    ensures w in Nested(r, ts)
       <==> exists t :: t in ts && HasBody(r) && t.node.kids != [] && w.nodes == t.node.kids
                        && LiesIn(t.node.settings.nodeType, r.actions[0].body, w.id)
  {
    hide FindObjects, LiesIn, Truthy;
    if ts != [] {
      var t := ts[|ts| - 1];
      assert ts == ts[..|ts| - 1] + [t];
      NestedFinds(r, ts[..|ts| - 1], w);
      if HasBody(r) { WorkForHas(t.node.settings.nodeType, r.actions[0].body, t.node.kids, w); }
    }
  }

  lemma {:induction false} GlobalFinds(trees: seq<Tree>, body: Json, w: Work)
    ensures w in Global(trees, body)
       <==> exists tree :: tree in trees && w.nodes == tree.kids && LiesIn(Some(tree.nodeType), body, w.id)
  {
    hide FindObjects, LiesIn;
    if trees != [] {
      var tree := trees[|trees| - 1];
      assert trees == trees[..|trees| - 1] + [tree];
      GlobalFinds(trees[..|trees| - 1], body, w);
      WorkForHas(Some(tree.nodeType), body, tree.kids, w);
    }
  }

  /** What is queued for the next round is exactly what the replies' bodies hold. */
  lemma {:induction false} QueueIsFound(trees: seq<Tree>, service: Service, sent: map<nat, Sent>,
                                        order: seq<nat>, w: Work)
    requires forall n :: n in order ==> n in sent
    ensures w in DiscoveredIn(trees, service, sent, order)
       <==> exists n :: n in order && Finds(trees, service(n, sent[n].call), sent[n].targets, w)
  {
    hide Nested, Global, LiesIn, Truthy;
    if order != [] {
      var n := order[|order| - 1];
      assert order == order[..|order| - 1] + [n];
      QueueIsFound(trees, service, sent, order[..|order| - 1], w);
      var r := service(n, sent[n].call);
      NestedFinds(r, sent[n].targets, w);
      if HasBody(r) { GlobalFinds(trees, r.actions[0].body, w); }
    }
  }

  // ------------------------------------------------------------------ the exception

  /** The client cannot make sense of the reply: no action, or no dict under the response field of a body. */
  lemma BrokenMeans(r: Reply, t: Target)
    ensures
      Broken(r, t)
      <==> r.errors == []
           && (r.actions == []
               || (Truthy(r.actions[0].body)
                   && forall d :: Holds(r.actions[0].body, Text(t.node.settings.responseField), d) ==> !d.Dict?))
  {
    hide Holds, Get;
    if r.actions != [] && r.actions[0].body.Dict? {
      var body, field := r.actions[0].body, Text(t.node.settings.responseField);
      forall d ensures Get(body, field) == Some(d) <==> Holds(body, field, d) { GetIsHeld(body, field, d); }
    } else if r.actions != [] {
      HoldsInDict(r.actions[0].body, Text(t.node.settings.responseField));
    }
  }

  /** A node that raises errors waits for a reply with this failed action. */
  predicate RaisesAction(r: Reply, t: Target, a: ActionReply) {
    t.node.settings.raises && r.errors == [] && r.actions != [] && r.actions[0] == a && a.errors != []
  }

  predicate RaisesError(r: Reply, t: Target, e: string) { t.node.settings.raises && e in r.errors }

  lemma RaisedOne(r: Reply, t: Target, a: ActionReply, e: string)
    ensures a in Raised(r, t).action <==> RaisesAction(r, t, a)
    ensures e in Raised(r, t).job <==> RaisesError(r, t, e)
  {
  }

  lemma {:induction false} RaisedByMeans(r: Reply, ts: seq<Target>, a: ActionReply, e: string)
    ensures a in RaisedBy(r, ts).action <==> exists t :: t in ts && RaisesAction(r, t, a)
    ensures e in RaisedBy(r, ts).job <==> exists t :: t in ts && RaisesError(r, t, e)
  {
    hide RaisesAction, RaisesError;
    if ts != [] {
      var front, t := ts[..|ts| - 1], ts[|ts| - 1];
      assert ts == front + [t];
      RaisedByMeans(r, front, a, e);
      RaisedOne(r, t, a, e);
      assert forall u :: u in ts <==> u in front || u == t;
    }
  }

  /** What the exception of a round carries: the failed actions, and only if there are none the job errors, that came to
      nodes which raise errors. */
  lemma {:induction false} RaisedMeans(service: Service, sent: map<nat, Sent>, order: seq<nat>,
                                       a: ActionReply, e: string)
    requires forall n :: n in order ==> n in sent
    ensures a in RaisedIn(service, sent, order).action
       <==> exists n, t :: n in order && t in sent[n].targets && RaisesAction(service(n, sent[n].call), t, a)
    ensures e in RaisedIn(service, sent, order).job
       <==> exists n, t :: n in order && t in sent[n].targets && RaisesError(service(n, sent[n].call), t, e)
  {
    hide RaisedBy, RaisesAction, RaisesError;
    if order != [] {
      var n := order[|order| - 1];
      assert order == order[..|order| - 1] + [n];
      RaisedMeans(service, sent, order[..|order| - 1], a, e);
      RaisedByMeans(service(n, sent[n].call), sent[n].targets, a, e);
    }
  }

  /** Failed actions come before job errors, and each exception holds just what was raised. */
  lemma ExceptionMeans(service: Service, trees: seq<Tree>, sent: map<nat, Sent>, order: seq<nat>, outcome: Outcome,
                       queue: seq<Work>)
    requires Received(service, trees, sent, order, outcome, queue) && AllSound(service, sent)
    ensures !outcome.Malformed? && !outcome.Unhashable?
    ensures outcome.ActionErrors? ==>
              outcome.replies != [] && forall a :: a in outcome.replies <==>
                exists n, t :: n in sent && t in sent[n].targets && RaisesAction(service(n, sent[n].call), t, a)
    ensures outcome.JobErrors? ==>
              && outcome.errors != []
              && (forall e :: e in outcome.errors <==>
                    exists n, t :: n in sent && t in sent[n].targets && RaisesError(service(n, sent[n].call), t, e))
              && forall n, t, a :: n in sent && t in sent[n].targets ==> !RaisesAction(service(n, sent[n].call), t, a)
  {
    hide RaisedIn, DiscoveredIn, RaisesAction, RaisesError, AllSound;
    var raised := RaisedIn(service, sent, order);
    forall a
      ensures a in raised.action
         <==> exists n, t :: n in sent && t in sent[n].targets && RaisesAction(service(n, sent[n].call), t, a)
    {
      RaisedMeans(service, sent, order, a, "");
    }
    forall e
      ensures e in raised.job
         <==> exists n, t :: n in sent && t in sent[n].targets && RaisesError(service(n, sent[n].call), t, e)
    {
      RaisedMeans(service, sent, order, ActionReply([], Leaf(Nil)), e);
    }
    if outcome.JobErrors? {
      forall n, t, a | n in sent && t in sent[n].targets ensures !RaisesAction(service(n, sent[n].call), t, a) {
        assert a !in raised.action;
      }
    }
  }

  /** The round ends well exactly when every reply makes sense and no node that raises errors got one. */
  lemma DoneMeans(service: Service, trees: seq<Tree>, sent: map<nat, Sent>, order: seq<nat>, outcome: Outcome,
                  queue: seq<Work>)
    requires Received(service, trees, sent, order, outcome, queue)
    ensures
      outcome.Done?
      <==> forall n, t :: n in sent && t in sent[n].targets ==>
             && !Broken(service(n, sent[n].call), t)
             && (forall a :: !RaisesAction(service(n, sent[n].call), t, a))
             && (forall e :: !RaisesError(service(n, sent[n].call), t, e))
  {
    hide Broken, RaisedIn, DiscoveredIn, RaisesAction, RaisesError;
    if AllSound(service, sent) {
      var raised := RaisedIn(service, sent, order);
      forall a
        ensures a in raised.action
           <==> exists n, t :: n in order && t in sent[n].targets && RaisesAction(service(n, sent[n].call), t, a)
      {
        RaisedMeans(service, sent, order, a, "");
      }
      forall e
        ensures e in raised.job
           <==> exists n, t :: n in order && t in sent[n].targets && RaisesError(service(n, sent[n].call), t, e)
      {
        RaisedMeans(service, sent, order, ActionReply([], Leaf(Nil)), e);
      }
      if raised.action != [] {
        var a := raised.action[0];
        assert a in raised.action;
        var n, t :| n in order && t in sent[n].targets && RaisesAction(service(n, sent[n].call), t, a);
      } else if raised.job != [] {
        var e := raised.job[0];
        assert e in raised.job;
        var n, t :| n in order && t in sent[n].targets && RaisesError(service(n, sent[n].call), t, e);
      } else {
        forall n, t | n in sent && t in sent[n].targets
          ensures forall a :: !RaisesAction(service(n, sent[n].call), t, a)
          ensures forall e :: !RaisesError(service(n, sent[n].call), t, e)
        {
          assert n in order;
          forall a ensures !RaisesAction(service(n, sent[n].call), t, a) { assert a !in raised.action; }
          forall e ensures !RaisesError(service(n, sent[n].call), t, e) { assert e !in raised.job; }
        }
      }
    }
  }
}
