/** Many jobs under way through one stub: each comes back once, whatever the order in which the server's responses
    arrive, as a server running the whole job would have answered it. */
module StubRun {
  import opened ByteText
  import opened Jobs
  import opened Stub

  datatype Job = Job(actions: seq<Request>, cont: bool)

  /** What a server answers that runs the whole job itself. */
  function Whole(b: Plain, j: Job): JobResponse { JobResponse([], RunWhole(b, j.actions, j.cont)) }

  /** The job does not continue past an interruption with a stubbed action after it. */
  predicate Faithful(b: Plain, m: Mock, j: Job) { !(j.cont && MockedAfterInterrupt(b, m, j.actions)) }

  predicate Splits(m: Mock, j: Job) { Forwarded(m, j.actions) != [] && AnyMocked(m, j.actions) }

  /** What the stub's books say of a job that was sent. */
  predicate Filed(m: Mock, j: Job, stubId: nat, wrappedId: nat, id: nat, outstanding: map<nat, Stubbed>,
                  toMerge: map<nat, Link>) {
    var forwarded := Forwarded(m, j.actions);
    && id == (if forwarded != [] && !Splits(m, j) then wrappedId else stubId)
    && (stubId in outstanding <==> forwarded == [] || Splits(m, j))
    && (stubId in outstanding ==> outstanding[stubId] == MockAll(m, j.actions, j.cont))
    && (wrappedId in toMerge <==> Splits(m, j))
    && (wrappedId in toMerge ==> toMerge[wrappedId] == Link(stubId, j.cont))
  }

  /** What the server holds ready for it. */
  predicate Served(s: Server, m: Mock, j: Job, wrappedId: nat, ready: map<nat, JobResponse>) {
    var forwarded := Forwarded(m, j.actions);
    && (wrappedId in ready <==> forwarded != [])
    && (wrappedId in ready ==>
          ready[wrappedId].errors == [] && Responds(s, forwarded, j.cont, ready[wrappedId].actions))
  }

  lemma {:induction false} NoneMocked(m: Mock, actions: seq<Request>)
    requires !AnyMocked(m, actions)
    ensures Forwarded(m, actions) == actions
  {
    if actions != [] {
      assert !m.Takes(actions[0]) && forall k :: 1 <= k < |actions| ==> actions[k] == actions[1..][k - 1];
      NoneMocked(m, actions[1..]);
    }
  }

  /** A response of the server is delivered as the whole job's, except past an interruption. */
  lemma FlightAnswered(stub: ServiceStub, b: Plain, s: Server, j: Job, stubId: nat, wrappedId: nat, id: nat, a: Arrival)
    requires stub.Valid() && Describes(b, stub.mock) && Serves(s, b)
    requires Filed(stub.mock, j, stubId, wrappedId, id, stub.outstanding, stub.toMerge)
    requires Forwarded(stub.mock, j.actions) != [] && a.id == wrappedId
    requires a.response.errors == [] && Responds(s, Forwarded(stub.mock, j.actions), j.cont, a.response.actions)
    ensures
      var d := stub.Delivered(a);
      d.Some? && d.value.id == id && (d.value.response == Whole(b, j) <==> Faithful(b, stub.mock, j))
  {
    hide Responds, MockedAfterInterrupt, RunWhole, MergeInto, Describes, Serves, Forwarded, AnyMocked, MockAll;
    if Splits(stub.mock, j) {
      MergedJobIsWhole(b, stub.mock, s, j.actions, j.cont, a.response.actions);
    } else {
      NoneMocked(stub.mock, j.actions);
      ServedAlone(b, s, j, a.response.actions);
      AfterInterruptIsMocked(b, stub.mock, j.actions);
    }
  }

  lemma ServedAlone(b: Plain, s: Server, j: Job, rs: seq<ActionResponse>)
    requires Serves(s, b) && Responds(s, j.actions, j.cont, rs)
    ensures rs == RunWhole(b, j.actions, j.cont)
  {
    ExecutedFrom(s, b, j.actions, j.cont, rs, 0);
    assert rs[0..] == rs && j.actions[0..] == j.actions;
  }

  /** So is a job that was stubbed altogether. */
  lemma HeldAnswered(b: Plain, m: Mock, j: Job)
    requires Describes(b, m) && Forwarded(m, j.actions) == []
    ensures MockAll(m, j.actions, j.cont).Part? && HeldResponse(MockAll(m, j.actions, j.cont)) == Whole(b, j)
    ensures Faithful(b, m, j)
  {
    hide RunWhole, MockFrom, PlacedFrom, Responses;
    MockFromPlaces(b, m, j.actions, 0, j.cont, Progress([], [], None));
    assert [] + PlacedFrom(b, m, j.actions, 0, j.cont) == PlacedFrom(b, m, j.actions, 0, j.cont);
    HeldJobIsWhole(b, m, j.actions, 0, j.cont);
    NoneServed(b, m, j.actions);
  }

  lemma {:induction false} NoneServed(b: Plain, m: Mock, actions: seq<Request>)
    requires Describes(b, m) && Forwarded(m, actions) == []
    ensures forall k :: 0 <= k < |actions| ==> !b.interrupted(actions[k])
  {
    if actions != [] {
      assert m.Takes(actions[0]);
      NoneServed(b, m, actions[1..]);
      assert forall k :: 1 <= k < |actions| ==> actions[k] == actions[1..][k - 1];
    }
  }

  /** The server's responses, in any order. */
  method ArriveInAnyOrder(ready: map<nat, JobResponse>) returns (arrivals: seq<Arrival>)
    ensures Ids(arrivals) == ready.Keys && |arrivals| == |ready|
    ensures forall i, j :: 0 <= i < j < |arrivals| ==> arrivals[i].id != arrivals[j].id
    ensures forall k :: 0 <= k < |arrivals| ==> arrivals[k].id in ready && arrivals[k].response == ready[arrivals[k].id]
  {
    hide Ids;
    arrivals := [];
    IdsOfNone();
    var left := ready.Keys;
    while left != {}
      invariant left <= ready.Keys && Ids(arrivals) == ready.Keys - left && |arrivals| + |left| == |ready.Keys|
      invariant forall i, j :: 0 <= i < j < |arrivals| ==> arrivals[i].id != arrivals[j].id
      invariant forall k :: 0 <= k < |arrivals| ==>
                  && arrivals[k].id in ready && arrivals[k].id !in left
                  && arrivals[k].response == ready[arrivals[k].id]
      decreases left
    {
      var w :| w in left;
      IdsSnoc(arrivals, Arrival(w, ready[w]));
      arrivals, left := arrivals + [Arrival(w, ready[w])], left - {w};
    }
  }

  /** Neither counter gives out a number twice; the two may give out the same one. */
  predicate Separate(stubIds: seq<nat>, wrappedIds: seq<nat>) {
    && (forall i, j :: 0 <= i < j < |stubIds| ==> stubIds[i] != stubIds[j])
    && (forall i, j :: 0 <= i < j < |wrappedIds| ==> wrappedIds[i] != wrappedIds[j])
  }

  /** What the books say of each of the first `k` jobs. */
  ghost predicate AllFiled(s: Server, m: Mock, jobs: seq<Job>, stubIds: seq<nat>, wrappedIds: seq<nat>, ids: seq<nat>,
                           k: nat, outstanding: map<nat, Stubbed>, toMerge: map<nat, Link>, ready: map<nat,
                           JobResponse>,
                           held: set<nat>)
    requires k <= |jobs| == |stubIds| == |wrappedIds| && |ids| == k
  {
    forall i :: 0 <= i < k ==>
      && Filed(m, jobs[i], stubIds[i], wrappedIds[i], ids[i], outstanding, toMerge)
      && Served(s, m, jobs[i], wrappedIds[i], ready)
      && (stubIds[i] in held <==> Forwarded(m, jobs[i].actions) == [])
  }

  function FirstOf(xs: seq<nat>, k: nat): set<nat>
    requires k <= |xs|
  {
    set i | 0 <= i < k :: xs[i]
  }

  /** They hold nothing else. */
  ghost predicate NoOthers(stubIds: seq<nat>, wrappedIds: seq<nat>, k: nat, outstanding: map<nat, Stubbed>,
                           toMerge: map<nat, Link>, ready: map<nat, JobResponse>, held: set<nat>)
    requires k <= |stubIds| == |wrappedIds|
  {
    && outstanding.Keys + held <= FirstOf(stubIds, k) && toMerge.Keys + ready.Keys <= FirstOf(wrappedIds, k)
    && |ready.Keys| + |held| == k
  }

  /** The books after the first `k` jobs were sent; `held` are those that never went to the server. */
  ghost predicate Sent(s: Server, m: Mock, jobs: seq<Job>, stubIds: seq<nat>, wrappedIds: seq<nat>, ids: seq<nat>,
                       k: nat,
                       outstanding: map<nat, Stubbed>, toMerge: map<nat, Link>, ready: map<nat, JobResponse>,
                       held: set<nat>)
    requires k <= |jobs| == |stubIds| == |wrappedIds| && |ids| == k
  {
    && AllFiled(s, m, jobs, stubIds, wrappedIds, ids, k, outstanding, toMerge, ready, held)
    && NoOthers(stubIds, wrappedIds, k, outstanding, toMerge, ready, held)
  }

  /** The job came back as the whole job's response, exactly if it is one that can. */
  predicate Right(b: Plain, m: Mock, d: Arrival, id: nat, j: Job) {
    d.id == id && (d.response == Whole(b, j) <==> Faithful(b, m, j))
  }

  /** Each job has a place of its own among the responses. */
  ghost predicate Answered(b: Plain, m: Mock, delivered: seq<Arrival>, ids: seq<nat>, jobs: seq<Job>, places: seq<nat>)
    requires |ids| == |jobs|
  {
    && |places| == |jobs| && (forall i, j :: 0 <= i < j < |places| ==> places[i] != places[j])
    && forall i :: 0 <= i < |jobs| ==> places[i] < |delivered| && Right(b, m, delivered[places[i]], ids[i], jobs[i])
  }

  /** The server alone answers the job, under the wrapped client's own ID. */
  predicate Unstubbed(m: Mock, j: Job) { Forwarded(m, j.actions) != [] && !AnyMocked(m, j.actions) }

  lemma SentOneMore(s: Server, m: Mock, jobs: seq<Job>, stubIds: seq<nat>, wrappedIds: seq<nat>, ids: seq<nat>, k: nat,
                    o: map<nat, Stubbed>, t: map<nat, Link>, r: map<nat, JobResponse>, h: set<nat>, id: nat,
                    o': map<nat, Stubbed>, t': map<nat, Link>, r': map<nat, JobResponse>)
    requires k < |jobs| == |stubIds| == |wrappedIds| && |ids| == k && Separate(stubIds, wrappedIds)
    requires Sent(s, m, jobs, stubIds, wrappedIds, ids, k, o, t, r, h)
    requires Filed(m, jobs[k], stubIds[k], wrappedIds[k], id, o', t') && Served(s, m, jobs[k], wrappedIds[k], r')
    requires o' == o || o' == o[stubIds[k] := MockAll(m, jobs[k].actions, jobs[k].cont)]
    requires t' == t || t' == t[wrappedIds[k] := Link(stubIds[k], jobs[k].cont)]
    requires r' == if wrappedIds[k] in r' then r[wrappedIds[k] := r'[wrappedIds[k]]] else r
    ensures
      var h' := if Forwarded(m, jobs[k].actions) == [] then h + {stubIds[k]} else h;
      Sent(s, m, jobs, stubIds, wrappedIds, ids + [id], k + 1, o', t', r', h')
  {
    hide AllFiled, NoOthers, MockAll, Forwarded, Splits;
    var h' := if Forwarded(m, jobs[k].actions) == [] then h + {stubIds[k]} else h;
    ServedIff(s, m, jobs[k], wrappedIds[k], r');
    NumbersAreNew(s, m, jobs, stubIds, wrappedIds, ids, k, o, t, r, h);
    FiledOneMore(s, m, jobs, stubIds, wrappedIds, ids, k, o, t, r, h, id, o', t', r', h');
    OneMoreDrawn(stubIds, wrappedIds, k, o, t, r, h, o', t', r', h');
  }

  lemma OneMoreDrawn(stubIds: seq<nat>, wrappedIds: seq<nat>, k: nat,
                     o: map<nat, Stubbed>, t: map<nat, Link>, r: map<nat, JobResponse>, h: set<nat>,
                     o': map<nat, Stubbed>, t': map<nat, Link>, r': map<nat, JobResponse>, h': set<nat>)
    requires k < |stubIds| == |wrappedIds| && NoOthers(stubIds, wrappedIds, k, o, t, r, h)
    requires o'.Keys <= o.Keys + {stubIds[k]} && t'.Keys <= t.Keys + {wrappedIds[k]} && wrappedIds[k] !in r
    requires stubIds[k] !in h
    requires (r'.Keys == r.Keys + {wrappedIds[k]} && h' == h) || (r' == r && h' == h + {stubIds[k]})
    ensures NoOthers(stubIds, wrappedIds, k + 1, o', t', r', h')
  {
    hide FirstOf;
    FirstOfMore(stubIds, k);
    FirstOfMore(wrappedIds, k);
  }

  lemma FirstOfMore(xs: seq<nat>, k: nat)
    requires k < |xs|
    ensures FirstOf(xs, k + 1) == FirstOf(xs, k) + {xs[k]}
  {
  }

  lemma FiledOneMore(s: Server, m: Mock, jobs: seq<Job>, stubIds: seq<nat>, wrappedIds: seq<nat>, ids: seq<nat>, k: nat,
                     o: map<nat, Stubbed>, t: map<nat, Link>, r: map<nat, JobResponse>, h: set<nat>, id: nat,
                     o': map<nat, Stubbed>, t': map<nat, Link>, r': map<nat, JobResponse>, h': set<nat>)
    requires k < |jobs| == |stubIds| == |wrappedIds| && |ids| == k && Separate(stubIds, wrappedIds)
    requires AllFiled(s, m, jobs, stubIds, wrappedIds, ids, k, o, t, r, h)
    requires Filed(m, jobs[k], stubIds[k], wrappedIds[k], id, o', t') && Served(s, m, jobs[k], wrappedIds[k], r')
    requires forall x :: x != stubIds[k] ==> (x in o <==> x in o') && (x in o ==> o'[x] == o[x])
    requires forall x :: x != stubIds[k] ==> (x in h <==> x in h')
    requires forall x :: x != wrappedIds[k] ==> (x in t <==> x in t') && (x in t ==> t'[x] == t[x])
    requires forall x :: x != wrappedIds[k] ==> (x in r <==> x in r') && (x in r ==> r'[x] == r[x])
    requires stubIds[k] in h' <==> Forwarded(m, jobs[k].actions) == []
    ensures AllFiled(s, m, jobs, stubIds, wrappedIds, ids + [id], k + 1, o', t', r', h')
  {
    hide Forwarded, Filed, Served;
    forall i | 0 <= i < k
      ensures Filed(m, jobs[i], stubIds[i], wrappedIds[i], ids[i], o', t') && Served(s, m, jobs[i], wrappedIds[i], r')
    {
      assert stubIds[i] != stubIds[k] && wrappedIds[i] != wrappedIds[k];
      FiledStays(m, jobs[i], stubIds[i], wrappedIds[i], ids[i], o, t, o', t');
      ServedStays(s, m, jobs[i], wrappedIds[i], r, r');
    }
  }

  lemma FiledStays(m: Mock, j: Job, stubId: nat, wrappedId: nat, id: nat, o: map<nat, Stubbed>, t: map<nat, Link>,
                   o': map<nat, Stubbed>, t': map<nat, Link>)
    requires Filed(m, j, stubId, wrappedId, id, o, t)
    requires (stubId in o <==> stubId in o') && (stubId in o ==> o'[stubId] == o[stubId])
    requires (wrappedId in t <==> wrappedId in t') && (wrappedId in t ==> t'[wrappedId] == t[wrappedId])
    ensures Filed(m, j, stubId, wrappedId, id, o', t')
  {
    hide Splits, Forwarded, MockAll;
  }

  lemma ServedStays(s: Server, m: Mock, j: Job, wrappedId: nat, r: map<nat, JobResponse>, r': map<nat, JobResponse>)
    requires Served(s, m, j, wrappedId, r)
    requires (wrappedId in r <==> wrappedId in r') && (wrappedId in r ==> r'[wrappedId] == r[wrappedId])
    ensures Served(s, m, j, wrappedId, r')
  {
    hide Forwarded, Responds;
  }

  lemma ServedIff(s: Server, m: Mock, j: Job, wrappedId: nat, r: map<nat, JobResponse>)
    requires Served(s, m, j, wrappedId, r)
    ensures wrappedId in r <==> Forwarded(m, j.actions) != []
  {
    hide Forwarded, Responds;
  }

  method SendJobs(stub: ServiceStub, ghost b: Plain, s: Server, jobs: seq<Job>, stubIds: seq<nat>, wrappedIds: seq<nat>)
    returns (ids: seq<nat>, ready: map<nat, JobResponse>, ghost held: set<nat>)
    requires stub.Valid() && stub.outstanding == map[] && stub.toMerge == map[]
    requires Serves(s, b) && |stubIds| == |wrappedIds| == |jobs| && Separate(stubIds, wrappedIds)
    modifies stub
    ensures stub.Valid() && |ids| == |jobs|
    ensures Sent(s, stub.mock, jobs, stubIds, wrappedIds, ids, |jobs|, stub.outstanding, stub.toMerge, ready, held)
  {
    hide Sent, Responds, Forwarded, AnyMocked, MockAll;
    ids, ready, held := [], map[], {};
    NothingSent(s, stub.mock, jobs, stubIds, wrappedIds);
    for k := 0 to |jobs|
      invariant stub.Valid() && |ids| == k
      invariant Sent(s, stub.mock, jobs, stubIds, wrappedIds, ids, k, stub.outstanding, stub.toMerge, ready, held)
    {
      var j := jobs[k];
      ghost var o, t, r := stub.outstanding, stub.toMerge, ready;
      NumbersAreNew(s, stub.mock, jobs, stubIds, wrappedIds, ids, k, o, t, r, held);
      var id, forwarded := stub.Send(j.actions, j.cont, stubIds[k], wrappedIds[k]);
      if forwarded != [] {
        var result := ExecuteJob(s, forwarded, j.cont);
        ready := ready[wrappedIds[k] := JobResponse([], result.actions)];
      }
      SentOneMore(s, stub.mock, jobs, stubIds, wrappedIds, ids, k, o, t, r, held, id, stub.outstanding, stub.toMerge,
                  ready);
      held := if forwarded == [] then held + {stubIds[k]} else held;
      ids := ids + [id];
    }
  }

  lemma NothingSent(s: Server, m: Mock, jobs: seq<Job>, stubIds: seq<nat>, wrappedIds: seq<nat>)
    requires |jobs| == |stubIds| == |wrappedIds|
    ensures Sent(s, m, jobs, stubIds, wrappedIds, [], 0, map[], map[], map[], {})
  {
  }

  lemma NumbersAreNew(s: Server, m: Mock, jobs: seq<Job>, stubIds: seq<nat>, wrappedIds: seq<nat>, ids: seq<nat>,
                      k: nat,
                      o: map<nat, Stubbed>, t: map<nat, Link>, r: map<nat, JobResponse>, h: set<nat>)
    requires k < |jobs| == |stubIds| == |wrappedIds| && |ids| == k && Separate(stubIds, wrappedIds)
    requires Sent(s, m, jobs, stubIds, wrappedIds, ids, k, o, t, r, h)
    ensures stubIds[k] !in o && wrappedIds[k] !in t && wrappedIds[k] !in r && stubIds[k] !in h
  {
  }

  /** The stub job an ID belongs to. */
  lemma Owner(xs: seq<nat>, x: nat) returns (i: nat)
    requires x in FirstOf(xs, |xs|)
    ensures i < |xs| && xs[i] == x
  {
    i :| 0 <= i < |xs| && xs[i] == x;
  }

  /** What is left once the merges are done: the jobs that never went to the server. */
  lemma LeftOver(s: Server, m: Mock, jobs: seq<Job>, stubIds: seq<nat>, wrappedIds: seq<nat>, ids: seq<nat>,
                 o: map<nat, Stubbed>, t: map<nat, Link>, r: map<nat, JobResponse>, h: set<nat>, arrivals: seq<Arrival>)
    requires |ids| == |jobs| == |stubIds| == |wrappedIds| && Separate(stubIds, wrappedIds)
    requires Sent(s, m, jobs, stubIds, wrappedIds, ids, |jobs|, o, t, r, h) && Ids(arrivals) == r.Keys
    ensures t - Ids(arrivals) == map[]
    ensures (o - MergedIds(t, arrivals)).Keys == h
  {
    hide Filed, Served, MergedIds, Ids, FirstOf, Forwarded, Splits, AnyMocked;
    forall w | w in t ensures w in r {
      var i := Owner(wrappedIds, w);
      LinkOf(s, m, jobs[i], stubIds[i], wrappedIds[i], ids[i], o, t, r);
    }
    forall x ensures x in o && x !in MergedIds(t, arrivals) <==> x in h {
      if x in o || x in h {
        var i := Owner(stubIds, x);
        LinkOf(s, m, jobs[i], stubIds[i], wrappedIds[i], ids[i], o, t, r);
        if Splits(m, jobs[i]) {
          MergedIdsHas(t, arrivals, wrappedIds[i]);
        } else if x in MergedIds(t, arrivals) {
          var w := MergedBy(t, arrivals, x);
          var k := Owner(wrappedIds, w);
          LinkOf(s, m, jobs[k], stubIds[k], wrappedIds[k], ids[k], o, t, r);
          assert false;
        }
      }
    }
  }

  lemma LinkOf(s: Server, m: Mock, j: Job, stubId: nat, wrappedId: nat, id: nat, o: map<nat, Stubbed>, t: map<nat,
               Link>,
               r: map<nat, JobResponse>)
    requires Filed(m, j, stubId, wrappedId, id, o, t) && Served(s, m, j, wrappedId, r)
    ensures wrappedId in t <==> Splits(m, j)
    ensures wrappedId in t ==> wrappedId in r && t[wrappedId].id == stubId
    ensures stubId in o <==> Forwarded(m, j.actions) == [] || Splits(m, j)
    ensures Splits(m, j) ==> Forwarded(m, j.actions) != []
  {
    hide Forwarded, AnyMocked, MockAll, Responds;
  }

  lemma MergedIdsHas(t: map<nat, Link>, arrivals: seq<Arrival>, w: nat)
    requires w in t && w in Ids(arrivals)
    ensures t[w].id in MergedIds(t, arrivals)
  {
  }

  lemma MergedBy(t: map<nat, Link>, arrivals: seq<Arrival>, x: nat) returns (w: nat)
    requires x in MergedIds(t, arrivals)
    ensures w in t && t[w].id == x
  {
    var a :| a in arrivals && a.id in t && t[a.id].id == x;
    w := a.id;
  }

  /** The job's response is among the arrivals, and is delivered right. */
  lemma FlightCame(stub: ServiceStub, b: Plain, s: Server, jobs: seq<Job>, stubIds: seq<nat>, wrappedIds: seq<nat>,
                   ids: seq<nat>, ready: map<nat, JobResponse>, held: set<nat>, arrivals: seq<Arrival>, i: nat)
    returns (q: nat)
    requires stub.Valid() && Describes(b, stub.mock) && Serves(s, b)
    requires i < |ids| == |jobs| == |stubIds| == |wrappedIds| && Separate(stubIds, wrappedIds)
    requires Sent(s, stub.mock, jobs, stubIds, wrappedIds, ids, |jobs|, stub.outstanding, stub.toMerge, ready, held)
    requires Ids(arrivals) == ready.Keys
    requires forall k :: 0 <= k < |arrivals| ==>
               arrivals[k].id in ready && arrivals[k].response == ready[arrivals[k].id]
    requires Forwarded(stub.mock, jobs[i].actions) != []
    ensures q < |arrivals| && arrivals[q].id == wrappedIds[i] && stub.Delivered(arrivals[q]).Some?
    ensures Right(b, stub.mock, stub.Delivered(arrivals[q]).value, ids[i], jobs[i])
  {
    hide Filed, NoOthers, Forwarded, Responds, Describes, Serves, Whole, Faithful;
    assert Served(s, stub.mock, jobs[i], wrappedIds[i], ready);
    var a :| a in arrivals && a.id == wrappedIds[i];
    q :| 0 <= q < |arrivals| && arrivals[q] == a;
    FlightAnswered(stub, b, s, jobs[i], stubIds[i], wrappedIds[i], ids[i], a);
  }

  /** Every arrival is some job's, and is delivered. */
  lemma EveryArrivalDelivered(stub: ServiceStub, b: Plain, s: Server, jobs: seq<Job>, stubIds: seq<nat>,
                              wrappedIds: seq<nat>, ids: seq<nat>, ready: map<nat, JobResponse>, held: set<nat>,
                              a: Arrival)
    requires stub.Valid() && Describes(b, stub.mock) && Serves(s, b)
    requires |ids| == |jobs| == |stubIds| == |wrappedIds| && Separate(stubIds, wrappedIds)
    requires Sent(s, stub.mock, jobs, stubIds, wrappedIds, ids, |jobs|, stub.outstanding, stub.toMerge, ready, held)
    requires a.id in ready && a.response == ready[a.id]
    ensures stub.Delivered(a).Some?
  {
    hide Filed, Forwarded, Responds, Describes, Serves, FirstOf;
    var i := Owner(wrappedIds, a.id);
    assert Served(s, stub.mock, jobs[i], wrappedIds[i], ready);
    FlightAnswered(stub, b, s, jobs[i], stubIds[i], wrappedIds[i], ids[i], a);
  }

  /** What is held for a job that never went to the server. */
  lemma HeldRight(b: Plain, s: Server, m: Mock, jobs: seq<Job>, stubIds: seq<nat>, wrappedIds: seq<nat>, ids: seq<nat>,
                  o: map<nat, Stubbed>, t: map<nat, Link>, r: map<nat, JobResponse>, h: set<nat>, i: nat)
    requires Describes(b, m) && i < |ids| == |jobs| == |stubIds| == |wrappedIds|
    requires Sent(s, m, jobs, stubIds, wrappedIds, ids, |jobs|, o, t, r, h) && Forwarded(m, jobs[i].actions) == []
    ensures stubIds[i] in h && stubIds[i] in o && ids[i] == stubIds[i] && o[stubIds[i]].Part?
    ensures Right(b, m, Arrival(stubIds[i], HeldResponse(o[stubIds[i]])), ids[i], jobs[i])
  {
    hide NoOthers, Describes, Forwarded, MockAll, Whole, Faithful, HeldResponse, Served, Splits;
    assert Filed(m, jobs[i], stubIds[i], wrappedIds[i], ids[i], o, t);
    HeldAnswered(b, m, jobs[i]);
  }

  lemma AllHeldRight(b: Plain, s: Server, m: Mock, jobs: seq<Job>, stubIds: seq<nat>, wrappedIds: seq<nat>,
                     ids: seq<nat>, o: map<nat, Stubbed>, t: map<nat, Link>, r: map<nat, JobResponse>, h: set<nat>)
    requires Describes(b, m) && |ids| == |jobs| == |stubIds| == |wrappedIds|
    requires Sent(s, m, jobs, stubIds, wrappedIds, ids, |jobs|, o, t, r, h)
    ensures forall x :: x in h ==> x in o && o[x].Part?
  {
    hide AllFiled, Describes, Right, FirstOf, Forwarded;
    forall x | x in h ensures x in o && o[x].Part? {
      var i := Owner(stubIds, x);
      HeldIsNotForwarded(s, m, jobs, stubIds, wrappedIds, ids, o, t, r, h, i);
      HeldRight(b, s, m, jobs, stubIds, wrappedIds, ids, o, t, r, h, i);
    }
  }

  lemma HeldIsNotForwarded(s: Server, m: Mock, jobs: seq<Job>, stubIds: seq<nat>, wrappedIds: seq<nat>, ids: seq<nat>,
                           o: map<nat, Stubbed>, t: map<nat, Link>, r: map<nat, JobResponse>, h: set<nat>, i: nat)
    requires i < |ids| == |jobs| == |stubIds| == |wrappedIds|
    requires AllFiled(s, m, jobs, stubIds, wrappedIds, ids, |jobs|, o, t, r, h)
    ensures stubIds[i] in h <==> Forwarded(m, jobs[i].actions) == []
  {
  }

  /** Two sends return the same ID exactly when it is the stub's for the one job and the wrapped client's for the
      other. */
  lemma IdsDiffer(s: Server, m: Mock, jobs: seq<Job>, stubIds: seq<nat>, wrappedIds: seq<nat>, ids: seq<nat>,
                  o: map<nat, Stubbed>, t: map<nat, Link>, r: map<nat, JobResponse>, h: set<nat>)
    requires |ids| == |jobs| == |stubIds| == |wrappedIds| && Separate(stubIds, wrappedIds)
    requires Sent(s, m, jobs, stubIds, wrappedIds, ids, |jobs|, o, t, r, h)
    ensures forall i :: 0 <= i < |jobs| ==> ids[i] == if Unstubbed(m, jobs[i]) then wrappedIds[i] else stubIds[i]
    ensures forall i, j :: 0 <= i < j < |ids| && ids[i] == ids[j] ==> Unstubbed(m, jobs[i]) != Unstubbed(m, jobs[j])
  {
    hide NoOthers, Forwarded, AnyMocked, MockAll, Served;
  }

  /** The job's response from the wrapped client, and what it is delivered as. */
  predicate CameAt(b: Plain, m: Mock, arrivals: seq<Arrival>, ds: seq<Arrival>, wrappedId: nat, id: nat, j: Job,
                   q: nat) {
    q < |ds| == |arrivals| && arrivals[q].id == wrappedId && Right(b, m, ds[q], id, j)
  }

  /** What the wrapped client's responses are delivered as. */
  lemma FlightsCame(stub: ServiceStub, b: Plain, s: Server, jobs: seq<Job>, stubIds: seq<nat>, wrappedIds: seq<nat>,
                    ids: seq<nat>, ready: map<nat, JobResponse>, held: set<nat>, arrivals: seq<Arrival>)
    returns (ds: seq<Arrival>)
    requires stub.Valid() && Describes(b, stub.mock) && Serves(s, b)
    requires |ids| == |jobs| == |stubIds| == |wrappedIds| && Separate(stubIds, wrappedIds)
    requires Sent(s, stub.mock, jobs, stubIds, wrappedIds, ids, |jobs|, stub.outstanding, stub.toMerge, ready, held)
    requires Ids(arrivals) == ready.Keys
    requires forall k :: 0 <= k < |arrivals| ==>
               arrivals[k].id in ready && arrivals[k].response == ready[arrivals[k].id]
    ensures |ds| == |arrivals| && forall k :: 0 <= k < |ds| ==> stub.Delivered(arrivals[k]) == Some(ds[k])
    ensures forall i :: 0 <= i < |jobs| && Forwarded(stub.mock, jobs[i].actions) != [] ==>
              exists q :: CameAt(b, stub.mock, arrivals, ds, wrappedIds[i], ids[i], jobs[i], q)
  {
    hide Sent, Describes, Serves, Separate, Right, Forwarded;
    forall k | 0 <= k < |arrivals| ensures stub.Delivered(arrivals[k]).Some? {
      EveryArrivalDelivered(stub, b, s, jobs, stubIds, wrappedIds, ids, ready, held, arrivals[k]);
    }
    ds := seq(|arrivals|,
              k requires 0 <= k < |arrivals| && stub.Valid() && stub.Delivered(arrivals[k]).Some? reads stub =>
                stub.Delivered(arrivals[k]).value);
    forall i | 0 <= i < |jobs| && Forwarded(stub.mock, jobs[i].actions) != []
      ensures exists q :: CameAt(b, stub.mock, arrivals, ds, wrappedIds[i], ids[i], jobs[i], q)
    {
      var q := FlightCame(stub, b, s, jobs, stubIds, wrappedIds, ids, ready, held, arrivals, i);
      assert CameAt(b, stub.mock, arrivals, ds, wrappedIds[i], ids[i], jobs[i], q);
    }
  }

  method Collect(stub: ServiceStub, ghost b: Plain, ghost s: Server, ghost jobs: seq<Job>, ghost stubIds: seq<nat>,
                 ghost wrappedIds: seq<nat>, ghost ids: seq<nat>, ghost ready: map<nat, JobResponse>,
                 ghost held: set<nat>, arrivals: seq<Arrival>)
    returns (delivered: seq<Arrival>, ghost places: seq<nat>)
    requires stub.Valid() && Describes(b, stub.mock) && Serves(s, b)
    requires |ids| == |jobs| == |stubIds| == |wrappedIds| && Separate(stubIds, wrappedIds)
    requires Sent(s, stub.mock, jobs, stubIds, wrappedIds, ids, |jobs|, stub.outstanding, stub.toMerge, ready, held)
    requires Ids(arrivals) == ready.Keys && |arrivals| == |ready|
    requires forall i, j :: 0 <= i < j < |arrivals| ==> arrivals[i].id != arrivals[j].id
    requires forall k :: 0 <= k < |arrivals| ==>
               arrivals[k].id in ready && arrivals[k].response == ready[arrivals[k].id]
    modifies stub
    ensures |delivered| == |jobs| && Answered(b, stub.mock, delivered, ids, jobs, places)
    ensures stub.Valid() && stub.outstanding == map[] && stub.toMerge == map[]
  {
    hide Sent, Describes, Serves, Separate, CameAt, Forwarded, HeldResponse, MergedIds, Answered, Ids,
         ServiceStub.Delivered;
    ghost var o, t, m := stub.outstanding, stub.toMerge, stub.mock;
    ghost var ds := FlightsCame(stub, b, s, jobs, stubIds, wrappedIds, ids, ready, held, arrivals);
    LeftOver(s, m, jobs, stubIds, wrappedIds, ids, o, t, ready, held, arrivals);
    AllHeldRight(b, s, m, jobs, stubIds, wrappedIds, ids, o, t, ready, held);
    var ok, first := stub.DeliverAll(arrivals);
    assert first == ds;
    var rest := stub.DeliverHeld();
    delivered := first + rest.value;
    SentCount(s, m, jobs, stubIds, wrappedIds, ids, o, t, ready, held);
    places :=
      AllAnswered(b, s, m, jobs, stubIds, wrappedIds, ids, o, t, ready, held, arrivals, first, rest.value);
  }

  /** The place of the i-th job's response: among the wrapped client's, or after them. */
  predicate PlacedAt(b: Plain, m: Mock, arrivals: seq<Arrival>, first: seq<Arrival>, rest: seq<Arrival>, stubId: nat,
                     wrappedId: nat, id: nat, j: Job, q: nat) {
    if Forwarded(m, j.actions) != [] then CameAt(b, m, arrivals, first, wrappedId, id, j, q)
    else |first| <= q < |first| + |rest| && rest[q - |first|].id == stubId && Right(b, m, rest[q - |first|], id, j)
  }

  lemma OnePlace(b: Plain, s: Server, m: Mock, jobs: seq<Job>, stubIds: seq<nat>, wrappedIds: seq<nat>, ids: seq<nat>,
                 o: map<nat, Stubbed>, t: map<nat, Link>, r: map<nat, JobResponse>, h: set<nat>,
                 arrivals: seq<Arrival>, first: seq<Arrival>, rest: seq<Arrival>, i: nat) returns (q: nat)
    requires Describes(b, m) && i < |ids| == |jobs| == |stubIds| == |wrappedIds|
    requires Sent(s, m, jobs, stubIds, wrappedIds, ids, |jobs|, o, t, r, h)
    requires Forwarded(m, jobs[i].actions) != [] ==>
               exists q :: CameAt(b, m, arrivals, first, wrappedIds[i], ids[i], jobs[i], q)
    requires Ids(rest) == h && forall a :: a in rest ==> a.id in o && a.response == HeldResponse(o[a.id])
    ensures PlacedAt(b, m, arrivals, first, rest, stubIds[i], wrappedIds[i], ids[i], jobs[i], q)
  {
    hide Sent, Describes, Right, Forwarded, HeldResponse, CameAt;
    if Forwarded(m, jobs[i].actions) != [] {
      q :| CameAt(b, m, arrivals, first, wrappedIds[i], ids[i], jobs[i], q);
    } else {
      HeldRight(b, s, m, jobs, stubIds, wrappedIds, ids, o, t, r, h, i);
      var a :| a in rest && a.id == stubIds[i];
      assert a == Arrival(stubIds[i], HeldResponse(o[stubIds[i]]));
      var k :| 0 <= k < |rest| && rest[k] == a;
      q := |first| + k;
    }
  }

  lemma PlacesDiffer(b: Plain, m: Mock, jobs: seq<Job>, stubIds: seq<nat>, wrappedIds: seq<nat>, ids: seq<nat>,
                     arrivals: seq<Arrival>, first: seq<Arrival>, rest: seq<Arrival>, places: seq<nat>)
    requires |ids| == |jobs| == |stubIds| == |wrappedIds| == |places| && Separate(stubIds, wrappedIds)
    requires forall i :: 0 <= i < |jobs| ==>
               PlacedAt(b, m, arrivals, first, rest, stubIds[i], wrappedIds[i], ids[i], jobs[i], places[i])
    ensures Answered(b, m, first + rest, ids, jobs, places)
  {
    hide Right, Forwarded;
    forall i, j | 0 <= i < j < |places| ensures places[i] != places[j] {
      assert PlacedAt(b, m, arrivals, first, rest, stubIds[i], wrappedIds[i], ids[i], jobs[i], places[i]);
      assert PlacedAt(b, m, arrivals, first, rest, stubIds[j], wrappedIds[j], ids[j], jobs[j], places[j]);
    }
    forall i | 0 <= i < |jobs|
      ensures places[i] < |first + rest| && Right(b, m, (first + rest)[places[i]], ids[i], jobs[i])
    {
      assert PlacedAt(b, m, arrivals, first, rest, stubIds[i], wrappedIds[i], ids[i], jobs[i], places[i]);
    }
  }

  lemma AllAnswered(b: Plain, s: Server, m: Mock, jobs: seq<Job>, stubIds: seq<nat>, wrappedIds: seq<nat>,
                    ids: seq<nat>,
                    o: map<nat, Stubbed>, t: map<nat, Link>, r: map<nat, JobResponse>, h: set<nat>,
                    arrivals: seq<Arrival>, first: seq<Arrival>, rest: seq<Arrival>) returns (places: seq<nat>)
    requires Describes(b, m) && |ids| == |jobs| == |stubIds| == |wrappedIds| && Separate(stubIds, wrappedIds)
    requires Sent(s, m, jobs, stubIds, wrappedIds, ids, |jobs|, o, t, r, h)
    requires forall i :: 0 <= i < |jobs| && Forwarded(m, jobs[i].actions) != [] ==>
               exists q :: CameAt(b, m, arrivals, first, wrappedIds[i], ids[i], jobs[i], q)
    requires Ids(rest) == h && forall a :: a in rest ==> a.id in o && a.response == HeldResponse(o[a.id])
    ensures Answered(b, m, first + rest, ids, jobs, places)
  {
    hide Sent, Describes, Separate, Forwarded, HeldResponse, CameAt, PlacedAt, Ids;
    places := [];
    for i := 0 to |jobs|
      invariant |places| == i
      invariant forall j :: 0 <= j < i ==>
                  PlacedAt(b, m, arrivals, first, rest, stubIds[j], wrappedIds[j], ids[j], jobs[j], places[j])
    {
      var q := OnePlace(b, s, m, jobs, stubIds, wrappedIds, ids, o, t, r, h, arrivals, first, rest, i);
      places := places + [q];
    }
    PlacesDiffer(b, m, jobs, stubIds, wrappedIds, ids, arrivals, first, rest, places);
  }

  lemma SentCount(s: Server, m: Mock, jobs: seq<Job>, stubIds: seq<nat>, wrappedIds: seq<nat>, ids: seq<nat>,
                  o: map<nat, Stubbed>, t: map<nat, Link>, r: map<nat, JobResponse>, h: set<nat>)
    requires |ids| == |jobs| == |stubIds| == |wrappedIds|
    requires Sent(s, m, jobs, stubIds, wrappedIds, ids, |jobs|, o, t, r, h)
    ensures |r| + |h| == |jobs|
  {
    hide AllFiled;
    assert |r| == |r.Keys|;
  }

  /** Send jobs through a stub, let the server run what is forwarded, and take the responses in whatever order they
      arrive: every job comes back once, under the ID its send returned. Two of those IDs coincide only if the stub's
      counter and the wrapped client's happen to give out the same number. */
  method CallJobs(stub: ServiceStub, ghost b: Plain, s: Server, jobs: seq<Job>, stubIds: seq<nat>, wrappedIds: seq<nat>)
    returns (ids: seq<nat>, delivered: seq<Arrival>, ghost places: seq<nat>)
    requires stub.Valid() && stub.outstanding == map[] && stub.toMerge == map[]
    requires Describes(b, stub.mock) && Serves(s, b)
    requires |stubIds| == |wrappedIds| == |jobs| && Separate(stubIds, wrappedIds)
    modifies stub
    ensures |ids| == |delivered| == |jobs| && Answered(b, stub.mock, delivered, ids, jobs, places)
    ensures forall i :: 0 <= i < |jobs| ==>
              ids[i] == if Unstubbed(stub.mock, jobs[i]) then wrappedIds[i] else stubIds[i]
    ensures forall i, j :: 0 <= i < j < |ids| && ids[i] == ids[j] ==>
              Unstubbed(stub.mock, jobs[i]) != Unstubbed(stub.mock, jobs[j])
    ensures stub.Valid() && stub.outstanding == map[] && stub.toMerge == map[]
  {
    hide Sent, Describes, Serves, Separate, Answered, Unstubbed;
    var ready;
    ghost var held;
    ids, ready, held := SendJobs(stub, b, s, jobs, stubIds, wrappedIds);
    IdsDiffer(s, stub.mock, jobs, stubIds, wrappedIds, ids, stub.outstanding, stub.toMerge, ready, held);
    var arrivals := ArriveInAnyOrder(ready);
    delivered, places := Collect(stub, b, s, jobs, stubIds, wrappedIds, ids, ready, held, arrivals);
  }
}
