/** `stub_action`: one job split over a mock and a real server, and its answers merged again. */
module Stub {
  import opened ByteText
  import opened Jobs

  /** How a call of the mock can end. */
  datatype MockEnding =
    | MockResponse(response: ActionResponse)
    | MockJobResponse(errors: seq<Error>, first: ActionResponse)
    | MockActionError(errors: seq<Error>)
    | MockJobError(errors: seq<Error>)
    | MockTransportError(message: string)

  /** An action response and the index of its request in the job. */
  datatype Placed = Placed(index: nat, response: ActionResponse)

  /** What the stub holds for a job until its responses are asked for. */
  datatype Stubbed = Part(placed: seq<Placed>, errors: seq<Error>) | TransportError(message: string)

  // ------------------------------------------------------------------ splitting

  /** The stubbed action as seen from one service, and the mock that stands for it. */
  datatype Mock = Mock(sameService: bool, action: string, run: Request -> MockEnding)
  {
    predicate Takes(q: Request) { sameService && q.action == action }
  }

  function Forwarded(m: Mock, actions: seq<Request>): seq<Request> {
    if actions == [] then []
    else (if m.Takes(actions[0]) then [] else [actions[0]]) + Forwarded(m, actions[1..])
  }

  predicate AnyMocked(m: Mock, actions: seq<Request>) { exists k :: 0 <= k < |actions| && m.Takes(actions[k]) }

  /** The state of the loop over the mocked requests. */
  datatype Progress = Progress(placed: seq<Placed>, errors: seq<Error>, transport: Option<string>)
  {
    function Result(): Stubbed { if transport.Some? then TransportError(transport.value) else Part(placed, errors) }
  }

  datatype Step = Step(progress: Progress, stop: bool)

  function AfterResponse(p: Progress, i: nat, errors: seq<Error>, r: ActionResponse, cont: bool): Step {
    Step(Progress(p.placed + [Placed(i, r)], p.errors + errors, p.transport),
         (!cont && r.errors != []) || p.errors + errors != [])
  }

  /** One mocked request: its response is placed, and job errors or, unless continued on, action errors stop the
      loop. */
  function MockOne(m: Mock, q: Request, i: nat, cont: bool, p: Progress): Step {
    match m.run(q)
    case MockResponse(r) => AfterResponse(p, i, [], r, cont)
    case MockJobResponse(errors, r) => AfterResponse(p, i, errors, r, cont)
    case MockActionError(errors) => AfterResponse(p, i, [], ActionResponse(m.action, errors, ""), cont)
    case MockJobError(errors) =>
      Step(Progress(p.placed, p.errors + errors, p.transport), p.errors + errors != [])
    case MockTransportError(e) => Step(Progress(p.placed, p.errors, Some(e)), p.errors != [])
  }

  function MockFrom(m: Mock, actions: seq<Request>, i: nat, cont: bool, p: Progress): Progress
    decreases |actions|
  {
    if actions == [] then p
    else if !m.Takes(actions[0]) then MockFrom(m, actions[1..], i + 1, cont, p)
    else
      var s := MockOne(m, actions[0], i, cont, p);
      if s.stop then s.progress else MockFrom(m, actions[1..], i + 1, cont, s.progress)
  }

  function MockAll(m: Mock, actions: seq<Request>, cont: bool): Stubbed {
    MockFrom(m, actions, 0, cont, Progress([], [], None)).Result()
  }

  /** The loop that sorts the requests. */
  method SplitRequests(m: Mock, actions: seq<Request>) returns (forwarded: seq<Request>, anyMocked: bool)
    ensures forwarded == Forwarded(m, actions) && (anyMocked <==> AnyMocked(m, actions))
  {
    hide Mock.Takes;
    forwarded, anyMocked := [], false;
    var i := 0;
    ghost var w := 0;
    assert actions[0..] == actions;
    while i < |actions|
      invariant i <= |actions| && forwarded + Forwarded(m, actions[i..]) == Forwarded(m, actions)
      invariant if anyMocked then 0 <= w < i && m.Takes(actions[w]) else forall k :: 0 <= k < i ==> !m.Takes(actions[k])
    {
      assert actions[i..][0] == actions[i] && actions[i..][1..] == actions[i + 1..];
      if m.Takes(actions[i]) {
        anyMocked, w := true, i;
      } else {
        forwarded := forwarded + [actions[i]];
      }
      i := i + 1;
    }
    assert forwarded + [] == forwarded;
  }

  // ------------------------------------------------------------------ merging

  /** `list.insert`: at the index, or at the end when the list is shorter. */
  function InsertAt<T>(s: seq<T>, i: nat, x: T): seq<T> { if i <= |s| then s[..i] + [x] + s[i..] else s + [x] }

  function InsertAll(s: seq<ActionResponse>, placed: seq<Placed>): seq<ActionResponse>
    decreases |placed|
  {
    if placed == [] then s else InsertAll(InsertAt(s, placed[0].index, placed[0].response), placed[1..])
  }

  /** Simulate the server halting on the first action error. */
  function ThroughFirstError(s: seq<ActionResponse>): seq<ActionResponse> {
    if s == [] then [] else if s[0].errors != [] then [s[0]] else [s[0]] + ThroughFirstError(s[1..])
  }

  function MergeInto(served: JobResponse, placed: seq<Placed>, errors: seq<Error>, cont: bool): JobResponse {
    var all := InsertAll(served.actions, placed);
    JobResponse(served.errors + errors, if cont then all else ThroughFirstError(all))
  }

  /** The merge loops of `wrapped_get_all_responses`. */
  method Merge(served: JobResponse, placed: seq<Placed>, errors: seq<Error>, cont: bool) returns (r: JobResponse)
    ensures r == MergeInto(served, placed, errors, cont)
  {
    var actions := served.actions;
    var k := 0;
    while k < |placed|
      invariant k <= |placed| && InsertAll(actions, placed[k..]) == InsertAll(served.actions, placed)
    {
      actions := InsertAt(actions, placed[k].index, placed[k].response);
      k := k + 1;
    }
    if !cont { actions := Truncate(actions); }
    r := JobResponse(served.errors + errors, actions);
  }

  method Truncate(actions: seq<ActionResponse>) returns (r: seq<ActionResponse>)
    ensures r == ThroughFirstError(actions)
  {
    var i := 0;
    while i < |actions| && actions[i].errors == []
      invariant i <= |actions| && actions[..i] + ThroughFirstError(actions[i..]) == ThroughFirstError(actions)
    {
      assert actions[..i + 1] == actions[..i] + [actions[i]] && actions[i..][1..] == actions[i + 1..];
      i := i + 1;
    }
    if i < |actions| {
      assert actions[..i + 1] == actions[..i] + [actions[i]];
      return actions[..i + 1];
    }
    assert actions[..i] + [] == actions;
    return actions;
  }

  // ------------------------------------------------------------------ the split job equals the whole job

  /** Outcomes that depend only on the request: its response, and whether the real server was interrupted in it. */
  datatype Plain = Plain(response: Request -> ActionResponse, interrupted: Request -> bool)

  /** What a server answers that runs the whole list itself. */
  function RunWhole(b: Plain, actions: seq<Request>, cont: bool): seq<ActionResponse> {
    if actions == [] then []
    else
      var r := b.response(actions[0]);
      [r] + if b.interrupted(actions[0]) || (r.errors != [] && !cont) then [] else RunWhole(b, actions[1..], cont)
  }

  /** The split: the mocked responses placed, the rest run by the server, then merged. */
  function RunSplit(b: Plain, m: Mock, actions: seq<Request>, cont: bool): seq<ActionResponse> {
    var placed := PlacedFrom(b, m, actions, 0, cont);
    MergeInto(JobResponse([], RunWhole(b, Forwarded(m, actions), cont)), placed, [], cont).actions
  }

  function PlacedFrom(b: Plain, m: Mock, actions: seq<Request>, i: nat, cont: bool): seq<Placed>
    decreases |actions|
  {
    if actions == [] then []
    else if !m.Takes(actions[0]) then PlacedFrom(b, m, actions[1..], i + 1, cont)
    else
      var r := b.response(actions[0]);
      [Placed(i, r)] + if r.errors != [] && !cont then [] else PlacedFrom(b, m, actions[1..], i + 1, cont)
  }

  /** The mock answers as `b` says, and an interrupted action is a real one and reports an error. */
  ghost predicate Describes(b: Plain, m: Mock) {
    forall q :: && (m.Takes(q) ==> !b.interrupted(q) && m.run(q) == MockResponse(b.response(q)))
                && (b.interrupted(q) ==> b.response(q).errors != [])
  }

  lemma {:induction false} MockFromPlaces(b: Plain, m: Mock, actions: seq<Request>, i: nat, cont: bool, p: Progress)
    requires Describes(b, m) && p.errors == [] && p.transport.None?
    ensures MockFrom(m, actions, i, cont, p) == Progress(p.placed + PlacedFrom(b, m, actions, i, cont), [], None)
    decreases |actions|
  {
    if actions == [] {
      assert p.placed + [] == p.placed;
    } else if !m.Takes(actions[0]) {
      MockFromPlaces(b, m, actions[1..], i + 1, cont, p);
    } else {
      var r := b.response(actions[0]);
      var next := Progress(p.placed + [Placed(i, r)], [], None);
      assert m.run(actions[0]) == MockResponse(r) && p.errors + [] == [];
      MockFromPlaces(b, m, actions[1..], i + 1, cont, next);
      assert p.placed + [Placed(i, r)] + PlacedFrom(b, m, actions[1..], i + 1, cont)
          == p.placed + ([Placed(i, r)] + PlacedFrom(b, m, actions[1..], i + 1, cont));
      assert [Placed(i, r)] + [] == [Placed(i, r)];
    }
  }

  /** A mocked action comes after an interrupted one. */
  predicate MockedAfterInterrupt(b: Plain, m: Mock, actions: seq<Request>) {
    exists i, j :: 0 <= i < j < |actions| && b.interrupted(actions[i]) && m.Takes(actions[j])
  }

  function Shift(placed: seq<Placed>): (r: seq<Placed>)
    ensures |r| == |placed| && forall k :: 0 <= k < |r| ==> r[k] == Placed(placed[k].index + 1, placed[k].response)
  {
    seq(|placed|, k requires 0 <= k < |placed| => Placed(placed[k].index + 1, placed[k].response))
  }

  lemma {:induction false} PlacedFromShifts(b: Plain, m: Mock, actions: seq<Request>, i: nat, cont: bool)
    ensures PlacedFrom(b, m, actions, i + 1, cont) == Shift(PlacedFrom(b, m, actions, i, cont))
    decreases |actions|
  {
    if actions != [] { PlacedFromShifts(b, m, actions[1..], i + 1, cont); }
  }

  lemma InsertAtBehind<T>(x: T, s: seq<T>, i: nat, y: T)
    ensures InsertAt([x] + s, i + 1, y) == [x] + InsertAt(s, i, y)
  {
    if i <= |s| {
      assert ([x] + s)[..i + 1] == [x] + s[..i] && ([x] + s)[i + 1..] == s[i..];
    }
  }

  lemma {:induction false} InsertAllBehind(x: ActionResponse, s: seq<ActionResponse>, placed: seq<Placed>)
    ensures InsertAll([x] + s, Shift(placed)) == [x] + InsertAll(s, placed)
    decreases |placed|
  {
    if placed != [] {
      var i, y := placed[0].index, placed[0].response;
      hide InsertAt;
      InsertAtBehind(x, s, i, y);
      assert Shift(placed)[1..] == Shift(placed[1..]);
      InsertAllBehind(x, InsertAt(s, i, y), placed[1..]);
    }
  }

  lemma {:induction false} InsertAllLength(s: seq<ActionResponse>, placed: seq<Placed>)
    ensures |InsertAll(s, placed)| == |s| + |placed|
    decreases |placed|
  {
    if placed != [] { InsertAllLength(InsertAt(s, placed[0].index, placed[0].response), placed[1..]); }
  }

  lemma {:induction false} NothingPlaced(b: Plain, m: Mock, actions: seq<Request>, i: nat)
    ensures PlacedFrom(b, m, actions, i, true) == [] <==> !AnyMocked(m, actions)
    decreases |actions|
  {
    if actions != [] {
      NothingPlaced(b, m, actions[1..], i + 1);
      assert forall k :: 1 <= k < |actions| ==> actions[k] == actions[1..][k - 1];
    }
  }

  function Merged(served: seq<ActionResponse>, placed: seq<Placed>, cont: bool): seq<ActionResponse> {
    MergeInto(JobResponse([], served), placed, [], cont).actions
  }

  /** A first response stays first, and hides the rest if it is an error that is not continued on. */
  lemma MergedBehind(r: ActionResponse, served: seq<ActionResponse>, placed: seq<Placed>, cont: bool)
    ensures Merged([r] + served, Shift(placed), cont)
         == [r] + if r.errors != [] && !cont then [] else Merged(served, placed, cont)
  {
    InsertAllBehind(r, served, placed);
    assert ([r] + InsertAll(served, placed))[1..] == InsertAll(served, placed);
  }

  lemma SplitOfMocked(b: Plain, m: Mock, actions: seq<Request>, cont: bool)
    requires actions != [] && m.Takes(actions[0])
    ensures
      var r := b.response(actions[0]);
      RunSplit(b, m, actions, cont) == [r] + if r.errors != [] && !cont then [] else RunSplit(b, m, actions[1..], cont)
  {
    hide ThroughFirstError;
    var r, others := b.response(actions[0]), actions[1..];
    var served, placed := RunWhole(b, Forwarded(m, others), cont), PlacedFrom(b, m, others, 0, cont);
    PlacedFromShifts(b, m, others, 0, cont);
    assert [] + Forwarded(m, others) == Forwarded(m, others);
    assert InsertAt(served, 0, r) == [r] + served;
    var all := PlacedFrom(b, m, actions, 0, cont);
    assert all[1..] == if r.errors != [] && !cont then [] else Shift(placed);
    assert InsertAll(served, all) == InsertAll([r] + served, all[1..]);
    MergedBehind(r, served, if r.errors != [] && !cont then [] else placed, cont);
  }

  lemma SplitOfServed(b: Plain, m: Mock, actions: seq<Request>, cont: bool)
    requires actions != [] && !m.Takes(actions[0])
    ensures
      var r := b.response(actions[0]);
      RunSplit(b, m, actions, cont) == [r] + (
        if r.errors != [] && !cont then []
        else if b.interrupted(actions[0]) then Merged([], PlacedFrom(b, m, actions[1..], 0, cont), cont)
        else RunSplit(b, m, actions[1..], cont))
  {
    hide ThroughFirstError;
    var r, others := b.response(actions[0]), actions[1..];
    PlacedFromShifts(b, m, others, 0, cont);
    assert ([actions[0]] + Forwarded(m, others))[1..] == Forwarded(m, others);
    var ended := b.interrupted(actions[0]) || (r.errors != [] && !cont);
    var served := if ended then [] else RunWhole(b, Forwarded(m, others), cont);
    MergedBehind(r, served, PlacedFrom(b, m, others, 0, cont), cont);
  }

  /** Split and merged, the job has exactly the action responses of the unsplit job; the one exception, with its exact
      condition, is a job that continues on errors and in which a mocked action follows one the server was interrupted
      in, because the mock knows nothing of the interruption. */
  lemma {:induction false} SplitEqualsWhole(b: Plain, m: Mock, actions: seq<Request>, cont: bool)
    requires Describes(b, m)
    ensures RunSplit(b, m, actions, cont) == RunWhole(b, actions, cont)
       <==> !(cont && MockedAfterInterrupt(b, m, actions))
    decreases |actions|
  {
    hide MockedAfterInterrupt, AnyMocked;
    if actions == [] {
      NoneAfterInterrupt(b, m);
    } else {
      hide RunSplit;
      var others := actions[1..];
      SplitEqualsWhole(b, m, others, cont);
      InterruptsAfterFirst(b, m, actions);
      var r := b.response(actions[0]);
      SameBehind(r, RunSplit(b, m, others, cont), RunWhole(b, others, cont));
      if m.Takes(actions[0]) {
        SplitOfMocked(b, m, actions, cont);
        assert !b.interrupted(actions[0]);
      } else {
        SplitOfServed(b, m, actions, cont);
        InsertAllLength([], PlacedFrom(b, m, others, 0, cont));
        NothingPlaced(b, m, others, 0);
        AfterInterruptIsMocked(b, m, others);
      }
    }
  }

  lemma SameBehind<T>(x: T, s: seq<T>, t: seq<T>)
    ensures [x] + s == [x] + t <==> s == t
  {
    assert ([x] + s)[1..] == s && ([x] + t)[1..] == t;
  }

  lemma NoneAfterInterrupt(b: Plain, m: Mock)
    ensures !MockedAfterInterrupt(b, m, [])
  {
  }

  lemma AfterInterruptIsMocked(b: Plain, m: Mock, actions: seq<Request>)
    ensures MockedAfterInterrupt(b, m, actions) ==> AnyMocked(m, actions)
  {
  }

  lemma InterruptsAfterFirst(b: Plain, m: Mock, actions: seq<Request>)
    requires actions != []
    ensures MockedAfterInterrupt(b, m, actions)
       <==> (b.interrupted(actions[0]) && AnyMocked(m, actions[1..])) || MockedAfterInterrupt(b, m, actions[1..])
  {
    var others := actions[1..];
    assert forall k :: 1 <= k < |actions| ==> actions[k] == others[k - 1];
    if b.interrupted(actions[0]) && AnyMocked(m, others) {
      var k :| 0 <= k < |others| && m.Takes(others[k]);
      assert m.Takes(actions[k + 1]);
    }
    if MockedAfterInterrupt(b, m, others) {
      var i, j :| 0 <= i < j < |others| && b.interrupted(others[i]) && m.Takes(others[j]);
      assert b.interrupted(actions[i + 1]) && m.Takes(actions[j + 1]);
    }
  }

  /** A server whose actions end as `b` says, whatever their position, and none of which fails the job. */
  ghost predicate Serves(s: Server, b: Plain) {
    forall i, q ::
      && s.ResponseOf(i, q) == b.response(q) && !s.FailsJob(i, q)
      && (s.EndingOf(i, q).Harakiri? <==> b.interrupted(q))
  }

  /** What `ExecuteJob` responds, as its contract describes it, is `RunWhole`. */
  lemma {:induction false} ExecutedFrom(s: Server, b: Plain, actions: seq<Request>, cont: bool,
                                        rs: seq<ActionResponse>, k: nat)
    requires Serves(s, b) && Responds(s, actions, cont, rs) && k <= |rs|
    requires k == |rs| ==> k == |actions| || k == 0
    ensures rs[k..] == RunWhole(b, actions[k..], cont)
    decreases |rs| - k
  {
    if k < |rs| {
      var q := actions[k];
      assert rs[k] == s.ResponseOf(k, q) == b.response(q);
      assert actions[k..][0] == q && actions[k..][1..] == actions[k + 1..];
      assert rs[k..] == [rs[k]] + rs[k + 1..];
      if k + 1 == |rs| && |rs| < |actions| {
        assert s.Stops(k, q, cont) && rs[k + 1..] == [];
      } else {
        assert k + 1 < |rs| ==> !s.Stops(k, q, cont);
        if k + 1 < |rs| || k + 1 == |actions| { ExecutedFrom(s, b, actions, cont, rs, k + 1); }
      }
    }
  }

  /** The two halves the stub really keeps and gets: what the mock loop holds for the job, and what the server responds
      to the forwarded requests. Merged, they are the whole job's response, under the same exact condition. */
  lemma MergedJobIsWhole(b: Plain, m: Mock, s: Server, actions: seq<Request>, cont: bool, rs: seq<ActionResponse>)
    requires Describes(b, m) && Serves(s, b)
    requires Responds(s, Forwarded(m, actions), cont, rs)
    ensures
      var held := MockAll(m, actions, cont);
      && held.Part? && held.errors == []
      && (MergeInto(JobResponse([], rs), held.placed, [], cont) == JobResponse([], RunWhole(b, actions, cont))
          <==> !(cont && MockedAfterInterrupt(b, m, actions)))
  {
    hide RanThrough, MockedAfterInterrupt, RunWhole, PlacedFrom, MockFrom;
    var fs := Forwarded(m, actions);
    ExecutedFrom(s, b, fs, cont, rs, 0);
    assert rs[0..] == rs && fs[0..] == fs;
    MockFromPlaces(b, m, actions, 0, cont, Progress([], [], None));
    assert [] + PlacedFrom(b, m, actions, 0, cont) == PlacedFrom(b, m, actions, 0, cont);
    SplitEqualsWhole(b, m, actions, cont);
  }

  function ExamplePlain(): Plain {
    Plain((q: Request) => ActionResponse(q.action, if q.action == "slow" then [TIMED_OUT] else [], ""),
          (q: Request) => q.action == "slow")
  }

  function ExampleMock(): Mock {
    Mock(true, "stubbed", (q: Request) => MockResponse(ActionResponse(q.action, [], "")))
  }

  /** The server is interrupted in the first action and runs no other; the stub answers the second all the same. */
  lemma ExampleAfterInterrupt()
    ensures
      var actions := [Request("slow", ""), Request("stubbed", "")];
      && Describes(ExamplePlain(), ExampleMock())
      && |RunWhole(ExamplePlain(), actions, true)| == 1 && |RunSplit(ExamplePlain(), ExampleMock(), actions, true)| == 2
  {
    var actions := [Request("slow", ""), Request("stubbed", "")];
    var b, m := ExamplePlain(), ExampleMock();
    assert actions[1..] == [Request("stubbed", "")] && actions[1..][1..] == [];
    assert Forwarded(m, actions[1..]) == [] && Forwarded(m, actions) == [actions[0]];
    assert |RunWhole(b, [actions[0]], true)| == 1;
    assert |PlacedFrom(b, m, actions[1..], 1, true)| == 1 == |PlacedFrom(b, m, actions, 0, true)|;
    InsertAllLength(RunWhole(b, Forwarded(m, actions), true), PlacedFrom(b, m, actions, 0, true));
  }

  /** A job that is stubbed altogether is answered as a server running the mock's answers would. */
  lemma {:induction false} HeldJobIsWhole(b: Plain, m: Mock, actions: seq<Request>, i: nat, cont: bool)
    requires Describes(b, m) && Forwarded(m, actions) == []
    ensures Responses(PlacedFrom(b, m, actions, i, cont)) == RunWhole(b, actions, cont)
    decreases |actions|
  {
    if actions != [] {
      HeldJobIsWhole(b, m, actions[1..], i + 1, cont);
      assert m.Takes(actions[0]) && !b.interrupted(actions[0]);
    }
  }

  function Responses(placed: seq<Placed>): seq<ActionResponse> {
    seq(|placed|, k requires 0 <= k < |placed| => placed[k].response)
  }

  // ------------------------------------------------------------------ the stub's books for one service

  /** The stub job a wrapped request belongs to. */
  datatype Link = Link(id: nat, cont: bool)

  datatype Arrival = Arrival(id: nat, response: JobResponse)

  function Ids(s: seq<Arrival>): set<nat> { set a | a in s :: a.id }

  lemma IdsOfNone()
    ensures Ids([]) == {}
  {
  }

  lemma IdsSnoc(s: seq<Arrival>, a: Arrival)
    ensures Ids(s + [a]) == Ids(s) + {a.id}
  {
    assert forall b :: b in s + [a] <==> b in s || b == a;
  }

  /** The stub jobs that a series of responses completes. */
  function MergedIds(t: map<nat, Link>, s: seq<Arrival>): set<nat> { set a | a in s && a.id in t :: t[a.id].id }

  lemma MergedIdsSnoc(t: map<nat, Link>, s: seq<Arrival>, a: Arrival)
    ensures MergedIds(t, s + [a]) == MergedIds(t, s) + if a.id in t then {t[a.id].id} else {}
  {
    assert forall b :: b in s + [a] <==> b in s || b == a;
  }

  class ServiceStub {
    const mock: Mock
    var outstanding: map<nat, Stubbed>  // by stub request ID
    var toMerge: map<nat, Link>         // by the wrapped client's request ID

    /** Every merge that is still due has its stubbed half, and no two share one. */
    ghost predicate Valid()
      reads this
    {
      && (forall w :: w in toMerge ==> toMerge[w].id in outstanding)
      && (forall w, x :: w in toMerge && x in toMerge && w != x ==> toMerge[w].id != toMerge[x].id)
    }

    constructor (mock: Mock)
      ensures Valid() && this.mock == mock && outstanding == map[] && toMerge == map[]
    {
      this.mock, outstanding, toMerge := mock, map[], map[];
    }

    /** `wrapped_send_request`: `stubId` is the stub counter's next number, `wrappedId` what the wrapped client returns
        for the forwarded requests, if there are any. */
    method Send(actions: seq<Request>, cont: bool, stubId: nat, wrappedId: nat)
      returns (requestId: nat, forwarded: seq<Request>)
      requires Valid() && stubId !in outstanding && wrappedId !in toMerge
      modifies this
      ensures Valid() && forwarded == Forwarded(mock, actions)
      ensures forwarded != [] && !AnyMocked(mock, actions) ==>
                requestId == wrappedId && outstanding == old(outstanding) && toMerge == old(toMerge)
      ensures forwarded == [] || AnyMocked(mock, actions) ==>
                && requestId == stubId
                && outstanding == old(outstanding)[stubId := MockAll(mock, actions, cont)]
                && toMerge == if forwarded == [] then old(toMerge) else old(toMerge)[wrappedId := Link(stubId, cont)]
    {
      hide Forwarded, AnyMocked, MockAll;
      var anyMocked;
      forwarded, anyMocked := SplitRequests(mock, actions);
      if forwarded != [] && !anyMocked { return wrappedId, forwarded; }
      if forwarded != [] { toMerge := toMerge[wrappedId := Link(stubId, cont)]; }
      outstanding := outstanding[stubId := MockAll(mock, actions, cont)];
      requestId := stubId;
    }

    /** What the caller gets for one response of the wrapped client. */
    ghost function Delivered(a: Arrival): Option<Arrival>
      reads this
      requires Valid()
    {
      if a.id !in toMerge then Some(a)
      else
        var link := toMerge[a.id];
        match outstanding[link.id]
        case TransportError(_) => None
        case Part(placed, errors) => Some(Arrival(link.id, MergeInto(a.response, placed, errors, link.cont)))
    }

    /** One response of the wrapped client: delivered as it is, or merged with its stubbed half, which is then done
        with; a stubbed transport error is raised instead (`None`). */
    method Deliver(a: Arrival) returns (r: Option<Arrival>)
      requires Valid()
      modifies this
      ensures Valid() && r == old(Delivered(a))
      ensures a.id !in old(toMerge) ==> toMerge == old(toMerge) && outstanding == old(outstanding)
      ensures a.id in old(toMerge) ==>
                && toMerge == old(toMerge) - {a.id}
                && outstanding == old(outstanding) - {old(toMerge)[a.id].id}
    {
      if a.id !in toMerge { return Some(a); }
      var link := toMerge[a.id];
      var part := outstanding[link.id];
      toMerge, outstanding := toMerge - {a.id}, outstanding - {link.id};
      match part {
        case TransportError(_) => return None;
        case Part(placed, errors) =>
          var merged := Merge(a.response, placed, errors, link.cont);
          return Some(Arrival(link.id, merged));
      }
    }

    /** The first loop of `wrapped_get_all_responses`, over the wrapped client's responses in whatever order they came.
        `ok` is false when a stubbed transport error was raised. Each response is delivered as its own job's stubbed
        half says, independently of the others. */
    method DeliverAll(arrivals: seq<Arrival>) returns (ok: bool, delivered: seq<Arrival>)
      requires Valid() && forall i, j :: 0 <= i < j < |arrivals| ==> arrivals[i].id != arrivals[j].id
      modifies this
      ensures Valid() && |delivered| <= |arrivals| && (ok ==> |delivered| == |arrivals|)
      ensures forall k :: 0 <= k < |delivered| ==> old(Delivered(arrivals[k])) == Some(delivered[k])
      ensures !ok ==> |delivered| < |arrivals| && old(Delivered(arrivals[|delivered|])).None?
      ensures ok ==> && toMerge == old(toMerge) - Ids(arrivals)
                     && outstanding == old(outstanding)
                          - MergedIds(old(toMerge), arrivals)
    {
      hide MergeInto;
      delivered := [];
      IdsOfNone();
      ghost var o: map<nat, Stubbed>, t: map<nat, Link> := outstanding, toMerge;
      assert forall w, x :: w in t && x in t && w != x ==> t[w].id != t[x].id;
      for k := 0 to |arrivals|
        invariant Valid() && |delivered| == k
        invariant forall j :: 0 <= j < k ==> old(Delivered(arrivals[j])) == Some(delivered[j])
        invariant toMerge == t - Ids(arrivals[..k])
        invariant outstanding == o - MergedIds(t, arrivals[..k])
      {
        var a := arrivals[k];
        assert arrivals[..k + 1] == arrivals[..k] + [a];
        IdsSnoc(arrivals[..k], a);
        MergedIdsSnoc(t, arrivals[..k], a);
        assert forall b :: b in arrivals[..k] ==> b.id != a.id;
        assert a.id in t ==> t[a.id].id !in MergedIds(t, arrivals[..k]);
        assert Delivered(a) == old(Delivered(a));
        var r := Deliver(a);
        if r.None? { return false, delivered; }
        delivered := delivered + [r.value];
      }
      assert arrivals[..|arrivals|] == arrivals;
      ok := true;
    }

    /** The rest of `wrapped_get_all_responses`: `None` when merges are still due or a held transport error is raised;
        else every job that never went to the wrapped client, each once, in some order. */
    method DeliverHeld() returns (r: Option<seq<Arrival>>)
      requires Valid()
      modifies this
      ensures Valid()
      ensures old(toMerge) != map[] ==> r.None? && outstanding == old(outstanding) && toMerge == old(toMerge)
      ensures r.Some? <==> old(toMerge) == map[] && forall id :: id in old(outstanding) ==> old(outstanding)[id].Part?
      ensures r.Some? ==>
                && outstanding == map[]
                && Ids(r.value) == old(outstanding).Keys && |r.value| == |old(outstanding)|
                && (forall a :: a in r.value ==>
                      a.id in old(outstanding) && a.response == HeldResponse(old(outstanding)[a.id]))
    {
      if toMerge != map[] { return None; }
      hide Ids, HeldResponse;
      var delivered: seq<Arrival> := [];
      IdsOfNone();
      ghost var o := outstanding;
      var left := outstanding.Keys;
      while left != {}
        invariant toMerge == map[] && left == outstanding.Keys && left <= o.Keys
        invariant forall id :: id in left ==> outstanding[id] == o[id]
        invariant Ids(delivered) == o.Keys - left && |delivered| + |left| == |o.Keys|
        invariant forall id :: id in o && id !in left ==> o[id].Part?
        invariant forall a :: a in delivered ==> a.id in o && a.response == HeldResponse(o[a.id])
        decreases left
      {
        var id :| id in left;
        var held := outstanding[id];
        left, outstanding := left - {id}, outstanding - {id};
        if held.TransportError? { return None; }
        IdsSnoc(delivered, Arrival(id, HeldResponse(held)));
        delivered := delivered + [Arrival(id, HeldResponse(held))];
      }
      return Some(delivered);
    }
  }

  /** The response of a job that was stubbed altogether. */
  function HeldResponse(x: Stubbed): JobResponse {
    match x
    case Part(placed, errors) => JobResponse(errors, Responses(placed))
    case TransportError(_) => JobResponse([], [])
  }
}
