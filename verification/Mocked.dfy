/** What a stub holds for a job and delivers for it, told from the job's requests and the mock's answers alone. */
module Mocked {
  import opened ByteText
  import opened Jobs
  import opened Stub

  // ------------------------------------------------------------------ what the mock is asked

  /** The k-th request is for the stubbed action. */
  predicate IsMocked(m: Mock, actions: seq<Request>, k: nat) {
    k < |actions| && m.sameService && actions[k].action == m.action
  }

  /** The action response in the mock's answer. */
  function AnswerOf(m: Mock, q: Request): Option<ActionResponse> {
    match m.run(q)
    case MockResponse(r) => Some(r)
    case MockJobResponse(_, r) => Some(r)
    case MockActionError(errors) => Some(ActionResponse(m.action, errors, ""))
    case MockJobError(_) => None
    case MockTransportError(_) => None
  }

  /** The job errors in it. */
  function JobErrorsOf(m: Mock, q: Request): seq<Error> {
    match m.run(q)
    case MockJobResponse(errors, _) => errors
    case MockJobError(errors) => errors
    case _ => []
  }

  /** No mock is asked after this answer. */
  predicate Ends(m: Mock, q: Request, cont: bool) {
    JobErrorsOf(m, q) != [] || (!cont && AnswerOf(m, q).Some? && AnswerOf(m, q).value.errors != [])
  }

  predicate Asked(m: Mock, actions: seq<Request>, cont: bool, k: nat) {
    IsMocked(m, actions, k) && forall j :: 0 <= j < k && IsMocked(m, actions, j) ==> !Ends(m, actions[j], cont)
  }

  // ------------------------------------------------------------------ what is held

  /** The last transport error of the mock. */
  ghost predicate LastTransportError(m: Mock, actions: seq<Request>, cont: bool, n: nat, e: string) {
    exists k: nat :: k < n && Asked(m, actions, cont, k) && m.run(actions[k]) == MockTransportError(e)
                     && forall j :: k < j < n && Asked(m, actions, cont, j) ==> !m.run(actions[j]).MockTransportError?
  }

  predicate NoTransportError(m: Mock, actions: seq<Request>, cont: bool, n: nat) {
    forall k :: 0 <= k < n && Asked(m, actions, cont, k) ==> !m.run(actions[k]).MockTransportError?
  }

  /** Exactly the mock's action responses, each at its request's index and in order. */
  ghost predicate Places(m: Mock, actions: seq<Request>, cont: bool, n: nat, placed: seq<Placed>) {
    && (forall i, j :: 0 <= i < j < |placed| ==> placed[i].index < placed[j].index)
    && (forall x :: x in placed <==>
          x.index < n && Asked(m, actions, cont, x.index) && AnswerOf(m, actions[x.index]) == Some(x.response))
  }

  /** The errors of the one answer that has any, else none. */
  predicate HasJobErrors(m: Mock, actions: seq<Request>, cont: bool, n: nat, errors: seq<Error>) {
    && (forall k :: 0 <= k < n && Asked(m, actions, cont, k) && JobErrorsOf(m, actions[k]) != [] ==>
          errors == JobErrorsOf(m, actions[k]))
    && ((forall k :: 0 <= k < n && Asked(m, actions, cont, k) ==> JobErrorsOf(m, actions[k]) == []) ==> errors == [])
  }

  ghost predicate IsHalf(m: Mock, actions: seq<Request>, cont: bool, held: Stubbed) {
    var n := |actions|;
    match held
    case TransportError(e) => LastTransportError(m, actions, cont, n, e)
    case Part(placed, errors) =>
      && NoTransportError(m, actions, cont, n)
      && Places(m, actions, cont, n, placed) && HasJobErrors(m, actions, cont, n, errors)
  }

  /** The same for the first `n` requests. */
  ghost predicate UpTo(m: Mock, actions: seq<Request>, cont: bool, n: nat, p: Progress) {
    && Places(m, actions, cont, n, p.placed) && HasJobErrors(m, actions, cont, n, p.errors)
    && (if p.transport.Some? then LastTransportError(m, actions, cont, n, p.transport.value)
        else NoTransportError(m, actions, cont, n))
  }

  /** No answer so far was the last. */
  predicate Going(m: Mock, actions: seq<Request>, cont: bool, n: nat) {
    forall k :: 0 <= k < n && IsMocked(m, actions, k) ==> !Ends(m, actions[k], cont)
  }

  lemma OneAnswer(m: Mock, actions: seq<Request>, cont: bool, i: nat, p: Progress)
    requires i < |actions| && UpTo(m, actions, cont, i, p) && Going(m, actions, cont, i) && IsMocked(m, actions, i)
    ensures
      var s := MockOne(m, actions[i], i, cont, p);
      UpTo(m, actions, cont, i + 1, s.progress) && (s.stop <==> Ends(m, actions[i], cont))
  {
    hide IsMocked, UpTo;
    assert Asked(m, actions, cont, i);
    AnswerPlaced(m, actions, cont, i, p);
    AnswerErrors(m, actions, cont, i, p);
    AnswerTransport(m, actions, cont, i, p);
    FromParts(m, actions, cont, i + 1, MockOne(m, actions[i], i, cont, p).progress);
  }

  lemma FromParts(m: Mock, actions: seq<Request>, cont: bool, n: nat, p: Progress)
    requires Places(m, actions, cont, n, p.placed) && HasJobErrors(m, actions, cont, n, p.errors)
    requires if p.transport.Some? then LastTransportError(m, actions, cont, n, p.transport.value)
             else NoTransportError(m, actions, cont, n)
    ensures UpTo(m, actions, cont, n, p)
  {
  }

  lemma AnswerPlaced(m: Mock, actions: seq<Request>, cont: bool, i: nat, p: Progress)
    requires i < |actions| && UpTo(m, actions, cont, i, p) && Asked(m, actions, cont, i)
    ensures Places(m, actions, cont, i + 1, MockOne(m, actions[i], i, cont, p).progress.placed)
  {
    hide Asked, HasJobErrors, LastTransportError, NoTransportError;
    var placed, more := p.placed, MockOne(m, actions[i], i, cont, p).progress.placed;
    var a := AnswerOf(m, actions[i]);
    assert more == if a.Some? then placed + [Placed(i, a.value)] else placed;
    assert forall x :: x in placed ==> x.index < i;
    forall k | 0 <= k < |placed| ensures placed[k].index < i { assert placed[k] in placed; }
    forall x
      ensures x in more <==>
              x.index < i + 1 && Asked(m, actions, cont, x.index) && AnswerOf(m, actions[x.index]) == Some(x.response)
    {
      assert x in more <==> x in placed || (a.Some? && x == Placed(i, a.value));
    }
  }

  lemma AnswerErrors(m: Mock, actions: seq<Request>, cont: bool, i: nat, p: Progress)
    requires i < |actions| && UpTo(m, actions, cont, i, p) && Going(m, actions, cont, i) && Asked(m, actions, cont, i)
    ensures
      var s := MockOne(m, actions[i], i, cont, p);
      HasJobErrors(m, actions, cont, i + 1, s.progress.errors) && (s.stop <==> Ends(m, actions[i], cont))
  {
    hide Places, LastTransportError, NoTransportError;
    assert forall k :: 0 <= k < i && Asked(m, actions, cont, k) ==> IsMocked(m, actions, k);
    assert p.errors == [];
    assert [] + JobErrorsOf(m, actions[i]) == JobErrorsOf(m, actions[i]);
  }

  lemma AnswerTransport(m: Mock, actions: seq<Request>, cont: bool, i: nat, p: Progress)
    requires i < |actions| && UpTo(m, actions, cont, i, p) && Asked(m, actions, cont, i)
    ensures
      var t := MockOne(m, actions[i], i, cont, p).progress.transport;
      if t.Some? then LastTransportError(m, actions, cont, i + 1, t.value)
      else NoTransportError(m, actions, cont, i + 1)
  {
    hide Asked, Places, HasJobErrors;
  }

  lemma SkipOne(m: Mock, actions: seq<Request>, cont: bool, i: nat, p: Progress)
    requires UpTo(m, actions, cont, i, p) && !Asked(m, actions, cont, i)
    ensures UpTo(m, actions, cont, i + 1, p)
  {
    hide AnswerOf, JobErrorsOf, Ends, IsMocked;
    assert forall k: nat :: k < i + 1 && Asked(m, actions, cont, k) ==> k < i;
  }

  lemma {:induction false} SkipRest(m: Mock, actions: seq<Request>, cont: bool, i: nat, p: Progress)
    requires i <= |actions| && UpTo(m, actions, cont, i, p)
    requires forall k: nat :: k >= i ==> !Asked(m, actions, cont, k)
    ensures UpTo(m, actions, cont, |actions|, p)
    decreases |actions| - i
  {
    hide Asked, UpTo;
    if i < |actions| {
      SkipOne(m, actions, cont, i, p);
      SkipRest(m, actions, cont, i + 1, p);
    }
  }

  lemma {:induction false} HalfFrom(m: Mock, actions: seq<Request>, cont: bool, i: nat, p: Progress)
    requires i <= |actions| && UpTo(m, actions, cont, i, p) && Going(m, actions, cont, i)
    ensures UpTo(m, actions, cont, |actions|, MockFrom(m, actions[i..], i, cont, p))
    decreases |actions| - i
  {
    hide UpTo, Ends, MockOne;
    if i < |actions| {
      assert actions[i..][0] == actions[i] && actions[i..][1..] == actions[i + 1..];
      if !IsMocked(m, actions, i) {
        SkipOne(m, actions, cont, i, p);
        HalfFrom(m, actions, cont, i + 1, p);
      } else {
        var s := MockOne(m, actions[i], i, cont, p);
        OneAnswer(m, actions, cont, i, p);
        if s.stop {
          assert forall k: nat :: k >= i + 1 ==> !Asked(m, actions, cont, k);
          SkipRest(m, actions, cont, i + 1, s.progress);
        } else {
          HalfFrom(m, actions, cont, i + 1, s.progress);
        }
      }
    }
  }

  lemma NothingAsked(m: Mock, actions: seq<Request>, cont: bool)
    ensures UpTo(m, actions, cont, 0, Progress([], [], None))
  {
  }

  /** What the stub holds for a job: an answer with job errors, or with action errors that are not continued on, is the
      last one asked for; all action responses are placed, the job errors are those of that answer, and a transport
      error stands for everything. */
  lemma HeldIsHalf(m: Mock, actions: seq<Request>, cont: bool)
    ensures IsHalf(m, actions, cont, MockAll(m, actions, cont))
  {
    hide UpTo, MockFrom, Places, HasJobErrors, LastTransportError, NoTransportError;
    NothingAsked(m, actions, cont);
    assert actions[0..] == actions;
    HalfFrom(m, actions, cont, 0, Progress([], [], None));
    ToParts(m, actions, cont, MockFrom(m, actions, 0, cont, Progress([], [], None)));
  }

  lemma ToParts(m: Mock, actions: seq<Request>, cont: bool, p: Progress)
    requires UpTo(m, actions, cont, |actions|, p)
    ensures IsHalf(m, actions, cont, p.Result())
  {
    hide Places, HasJobErrors, LastTransportError, NoTransportError;
  }

  // ------------------------------------------------------------------ what is delivered

  /** The job errors that the mock's answers come to. */
  function MockedErrors(m: Mock, actions: seq<Request>, cont: bool): seq<Error> {
    match MockAll(m, actions, cont)
    case Part(_, errors) => errors
    case TransportError(_) => []
  }

  /** The first answer with job errors decides the job: its errors, after the server's, are those of the response. */
  lemma JobErrorsDelivered(m: Mock, actions: seq<Request>, cont: bool, k: nat, served: JobResponse)
    requires Asked(m, actions, cont, k) && JobErrorsOf(m, actions[k]) != []
    requires NoTransportError(m, actions, cont, |actions|)
    ensures
      var held := MockAll(m, actions, cont);
      && held.Part? && (forall x :: x in held.placed ==> x.index <= k)
      && HeldResponse(held).errors == JobErrorsOf(m, actions[k])
      && MergeInto(served, held.placed, held.errors, cont).errors == served.errors + JobErrorsOf(m, actions[k])
  {
    hide MockAll, AnswerOf, JobErrorsOf;
    HeldIsHalf(m, actions, cont);
  }

  /** Without such an answer the response has the server's errors only. */
  lemma NoJobErrorsDelivered(m: Mock, actions: seq<Request>, cont: bool, served: JobResponse)
    requires NoTransportError(m, actions, cont, |actions|)
    requires forall k :: 0 <= k < |actions| && Asked(m, actions, cont, k) ==> JobErrorsOf(m, actions[k]) == []
    ensures
      var held := MockAll(m, actions, cont);
      && held.Part? && HeldResponse(held).errors == []
      && MergeInto(served, held.placed, held.errors, cont).errors == served.errors
  {
    hide MockAll, AnswerOf, JobErrorsOf;
    HeldIsHalf(m, actions, cont);
  }

  lemma NotAskedAfter(m: Mock, actions: seq<Request>, cont: bool, k: nat, j: nat)
    requires Asked(m, actions, cont, k) && Ends(m, actions[k], cont)
    ensures j > k ==> !Asked(m, actions, cont, j)
  {
  }

  /** An action response with errors that are not continued on is placed, and is the last one placed. */
  lemma ActionErrorIsLast(m: Mock, actions: seq<Request>, k: nat)
    requires Asked(m, actions, false, k) && NoTransportError(m, actions, false, |actions|)
    requires AnswerOf(m, actions[k]).Some? && AnswerOf(m, actions[k]).value.errors != []
    ensures
      var held := MockAll(m, actions, false);
      held.Part? && held.placed != [] && held.placed[|held.placed| - 1] == Placed(k, AnswerOf(m, actions[k]).value)
  {
    hide MockAll, AnswerOf, JobErrorsOf;
    HeldIsHalf(m, actions, false);
    var placed := MockAll(m, actions, false).placed;
    var x := Placed(k, AnswerOf(m, actions[k]).value);
    assert x in placed;
    var i :| 0 <= i < |placed| && placed[i] == x;
    var y := placed[|placed| - 1];
    assert y in placed;
    NotAskedAfter(m, actions, false, k, y.index);
  }

  /** A transport error of the mock makes the delivery raise, for a job that went to the server and for one that did
      not. */
  lemma TransportErrorRaises(stub: ServiceStub, j: seq<Request>, cont: bool, k: nat, a: Arrival)
    requires Asked(stub.mock, j, cont, k) && stub.mock.run(j[k]).MockTransportError?
    ensures MockAll(stub.mock, j, cont).TransportError?
    ensures (stub.Valid() && a.id in stub.toMerge
             && stub.outstanding[stub.toMerge[a.id].id] == MockAll(stub.mock, j, cont)) ==> stub.Delivered(a).None?
  {
    hide MockAll, AnswerOf, JobErrorsOf;
    HeldIsHalf(stub.mock, j, cont);
  }

  /** A job of the stubbed action alone, whose mock raises a job error, is answered with that error. */
  lemma ExampleJobError()
    ensures
      var m := Mock(true, "stubbed", (q: Request) => MockJobError(["boom"]));
      HeldResponse(MockAll(m, [Request("stubbed", "")], false)) == JobResponse(["boom"], [])
  {
    var m := Mock(true, "stubbed", (q: Request) => MockJobError(["boom"]));
    assert MockOne(m, Request("stubbed", ""), 0, false, Progress([], [], None)).progress.errors == ["boom"];
  }

  // ------------------------------------------------------------------ what is forwarded and merged

  /** The requests that are not for the stubbed action, in order. */
  lemma {:induction false} ForwardedAre(m: Mock, actions: seq<Request>) returns (at: seq<nat>)
    ensures |at| == |Forwarded(m, actions)| && forall i, j :: 0 <= i < j < |at| ==> at[i] < at[j]
    ensures forall i :: 0 <= i < |at| ==> at[i] < |actions| && Forwarded(m, actions)[i] == actions[at[i]]
    ensures forall k :: 0 <= k < |actions| ==> (k in at <==> !IsMocked(m, actions, k))
  {
    at := [];
    var i := 0;
    assert actions[0..] == actions;
    ghost var done: seq<Request> := [];
    while i < |actions|
      invariant i <= |actions| && done + Forwarded(m, actions[i..]) == Forwarded(m, actions) && |at| == |done|
      invariant forall x, y :: 0 <= x < y < |at| ==> at[x] < at[y]
      invariant forall x :: 0 <= x < |at| ==> at[x] < i && done[x] == actions[at[x]]
      invariant forall k :: 0 <= k < i ==> (k in at <==> !IsMocked(m, actions, k))
    {
      assert actions[i..][0] == actions[i] && actions[i..][1..] == actions[i + 1..];
      if !IsMocked(m, actions, i) {
        var rest := Forwarded(m, actions[i + 1..]);
        assert done + ([actions[i]] + rest) == done + [actions[i]] + rest;
        at, done := at + [i], done + [actions[i]];
      } else {
        assert [] + Forwarded(m, actions[i + 1..]) == Forwarded(m, actions[i + 1..]);
      }
      i := i + 1;
    }
    assert done + [] == done;
  }

  /** The truncation keeps everything through the first response with errors. */
  lemma {:induction false} TruncationMeans(s: seq<ActionResponse>)
    ensures
      var r := ThroughFirstError(s);
      && |r| <= |s| && r == s[..|r|] && (forall k :: 0 <= k < |r| - 1 ==> r[k].errors == [])
      && (|r| < |s| ==> r != [] && r[|r| - 1].errors != [])
  {
    if s != [] && s[0].errors == [] { TruncationMeans(s[1..]); }
  }
}
