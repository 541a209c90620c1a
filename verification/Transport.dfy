/** The Redis client transport's count of outstanding requests, over every run of sends and receives. */
module Transport {
  import opened ByteText

  /** How the core ends a send or a receive. A timeout is a transient error with a case of its own; the other errors are
      not transient. A message carries a request ID and perhaps a body. */
  datatype SendEnd = Sent | SendTransient | SendRefused

  datatype ReceiveEnd =
    | Received(id: int, body: Option<string>)
    | TimedOut
    | ReceiveTransient
    | ReceiveInvalid

  /** What has happened on a transport; `Idle` is a receive that found nothing outstanding and did not wait. */
  datatype Event = DidSend(s: SendEnd) | DidReceive(r: ReceiveEnd) | Idle

  type History = seq<Event>

  /** A transport problem is on record: of the transient errors, timeouts and idle receives so far, the last one was a
      transient error. */
  predicate Problem(h: History) {
    if h == [] then false
    else
      match h[|h| - 1]
      case DidSend(SendTransient) => true
      case DidReceive(ReceiveTransient) => true
      case DidReceive(TimedOut) => false
      case Idle => false
      case _ => Problem(h[..|h| - 1])
  }

  /** A timeout that follows a recorded transport problem. */
  predicate ResetsAt(h: History, i: nat)
    requires i < |h|
  {
    h[i] == DidReceive(TimedOut) && Problem(h[..i])
  }

  /** A transient error with neither a timeout nor an idle receive after it. */
  predicate StandsAt(h: History, i: nat) {
    && i < |h| && (h[i] == DidSend(SendTransient) || h[i] == DidReceive(ReceiveTransient))
    && forall j :: i < j < |h| ==> h[j] != DidReceive(TimedOut) && h[j] != Idle
  }

  lemma {:induction false} ProblemMeans(h: History)
    ensures Problem(h) <==> exists i: nat :: StandsAt(h, i)
  {
    if h != [] {
      var front, e := h[..|h| - 1], h[|h| - 1];
      ProblemMeans(front);
      forall i: nat | i < |front|
        ensures StandsAt(h, i) <==> StandsAt(front, i) && e != DidReceive(TimedOut) && e != Idle
      {
        assert forall j :: 0 <= j < |front| ==> front[j] == h[j];
      }
      assert StandsAt(h, |front|) <==> e == DidSend(SendTransient) || e == DidReceive(ReceiveTransient);
      assert forall i: nat :: StandsAt(front, i) ==> i < |front|;
      assert forall i: nat :: StandsAt(h, i) ==> i < |front| || i == |front|;
    }
  }

  function SinceReset(h: History): History {
    if h == [] || ResetsAt(h, |h| - 1) then [] else SinceReset(h[..|h| - 1]) + [h[|h| - 1]]
  }

  function Sends(h: History): nat {
    if h == [] then 0 else Sends(h[..|h| - 1]) + if h[|h| - 1] == DidSend(Sent) then 1 else 0
  }

  function Receives(h: History): nat {
    if h == [] then 0
    else Receives(h[..|h| - 1]) + if h[|h| - 1].DidReceive? && h[|h| - 1].r.Received? then 1 else 0
  }

  /** `SinceReset` is the suffix after the last reset. */
  lemma {:induction false} SinceResetIsSuffix(h: History) returns (i: nat)
    ensures i <= |h| && SinceReset(h) == h[i..]
    ensures (i > 0 ==> ResetsAt(h, i - 1)) && forall j :: i <= j < |h| ==> !ResetsAt(h, j)
  {
    if h == [] || ResetsAt(h, |h| - 1) {
      i := |h|;
    } else {
      var front := h[..|h| - 1];
      i := SinceResetIsSuffix(front);
      assert h[i..] == front[i..] + [h[|h| - 1]];
      forall j | 0 <= j < |front| ensures ResetsAt(front, j) <==> ResetsAt(h, j) { assert front[..j] == h[..j]; }
    }
  }

  lemma Snoc(h: History, e: Event)
    ensures
      var h' := h + [e];
      && Problem(h') == (if e == DidSend(SendTransient) || e == DidReceive(ReceiveTransient) then true
                         else if e == DidReceive(TimedOut) || e == Idle then false else Problem(h))
      && SinceReset(h') == (if e == DidReceive(TimedOut) && Problem(h) then [] else SinceReset(h) + [e])
      && Sends(h') == Sends(h) + (if e == DidSend(Sent) then 1 else 0)
      && Receives(h') == Receives(h) + if e.DidReceive? && e.r.Received? then 1 else 0
  {
    assert (h + [e])[..|h|] == h;
  }

  class RedisClientTransport {
    var requestsOutstanding: int
    var previousErrorWasTransportProblem: bool
    ghost var history: History

    /** In every run: the count is the successful sends less the successful receives since the last reset, is never
        negative, and the flag says whether a problem is on record. */
    ghost predicate Valid()
      reads this
    {
      && requestsOutstanding == Sends(SinceReset(history)) - Receives(SinceReset(history))
      && requestsOutstanding >= 0
      && previousErrorWasTransportProblem == Problem(history)
    }

    constructor ()
      ensures Valid() && history == [] && requestsOutstanding == 0
    {
      requestsOutstanding, previousErrorWasTransportProblem, history := 0, false, [];
    }

    /** `send_request_message`: counted only when it succeeds. */
    method SendRequestMessage(end: SendEnd) returns (ok: bool)
      requires Valid()
      modifies this
      ensures Valid() && history == old(history) + [DidSend(end)] && (ok <==> end.Sent?)
      ensures requestsOutstanding == old(requestsOutstanding) + if ok then 1 else 0
    {
      Snoc(history, DidSend(end));
      Snoc(SinceReset(history), DidSend(end));
      history := history + [DidSend(end)];
      if end.Sent? {
        requestsOutstanding := requestsOutstanding + 1;
      } else if end.SendTransient? {
        previousErrorWasTransportProblem := true;
      }
      ok := end.Sent?;
    }

    /** `receive_response_message`: `None` when nothing is outstanding, else how the core ended the receive. The count
        is zeroed only by a timeout that follows a recorded problem. */
    method ReceiveResponseMessage(end: ReceiveEnd) returns (r: Option<ReceiveEnd>)
      requires Valid()
      modifies this
      ensures Valid() && r == if old(requestsOutstanding) > 0 then Some(end) else None
      ensures history == old(history) + [if r.Some? then DidReceive(end) else Idle]
      ensures requestsOutstanding ==
                if r.None? then old(requestsOutstanding)
                else if end.Received? then old(requestsOutstanding) - 1
                else if end.TimedOut? && old(Problem(history)) then 0
                else old(requestsOutstanding)
    {
      var e := if requestsOutstanding > 0 then DidReceive(end) else Idle;
      Snoc(history, e);
      Snoc(SinceReset(history), e);
      history := history + [e];
      if requestsOutstanding > 0 {
        match end {
          case Received(_, _) =>
            requestsOutstanding := requestsOutstanding - 1;
          case TimedOut =>
            if previousErrorWasTransportProblem {
              requestsOutstanding := 0;
              previousErrorWasTransportProblem := false;
            }
          case ReceiveTransient =>
            previousErrorWasTransportProblem := true;
          case ReceiveInvalid =>
        }
        return Some(end);
      }
      previousErrorWasTransportProblem := false;
      return None;
    }
  }

  datatype Response = Response(id: int, body: string)

  /** `get_all_responses` run to its end; `raised` says that the transport raised. It yields what was outstanding, one
      for one and in order, unless a receive fails or a message comes without a body. */
  method GetAllResponses(t: RedisClientTransport, ends: nat -> ReceiveEnd)
    returns (yielded: seq<Response>, raised: bool)
    requires t.Valid()
    modifies t
    ensures t.Valid() && |yielded| <= old(t.requestsOutstanding)
    ensures forall k :: 0 <= k < |yielded| ==> ends(k) == Received(yielded[k].id, Some(yielded[k].body))
    ensures raised ==> |yielded| < old(t.requestsOutstanding) && !ends(|yielded|).Received?
    ensures !raised && |yielded| < old(t.requestsOutstanding) ==>
              ends(|yielded|).Received? && ends(|yielded|).body.None?
              && t.requestsOutstanding == old(t.requestsOutstanding) - |yielded| - 1
    ensures !raised && |yielded| == old(t.requestsOutstanding) ==> t.requestsOutstanding == 0
    ensures (forall k :: 0 <= k < old(t.requestsOutstanding) ==> ends(k).Received? && ends(k).body.Some?) ==>
              !raised && |yielded| == old(t.requestsOutstanding)
  {
    yielded := [];
    while true
      invariant t.Valid() && t.requestsOutstanding == old(t.requestsOutstanding) - |yielded|
      invariant forall k :: 0 <= k < |yielded| ==> ends(k) == Received(yielded[k].id, Some(yielded[k].body))
      decreases t.requestsOutstanding
    {
      var r := t.ReceiveResponseMessage(ends(|yielded|));
      match r
      case None => return yielded, false;
      case Some(end) =>
        if !end.Received? { return yielded, true; }
        if end.body.None? { return yielded, false; }
        yielded := yielded + [Response(end.id, end.body.value)];
    }
  }
}
