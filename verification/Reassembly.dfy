/** Receiving the responses of jobs sent in parallel. */
module Reassembly {
  import opened ByteText
  import opened Jobs
  import opened Parallel

  datatype Event = Event(id: int, response: JobResponse)

  /** What a service's response stream yields, in order of arrival, and the transport error it ends in, if any. */
  datatype Stream = Stream(events: seq<Event>, failure: Option<Failure>)

  function EventIds(events: seq<Event>): set<int> { set e | e in events :: e.id }

  /** The response that arrived for an ID; the last one, should there be several. */
  function Delivered(events: seq<Event>, id: int): (r: Option<JobResponse>)
    ensures r.Some? <==> id in EventIds(events)
  {
    if events == [] then None
    else
      var e := events[|events| - 1];
      assert events == events[..|events| - 1] + [e];
      if e.id == id then Some(e.response) else Delivered(events[..|events| - 1], id)
  }

  predicate NoRepeats(events: seq<Event>) {
    forall i, j :: 0 <= i < j < |events| ==> events[i].id != events[j].id
  }

  /** A stream the client can take: it only answers expected requests and, when errors are caught, each at most once;
      and it fails only when errors are caught. */
  predicate Acceptable(s: Stream, expected: set<int>, catchErrors: bool) {
    EventIds(s.events) <= expected && (catchErrors ==> NoRepeats(s.events)) && (s.failure.Some? ==> catchErrors)
  }

  datatype Problem = UnexpectedId(id: int) | Uncaught(failure: Failure)

  /** The k-th event answers a request that is not expected, or is expected no more. */
  predicate Stray(s: Stream, expected: set<int>, catchErrors: bool, k: nat)
    requires k < |s.events|
  {
    s.events[k].id !in expected || (catchErrors && s.events[k].id in EventIds(s.events[..k]))
  }

  /** What is wrong with a stream: its first stray response, or the uncaught error it ends in without one. */
  ghost predicate IsProblem(s: Stream, expected: set<int>, catchErrors: bool, p: Problem) {
    match p
    case UnexpectedId(id) =>
      exists k :: 0 <= k < |s.events| && s.events[k].id == id && Stray(s, expected, catchErrors, k)
                  && forall j :: 0 <= j < k ==> !Stray(s, expected, catchErrors, j)
    case Uncaught(f) =>
      !catchErrors && s.failure == Some(f) && forall j :: 0 <= j < |s.events| ==> !Stray(s, expected, catchErrors, j)
  }

  lemma EventsSnoc(events: seq<Event>, k: nat)
    requires k < |events|
    ensures EventIds(events[..k + 1]) == EventIds(events[..k]) + {events[k].id}
    ensures Delivered(events[..k + 1], events[k].id) == Some(events[k].response)
    ensures forall id :: id != events[k].id ==> Delivered(events[..k + 1], id) == Delivered(events[..k], id)
  {
    var es := events[..k + 1];
    assert es == events[..k] + [events[k]];
    assert es[..|es| - 1] == events[..k] && es[|es| - 1] == events[k];
  }

  /** One service's loop: its responses by ID, and the caught error for every expected ID it did not answer. */
  method ReceiveService(s: Stream, expected: set<int>, catchErrors: bool)
    returns (problem: Option<Problem>, responses: map<int, JobResponse>, errors: map<int, Failure>)
    ensures problem.None? <==> Acceptable(s, expected, catchErrors)
    ensures problem.Some? ==> IsProblem(s, expected, catchErrors, problem.value)
    ensures problem.None? ==>
              && responses.Keys == EventIds(s.events)
              && (forall id :: id in responses ==> Some(responses[id]) == Delivered(s.events, id))
              && errors.Keys == (if s.failure.Some? then expected - responses.Keys else {})
              && (forall id :: id in errors ==> Some(errors[id]) == s.failure)
  {
    hide Delivered, EventIds;
    responses, errors := map[], map[];
    var ids := expected;
    var k := 0;
    NoEvents();
    while k < |s.events|
      invariant k <= |s.events| && responses.Keys == EventIds(s.events[..k]) <= expected
      invariant forall id :: id in responses ==> Some(responses[id]) == Delivered(s.events[..k], id)
      invariant ids == if catchErrors then expected - responses.Keys else expected
      invariant catchErrors ==> forall i, j :: 0 <= i < j < k ==> s.events[i].id != s.events[j].id
      invariant forall j :: 0 <= j < k ==> s.events[j].id in responses && !Stray(s, expected, catchErrors, j)
    {
      var e := s.events[k];
      EventsSnoc(s.events, k);
      if e.id !in ids {
        assert Stray(s, expected, catchErrors, k);
        NotAcceptable(s, expected, catchErrors, k);
        return Some(UnexpectedId(e.id)), responses, errors;
      }
      responses := responses[e.id := e.response];
      if catchErrors { ids := ids - {e.id}; }
      k := k + 1;
    }
    assert s.events[..k] == s.events;
    if s.failure.Some? {
      if !catchErrors { return Some(Uncaught(s.failure.value)), responses, errors; }
      errors := map id | id in ids :: s.failure.value;
    }
    problem := None;
  }

  lemma NoEvents()
    ensures EventIds([]) == {}
  {
  }

  lemma NotAcceptable(s: Stream, expected: set<int>, catchErrors: bool, k: nat)
    requires k < |s.events|
    requires Stray(s, expected, catchErrors, k)
    ensures !Acceptable(s, expected, catchErrors)
  {
    assert s.events[k].id in EventIds(s.events);
    if s.events[k].id in EventIds(s.events[..k]) {
      var e :| e in s.events[..k] && e.id == s.events[k].id;
      var j :| 0 <= j < k && s.events[..k][j] == e;
      assert s.events[j].id == s.events[k].id;
    }
  }

  // ------------------------------------------------------------------ putting the results in order

  /** One item of the result list. */
  datatype Item = Answer(response: JobResponse) | Caught(failure: Failure)

  /** What the result for the k-th job has to be: the error caught for its send, the response with its ID, or the error
      its service's stream ended in. `None` when there is none of these. */
  function ItemFor(b: Book, streams: string -> Stream, k: nat): Option<Item>
    requires k < |b.keys| && (b.keys[k].id < 0 ==> b.keys[k] in b.errors)
  {
    var key := b.keys[k];
    if key.id < 0 then Some(Caught(b.errors[key]))
    else
      var s := streams(key.service);
      match Delivered(s.events, key.id)
      case Some(r) => Some(Answer(r))
      case None => if s.failure.Some? then Some(Caught(s.failure.value)) else None
  }

  function ActionErrors(actions: seq<ActionResponse>): seq<ActionResponse> {
    if actions == [] then []
    else (if actions[0].errors != [] then [actions[0]] else []) + ActionErrors(actions[1..])
  }

  /** The exception holds all failing actions, in order. */
  lemma {:induction false} ActionErrorsAre(actions: seq<ActionResponse>) returns (at: seq<nat>)
    ensures |at| == |ActionErrors(actions)| && forall i, j :: 0 <= i < j < |at| ==> at[i] < at[j]
    ensures forall i :: 0 <= i < |at| ==> at[i] < |actions| && ActionErrors(actions)[i] == actions[at[i]]
    ensures forall k :: 0 <= k < |actions| ==> (k in at <==> actions[k].errors != [])
  {
    at := [];
    var i, done := 0, [];
    assert actions[0..] == actions;
    while i < |actions|
      invariant i <= |actions| && done + ActionErrors(actions[i..]) == ActionErrors(actions) && |at| == |done|
      invariant forall x, y :: 0 <= x < y < |at| ==> at[x] < at[y]
      invariant forall x :: 0 <= x < |at| ==> at[x] < i && done[x] == actions[at[x]]
      invariant forall k :: 0 <= k < i ==> (k in at <==> actions[k].errors != [])
    {
      assert actions[i..][0] == actions[i] && actions[i..][1..] == actions[i + 1..];
      var rest := ActionErrors(actions[i + 1..]);
      if actions[i].errors != [] {
        assert done + ([actions[i]] + rest) == done + [actions[i]] + rest;
        at, done := at + [i], done + [actions[i]];
      } else {
        assert [] + rest == rest;
      }
      i := i + 1;
    }
    assert done + [] == done;
  }

  datatype Raising = Raising(jobErrors: bool, actionErrors: bool)
  {
    /** The response makes the call raise. */
    predicate On(i: Item) {
      i.Answer? && ((jobErrors && i.response.errors != []) || (actionErrors && ActionErrors(i.response.actions) != []))
    }
  }

  /** The k-th job's item ends the call, after items that do not. */
  ghost predicate EndsAt(b: Book, streams: string -> Stream, raising: Raising, k: nat)
    requires forall j :: 0 <= j < |b.keys| && b.keys[j].id < 0 ==> b.keys[j] in b.errors
  {
    && k < |b.keys|
    && (forall j :: 0 <= j < k ==> ItemFor(b, streams, j).Some? && !raising.On(ItemFor(b, streams, j).value))
    && (ItemFor(b, streams, k).Some? ==> raising.On(ItemFor(b, streams, k).value))
  }

  /** The exception for the item that ends the call: its job errors before its action errors. */
  function ExceptionFor(b: Book, streams: string -> Stream, raising: Raising, k: nat): Outcome
    requires k < |b.keys| && (b.keys[k].id < 0 ==> b.keys[k] in b.errors)
  {
    match ItemFor(b, streams, k)
    case Some(Answer(r)) =>
      if raising.jobErrors && r.errors != [] then RaisedJobErrors(r.errors)
      else RaisedActionErrors(ActionErrors(r.actions))
    case _ => NoResponse(b.keys[k])
  }

  datatype Outcome =
    | Results(items: seq<Item>)
    | Refused(service: string, problem: Problem)
    | NoResponse(key: Key)
    | RaisedJobErrors(errors: seq<Error>)
    | RaisedActionErrors(actions: seq<ActionResponse>)

  ghost predicate AllAcceptable(b: Book, streams: string -> Stream, catchErrors: bool) {
    forall s :: s in b.expected ==> Acceptable(streams(s), b.expected[s], catchErrors)
  }

  /** The responses received so far, for the services in `done`. */
  ghost predicate HasResponses(streams: string -> Stream, done: set<string>, responses: map<Key, JobResponse>) {
    && (forall s, id :: s in done ==>
          (if Key(s, id) in responses then Some(responses[Key(s, id)]) else None) == Delivered(streams(s).events, id))
    && (forall key :: key in responses ==> key.service in done)
  }

  /** The errors caught so far: those of the sends, and for the services in `done` that of the stream for every expected
      ID without a response. */
  ghost predicate HasErrors(b: Book, streams: string -> Stream, done: set<string>, errors: map<Key, Failure>) {
    && (forall s, id :: s in done && id > 0 ==>
          (if Key(s, id) in errors then Some(errors[Key(s, id)]) else None)
          == if streams(s).failure.Some? && id in ExpectedOf(b, s) && Delivered(streams(s).events, id).None?
             then streams(s).failure else None)
    && (forall key: Key :: key.id < 0 && key in b.errors ==> key in errors && errors[key] == b.errors[key])
    && (forall key: Key :: key in errors && key.id > 0 ==> key.service in done)
  }

  lemma GatherResponses(streams: string -> Stream, done: set<string>, responses: map<Key, JobResponse>, s: string,
                        rs: map<int, JobResponse>)
    requires HasResponses(streams, done, responses) && s !in done
    requires rs.Keys == EventIds(streams(s).events)
    requires forall id :: id in rs ==> Some(rs[id]) == Delivered(streams(s).events, id)
    ensures HasResponses(streams, done + {s}, responses + Keyed(s, rs))
  {
    hide Delivered, EventIds;
    var rs' := responses + Keyed(s, rs);
    forall u, id | u in done + {s}
      ensures (if Key(u, id) in rs' then Some(rs'[Key(u, id)]) else None) == Delivered(streams(u).events, id)
    {
      assert Key(u, id) in Keyed(s, rs) <==> u == s && id in rs;
    }
  }

  lemma GatherErrors(b: Book, streams: string -> Stream, done: set<string>, errors: map<Key, Failure>, s: string,
                     es: map<int, Failure>)
    requires HasErrors(b, streams, done, errors) && s in b.expected && s !in done
    requires forall id :: id in b.expected[s] ==> id > 0
    requires es.Keys == if streams(s).failure.Some? then b.expected[s] - EventIds(streams(s).events) else {}
    requires forall id :: id in es ==> Some(es[id]) == streams(s).failure
    ensures HasErrors(b, streams, done + {s}, errors + Keyed(s, es))
  {
    hide Delivered, EventIds, Keyed;
    KeyedHas(s, es);
    var es' := errors + Keyed(s, es);
    forall u, id | u in done + {s} && id > 0
      ensures (if Key(u, id) in es' then Some(es'[Key(u, id)]) else None)
           == if streams(u).failure.Some? && id in ExpectedOf(b, u) && Delivered(streams(u).events, id).None?
              then streams(u).failure else None
    {
      assert Key(u, id) in Keyed(s, es) <==> u == s && id in es;
    }
  }

  lemma KeyedHas<T>(s: string, m: map<int, T>)
    ensures forall key :: key in Keyed(s, m) <==> key.service == s && key.id in m
    ensures forall key :: key in Keyed(s, m) ==> Keyed(s, m)[key] == m[key.id]
  {
    forall key: Key | key.service == s && key.id in m ensures key in Keyed(s, m) {
      assert key == Key(s, key.id);
    }
  }

  function Keyed<T>(s: string, m: map<int, T>): map<Key, T> { map id | id in m :: Key(s, id) := m[id] }

  /** `get_response`, from the book of the send loop: the services' streams are read in any order. Results come back
      exactly when every stream is acceptable, every job has an item and no item raises; and then the k-th result is
      the k-th job's item. */
  method GetResponse(services: seq<string>, sends: Sends, b: Book, streams: string -> Stream, catchErrors: bool,
                     raising: Raising)
    returns (outcome: Outcome)
    requires Booked(services, sends, b)
    ensures outcome.Results? <==>
              && AllAcceptable(b, streams, catchErrors)
              && forall k :: 0 <= k < |b.keys| ==>
                   ItemFor(b, streams, k).Some? && !raising.On(ItemFor(b, streams, k).value)
    ensures outcome.Results? ==>
              && |outcome.items| == |services|
              && forall k :: 0 <= k < |services| ==> ItemFor(b, streams, k) == Some(outcome.items[k])
    ensures outcome.Refused? <==> !AllAcceptable(b, streams, catchErrors)
    ensures outcome.Refused? ==>
              && outcome.service in b.expected
              && IsProblem(streams(outcome.service), b.expected[outcome.service], catchErrors, outcome.problem)
    ensures AllAcceptable(b, streams, catchErrors) ==>
              forall k: nat :: EndsAt(b, streams, raising, k) ==> outcome == ExceptionFor(b, streams, raising, k)
  {
    hide Delivered, EventIds, Ids, Acceptable, Raising.On, HasResponses, HasErrors, IsProblem;
    var responses: map<Key, JobResponse>, errors := map[], b.errors;
    var left := b.expected.Keys;
    NothingGathered(services, sends, b, streams);
    assert b.expected.Keys - left == {};
    while left != {}
      invariant left <= b.expected.Keys
      invariant HasResponses(streams, b.expected.Keys - left, responses)
      invariant HasErrors(b, streams, b.expected.Keys - left, errors)
      invariant forall s :: s in b.expected && s !in left ==> Acceptable(streams(s), b.expected[s], catchErrors)
      decreases left
    {
      var s :| s in left;
      var problem, rs, es := ReceiveService(streams(s), b.expected[s], catchErrors);
      if problem.Some? { return Refused(s, problem.value); }
      ExpectedPositive(services, sends, b, s);
      GatherResponses(streams, b.expected.Keys - left, responses, s, rs);
      GatherErrors(b, streams, b.expected.Keys - left, errors, s, es);
      assert b.expected.Keys - (left - {s}) == b.expected.Keys - left + {s};
      responses, errors, left := responses + Keyed(s, rs), errors + Keyed(s, es), left - {s};
    }
    assert b.expected.Keys - left == b.expected.Keys;
    var items: seq<Item> := [];
    var k := 0;
    while k < |b.keys|
      invariant k <= |b.keys| == |services| && |items| == k
      invariant forall j :: 0 <= j < k ==> ItemFor(b, streams, j) == Some(items[j]) && !raising.On(items[j])
    {
      var key := b.keys[k];
      ItemIsGathered(services, sends, b, streams, responses, errors, k);
      if key.id < 0 || (key !in responses && key in errors) {
        CaughtDoesNotRaise(raising, errors[key]);
        items := items + [Caught(errors[key])];
      } else if key !in responses {
        return NoResponse(key);
      } else {
        var r := responses[key];
        AnswerRaises(raising, r);
        if raising.jobErrors && r.errors != [] { return RaisedJobErrors(r.errors); }
        if raising.actionErrors && ActionErrors(r.actions) != [] { return RaisedActionErrors(ActionErrors(r.actions)); }
        items := items + [Answer(r)];
      }
      k := k + 1;
    }
    return Results(items);
  }

  lemma CaughtDoesNotRaise(raising: Raising, e: Failure)
    ensures !raising.On(Caught(e))
  {
  }

  lemma AnswerRaises(raising: Raising, r: JobResponse)
    ensures raising.On(Answer(r))
       <==> (raising.jobErrors && r.errors != []) || (raising.actionErrors && ActionErrors(r.actions) != [])
  {
  }

  lemma NothingGathered(services: seq<string>, sends: Sends, b: Book, streams: string -> Stream)
    requires Booked(services, sends, b)
    ensures HasResponses(streams, {}, map[]) && HasErrors(b, streams, {}, b.errors)
  {
  }

  lemma ExpectedPositive(services: seq<string>, sends: Sends, b: Book, s: string)
    requires Booked(services, sends, b) && s in b.expected
    ensures forall id :: id in b.expected[s] ==> id > 0
  {
    assert ExpectedOf(b, s) == Ids(b.keys, s);
  }

  /** The tables hold each job's item. */
  lemma ItemIsGathered(services: seq<string>, sends: Sends, b: Book, streams: string -> Stream,
                       responses: map<Key, JobResponse>, errors: map<Key, Failure>, k: nat)
    requires Booked(services, sends, b) && k < |b.keys|
    requires HasResponses(streams, b.expected.Keys, responses) && HasErrors(b, streams, b.expected.Keys, errors)
    ensures
      var key := b.keys[k];
      && (key.id < 0 ==> key in errors)
      && ItemFor(b, streams, k)
         == (if key.id < 0 then Some(Caught(errors[key]))
             else if key in responses then Some(Answer(responses[key]))
             else if key in errors then Some(Caught(errors[key])) else None)
  {
    hide Delivered;
    var key := b.keys[k];
    if sends(k).None? {
      assert ExpectedOf(b, key.service) == Ids(b.keys, key.service);
      assert key.id in Ids(b.keys, key.service);
      assert Key(key.service, key.id) == key;
    }
  }

  // ------------------------------------------------------------------ what follows for any order of arrival

  /** The same responses, each once, in some other order, and the same end. */
  predicate SameArrivals(a: Stream, b: Stream) {
    && NoRepeats(a.events) && NoRepeats(b.events) && a.failure == b.failure
    && (forall e :: e in a.events ==> e in b.events) && (forall e :: e in b.events ==> e in a.events)
  }

  lemma {:induction false} DeliveredIs(events: seq<Event>, e: Event)
    requires NoRepeats(events) && e in events
    ensures Delivered(events, e.id) == Some(e.response)
  {
    var front, last := events[..|events| - 1], events[|events| - 1];
    assert events == front + [last];
    if e in front {
      var i :| 0 <= i < |front| && front[i] == e;
      assert events[i].id != last.id;
      DeliveredIs(front, e);
    }
  }

  /** The order in which responses arrive changes nothing: not what is acceptable, and not any job's item. */
  lemma ArrivalOrderIrrelevant(b: Book, x: string -> Stream, y: string -> Stream, catchErrors: bool, k: nat)
    requires forall s :: SameArrivals(x(s), y(s))
    requires k < |b.keys| && (b.keys[k].id < 0 ==> b.keys[k] in b.errors)
    ensures AllAcceptable(b, x, catchErrors) <==> AllAcceptable(b, y, catchErrors)
    ensures ItemFor(b, x, k) == ItemFor(b, y, k)
  {
    forall s ensures EventIds(x(s).events) == EventIds(y(s).events) { assert SameArrivals(x(s), y(s)); }
    forall s | s in b.expected
      ensures Acceptable(x(s), b.expected[s], catchErrors) <==> Acceptable(y(s), b.expected[s], catchErrors)
    {
      assert SameArrivals(x(s), y(s));
    }
    var key := b.keys[k];
    var xs, ys := x(key.service).events, y(key.service).events;
    assert SameArrivals(x(key.service), y(key.service));
    if key.id in EventIds(xs) {
      var e :| e in xs && e.id == key.id;
      DeliveredIs(xs, e);
      DeliveredIs(ys, e);
    }
  }

  /** So it changes neither which job ends the call nor the exception. */
  lemma ExceptionOrderIrrelevant(b: Book, x: string -> Stream, y: string -> Stream, catchErrors: bool, raising: Raising,
                                 k: nat)
    requires forall s :: SameArrivals(x(s), y(s))
    requires forall j :: 0 <= j < |b.keys| && b.keys[j].id < 0 ==> b.keys[j] in b.errors
    ensures EndsAt(b, x, raising, k) <==> EndsAt(b, y, raising, k)
    ensures k < |b.keys| ==> ExceptionFor(b, x, raising, k) == ExceptionFor(b, y, raising, k)
  {
    hide ItemFor, AllAcceptable, SameArrivals, Raising.On;
    forall j: nat | j < |b.keys| ensures ItemFor(b, x, j) == ItemFor(b, y, j) {
      ArrivalOrderIrrelevant(b, x, y, catchErrors, j);
    }
  }

  /** When results come back, each service's expected IDs split exactly into those answered and those whose result is
      the caught stream error. */
  lemma AnsweredOrCaught(services: seq<string>, sends: Sends, b: Book, streams: string -> Stream, catchErrors: bool,
                         s: string)
    requires Booked(services, sends, b) && AllAcceptable(b, streams, catchErrors) && s in b.expected
    requires forall k :: 0 <= k < |b.keys| ==> ItemFor(b, streams, k).Some?
    ensures
      var answered := EventIds(streams(s).events);
      && answered <= b.expected[s]
      && (forall k :: 0 <= k < |b.keys| && b.keys[k].service == s && b.keys[k].id > 0 ==>
            && b.keys[k].id in b.expected[s]
            && (ItemFor(b, streams, k).value.Answer? <==> b.keys[k].id in answered))
      && (answered != b.expected[s] ==> catchErrors && streams(s).failure.Some?)
  {
    hide Delivered;
    assert ExpectedOf(b, s) == Ids(b.keys, s) && Acceptable(streams(s), b.expected[s], catchErrors);
    if id :| id in b.expected[s] && id !in EventIds(streams(s).events) {
      var k :| 0 <= k < |b.keys| && b.keys[k].service == s && b.keys[k].id == id;
      assert ItemFor(b, streams, k).Some?;
    }
  }
}
