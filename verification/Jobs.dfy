/** Running the actions of a job on the server. */
module Jobs {

  type Error = string

  datatype Request = Request(action: string, body: string)

  datatype ActionResponse = ActionResponse(action: string, errors: seq<Error>, body: string)

  datatype JobResponse = JobResponse(errors: seq<Error>, actions: seq<ActionResponse>)

  /** How an action, wrapped in its middleware, can end. */
  datatype Ending =
    | Returned(response: ActionResponse)
    | Harakiri
    | ActionFailed(errors: seq<Error>)
    | JobFailed(errors: seq<Error>)
    | Unhandled(error: Error)

  const TIMED_OUT: Error := "ACTION_TIMEOUT"
  const UNKNOWN: Error := "UNKNOWN"

  /** The actions of a server, and how the i-th action of a job ends. */
  datatype Server = Server(known: set<string>, run: (nat, Request) -> Ending)
  {
    function EndingOf(i: nat, q: Request): Ending {
      if q.action in known then run(i, q) else Returned(ActionResponse(q.action, [UNKNOWN], ""))
    }

    /** The response recorded for an action that does not fail the job. */
    function ResponseOf(i: nat, q: Request): ActionResponse {
      match EndingOf(i, q)
      case Returned(r) => r
      case Harakiri => ActionResponse(q.action, [TIMED_OUT], "")
      case ActionFailed(errors) => ActionResponse(q.action, errors, "")
      case JobFailed(errors) => ActionResponse(q.action, errors, "")
      case Unhandled(e) => ActionResponse(q.action, [e], "")
    }

    predicate FailsJob(i: nat, q: Request) { EndingOf(i, q).JobFailed? }

    /** No further action runs after this one. */
    predicate Stops(i: nat, q: Request, continueOnError: bool) {
      EndingOf(i, q).Harakiri? || (ResponseOf(i, q).errors != [] && !continueOnError)
    }
  }

  datatype JobResult = Responded(actions: seq<ActionResponse>) | Failed(errors: seq<Error>)

  /** The first `n` actions ran, and none of the first `n - 1` ended the job. */
  predicate RanThrough(s: Server, actions: seq<Request>, continueOnError: bool, n: nat)
    requires n <= |actions|
  {
    && (forall k :: 0 <= k < n ==> !s.FailsJob(k, actions[k]))
    && (forall k :: 0 <= k < n - 1 ==> !s.Stops(k, actions[k], continueOnError))
  }

  /** The first `n` actions ran and none of them ended the job. */
  predicate Reaches(s: Server, actions: seq<Request>, continueOnError: bool, n: nat)
    requires n <= |actions|
  {
    RanThrough(s, actions, continueOnError, n) && (n > 0 ==> !s.Stops(n - 1, actions[n - 1], continueOnError))
  }

  /** The job gets to an action that fails it with these errors. */
  predicate FailsWith(s: Server, actions: seq<Request>, continueOnError: bool, n: nat, errors: seq<Error>) {
    n < |actions| && Reaches(s, actions, continueOnError, n) && s.EndingOf(n, actions[n]) == JobFailed(errors)
  }

  /** These are the responses of all actions, or of the shortest prefix that ends the job. */
  predicate Responds(s: Server, actions: seq<Request>, continueOnError: bool, responses: seq<ActionResponse>) {
    var n := |responses|;
    && n <= |actions| && RanThrough(s, actions, continueOnError, n)
    && (forall k :: 0 <= k < n ==> responses[k] == s.ResponseOf(k, actions[k]))
    && (n < |actions| ==> n > 0 && s.Stops(n - 1, actions[n - 1], continueOnError))
  }

  /** `execute_job`: the responses of all actions, or of the shortest prefix that ends in a harakiri or, unless errors
      are to be continued on, in an error; a job error in the first action that has one before that is raised. */
  method ExecuteJob(s: Server, actions: seq<Request>, continueOnError: bool) returns (result: JobResult)
    ensures result.Responded? ==> Responds(s, actions, continueOnError, result.actions)
    ensures result.Failed? ==> exists n: nat :: FailsWith(s, actions, continueOnError, n, result.errors)
  {
    var responses: seq<ActionResponse> := [];
    var i := 0;
    while i < |actions|
      invariant i <= |actions| && |responses| == i && RanThrough(s, actions, continueOnError, i)
      invariant i > 0 ==> !s.Stops(i - 1, actions[i - 1], continueOnError)
      invariant forall k :: 0 <= k < i ==> responses[k] == s.ResponseOf(k, actions[k])
    {
      var q := actions[i];
      var harakiri := false;
      var response;
      match s.EndingOf(i, q) {
        case Returned(r) => response := r;
        case Harakiri => response, harakiri := ActionResponse(q.action, [TIMED_OUT], ""), true;
        case ActionFailed(errors) => response := ActionResponse(q.action, errors, "");
        case JobFailed(errors) => {
          assert FailsWith(s, actions, continueOnError, i, errors);
          return Failed(errors);
        }
        case Unhandled(e) => response := ActionResponse(q.action, [e], "");
      }
      responses := responses + [response];
      if harakiri || (response.errors != [] && !continueOnError) { return Responded(responses); }
      i := i + 1;
    }
    return Responded(responses);
  }

  /** A job comes to one end only: it fails at one action, or it responds one way. */
  lemma OneEnd(s: Server, actions: seq<Request>, continueOnError: bool, n: nat, errors: seq<Error>)
    requires FailsWith(s, actions, continueOnError, n, errors)
    ensures forall k: nat, es :: FailsWith(s, actions, continueOnError, k, es) ==> k == n && es == errors
    ensures forall rs :: !Responds(s, actions, continueOnError, rs)
  {
    forall k: nat, es | FailsWith(s, actions, continueOnError, k, es) ensures k == n && es == errors {
      assert n < k ==> !s.FailsJob(n, actions[n]);
      assert k < n ==> !s.FailsJob(k, actions[k]);
    }
  }

  // ------------------------------------------------------------------ the same, from the actions alone

  /** The response recorded for the k-th action, by how it ended; one that the server does not have is an error. */
  predicate AnsweredBy(s: Server, k: nat, q: Request, r: ActionResponse) {
    if q.action !in s.known then r == ActionResponse(q.action, ["UNKNOWN"], "")
    else
      match s.run(k, q)
      case Returned(x) => r == x
      case Harakiri => r == ActionResponse(q.action, ["ACTION_TIMEOUT"], "")
      case ActionFailed(errors) => r == ActionResponse(q.action, errors, "")
      case JobFailed(_) => false
      case Unhandled(e) => r == ActionResponse(q.action, [e], "")
  }

  /** The next action runs: the server was not interrupted, and there are no errors or they are continued on. */
  predicate GoesOn(s: Server, k: nat, q: Request, r: ActionResponse, continueOnError: bool) {
    !(q.action in s.known && s.run(k, q).Harakiri?) && (r.errors == [] || continueOnError)
  }

  lemma RespondsMeans(s: Server, actions: seq<Request>, continueOnError: bool, rs: seq<ActionResponse>)
    ensures
      Responds(s, actions, continueOnError, rs)
      <==> |rs| <= |actions|
           && (forall k :: 0 <= k < |rs| ==> AnsweredBy(s, k, actions[k], rs[k]))
           && (forall k :: 0 <= k < |rs| - 1 ==> GoesOn(s, k, actions[k], rs[k], continueOnError))
           && (|rs| < |actions| ==>
                 rs != [] && !GoesOn(s, |rs| - 1, actions[|rs| - 1], rs[|rs| - 1], continueOnError))
  {
    hide RanThrough;
    if |rs| <= |actions| {
      RanThroughMeans(s, actions, continueOnError, |rs|);
      forall k | 0 <= k < |rs|
        ensures AnsweredBy(s, k, actions[k], rs[k])
           <==> !s.FailsJob(k, actions[k]) && rs[k] == s.ResponseOf(k, actions[k])
        ensures AnsweredBy(s, k, actions[k], rs[k]) ==>
                  (GoesOn(s, k, actions[k], rs[k], continueOnError) <==> !s.Stops(k, actions[k], continueOnError))
      {
      }
    }
  }

  lemma RanThroughMeans(s: Server, actions: seq<Request>, continueOnError: bool, n: nat)
    requires n <= |actions|
    ensures RanThrough(s, actions, continueOnError, n)
       <==> (forall k :: 0 <= k < n ==> !s.FailsJob(k, actions[k]))
            && (forall k :: 0 <= k < n - 1 ==> !s.Stops(k, actions[k], continueOnError))
  {
  }

  /** The k-th action ran and the next one runs. */
  ghost predicate Passes(s: Server, k: nat, q: Request, continueOnError: bool) {
    exists r :: AnsweredBy(s, k, q, r) && GoesOn(s, k, q, r, continueOnError)
  }

  lemma FailsWithMeans(s: Server, actions: seq<Request>, continueOnError: bool, n: nat, errors: seq<Error>)
    ensures
      FailsWith(s, actions, continueOnError, n, errors)
      <==> n < |actions| && actions[n].action in s.known && s.run(n, actions[n]) == JobFailed(errors)
           && forall k :: 0 <= k < n ==> Passes(s, k, actions[k], continueOnError)
  {
    hide Passes, Server.Stops, Server.FailsJob;
    forall k | 0 <= k < |actions|
      ensures Passes(s, k, actions[k], continueOnError)
         <==> !s.FailsJob(k, actions[k]) && !s.Stops(k, actions[k], continueOnError)
    {
      GoesOnMeans(s, k, actions[k], continueOnError);
    }
    if n < |actions| { ReachesMeans(s, actions, continueOnError, n); }
  }

  lemma ReachesMeans(s: Server, actions: seq<Request>, continueOnError: bool, n: nat)
    requires n <= |actions|
    ensures Reaches(s, actions, continueOnError, n)
       <==> forall k :: 0 <= k < n ==> !s.FailsJob(k, actions[k]) && !s.Stops(k, actions[k], continueOnError)
  {
    hide Server.Stops, Server.FailsJob;
  }

  lemma GoesOnMeans(s: Server, k: nat, q: Request, continueOnError: bool)
    ensures Passes(s, k, q, continueOnError) <==> !s.FailsJob(k, q) && !s.Stops(k, q, continueOnError)
  {
    if !s.FailsJob(k, q) { assert AnsweredBy(s, k, q, s.ResponseOf(k, q)); }
  }

  // ------------------------------------------------------------------ the job

  /** What `process_job` answers for a request with the given validation errors. The errors of the first job error that
      is reached make up the whole response; with none, the responses of the actions do. */
  method ProcessJob(s: Server, validationErrors: seq<Error>, actions: seq<Request>, continueOnError: bool)
    returns (r: JobResponse)
    ensures validationErrors != [] ==> r == JobResponse(validationErrors, [])
    ensures validationErrors == [] ==>
              forall n: nat, errors ::
                FailsWith(s, actions, continueOnError, n, errors) ==> r == JobResponse(errors, [])
    ensures validationErrors == [] && (forall n: nat, errors :: !FailsWith(s, actions, continueOnError, n, errors)) ==>
              r.errors == [] && Responds(s, actions, continueOnError, r.actions)
  {
    hide FailsWith, Responds;
    if validationErrors != [] { return JobResponse(validationErrors, []); }
    var result := ExecuteJob(s, actions, continueOnError);
    forall n: nat, errors | FailsWith(s, actions, continueOnError, n, errors)
      ensures result == Failed(errors)
    {
      OneEnd(s, actions, continueOnError, n, errors);
    }
    match result
    case Responded(responses) => r := JobResponse([], responses);
    case Failed(errors) => r := JobResponse(errors, []);
  }
}
