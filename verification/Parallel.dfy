/** `call_jobs_parallel_future`: many jobs sent at once, their responses put back in the order of the jobs. */
module Parallel {
  import opened ByteText

  type Failure = string

  /** A result's place: the service and the request ID, or a negative number for a job that could not be sent. */
  datatype Key = Key(service: string, id: int)

  // ------------------------------------------------------------------ sending

  /** Whether the send of the k-th job fails in the transport. */
  type Sends = nat -> Option<Failure>

  /** The client's handlers: one request counter per service, started at a random number. */
  class Handlers {
    var counters: map<string, int>

    ghost predicate Valid()
      reads this
    {
      forall s :: s in counters ==> counters[s] > 0
    }

    constructor ()
      ensures Valid() && counters == map[]
    {
      counters := map[];
    }

    /** `send_request`'s ID: the counter moves on whether or not the send succeeds. */
    method NextId(service: string, start: int) returns (id: int)
      requires Valid() && 1 <= start <= 1000000
      modifies this
      ensures Valid() && id == (if service in old(counters) then old(counters)[service] else start)
      ensures counters == old(counters)[service := id + 1]
    {
      if service !in counters { counters := counters[service := start]; }
      id := counters[service];
      counters := counters[service := id + 1];
    }
  }

  function Ids(keys: seq<Key>, service: string): set<int> {
    set k | 0 <= k < |keys| && keys[k].service == service && keys[k].id > 0 :: keys[k].id
  }

  /** The bookkeeping of the send loop. */
  datatype Book = Book(keys: seq<Key>, expected: map<string, set<int>>, errors: map<Key, Failure>)

  function ExpectedOf(b: Book, service: string): set<int> { if service in b.expected then b.expected[service] else {} }

  /** Keys name the jobs in order and are all different; positive ones are the expected IDs of their service, and
      negative ones carry the error of their send. */
  ghost predicate Booked(services: seq<string>, sends: Sends, b: Book) {
    && |b.keys| == |services|
    && (forall k :: 0 <= k < |services| ==>
          && b.keys[k].service == services[k]
          && (if sends(k).None? then b.keys[k].id > 0
              else b.keys[k].id < 0 && b.keys[k] in b.errors && b.errors[b.keys[k]] == sends(k).value))
    && (forall i, j :: 0 <= i < j < |b.keys| ==> b.keys[i] != b.keys[j])
    && (forall s :: ExpectedOf(b, s) == Ids(b.keys, s))
    && (forall key :: key in b.errors ==> key.id < 0)
  }

  /** Every ID given out so far lies below its service's counter, and every error key at or above the last one. */
  ghost predicate Fresh(counters: map<string, int>, errorKey: int, b: Book) {
    && errorKey <= 0
    && forall k :: 0 <= k < |b.keys| ==>
         if b.keys[k].id < 0 then errorKey <= b.keys[k].id
         else b.keys[k].service in counters && b.keys[k].id < counters[b.keys[k].service]
  }

  lemma IdsSnoc(keys: seq<Key>, key: Key, s: string)
    ensures Ids(keys + [key], s) == Ids(keys, s) + if key.service == s && key.id > 0 then {key.id} else {}
  {
    var more := keys + [key];
    forall id | id in Ids(keys, s) ensures id in Ids(more, s) {
      var k :| 0 <= k < |keys| && keys[k].service == s && keys[k].id > 0 && keys[k].id == id;
      assert more[k] == keys[k];
    }
    if key.service == s && key.id > 0 { assert more[|keys|] == key; }
  }

  function AddSent(b: Book, key: Key): Book {
    Book(b.keys + [key], b.expected[key.service := ExpectedOf(b, key.service) + {key.id}], b.errors)
  }

  function AddFailed(b: Book, key: Key, e: Failure): Book { Book(b.keys + [key], b.expected, b.errors[key := e]) }

  lemma SentIsBooked(services: seq<string>, sends: Sends, b: Book, key: Key, counters: map<string, int>,
                     counters': map<string, int>, errorKey: int)
    requires Booked(services, sends, b) && Fresh(counters, errorKey, b)
    requires sends(|services|).None? && key.id > 0 && (key.service in counters ==> key.id == counters[key.service])
    requires counters' == counters[key.service := key.id + 1]
    ensures Booked(services + [key.service], sends, AddSent(b, key)) && Fresh(counters', errorKey, AddSent(b, key))
  {
    hide Ids;
    forall s ensures ExpectedOf(AddSent(b, key), s) == Ids(AddSent(b, key).keys, s) { IdsSnoc(b.keys, key, s); }
  }

  lemma FailedIsBooked(services: seq<string>, sends: Sends, b: Book, key: Key, counters: map<string, int>,
                       counters': map<string, int>, errorKey: int)
    requires Booked(services, sends, b) && Fresh(counters, errorKey, b)
    requires sends(|services|).Some? && key.id == errorKey - 1
    requires forall s :: s in counters ==> s in counters' && counters'[s] >= counters[s]
    ensures
      var b' := AddFailed(b, key, sends(|services|).value);
      Booked(services + [key.service], sends, b') && Fresh(counters', errorKey - 1, b')
  {
    hide Ids;
    var b' := AddFailed(b, key, sends(|services|).value);
    forall s ensures ExpectedOf(b', s) == Ids(b'.keys, s) { IdsSnoc(b.keys, key, s); }
  }

  /** The send loop; `start(s)` is where a new handler's counter starts. `None` is a transport error that is not
      caught. */
  method SendAll(h: Handlers, services: seq<string>, sends: Sends, start: string -> int, catchErrors: bool)
    returns (r: Option<Book>)
    requires h.Valid() && forall s :: 1 <= start(s) <= 1000000
    modifies h
    ensures h.Valid()
    ensures r.Some? <==> catchErrors || forall k :: 0 <= k < |services| ==> sends(k).None?
    ensures r.Some? ==> Booked(services, sends, r.value)
  {
    hide Booked, Fresh;
    var b := Book([], map[], map[]);
    var errorKey := 0;
    NothingBooked(sends, h.counters);
    var k := 0;
    while k < |services|
      invariant k <= |services| && h.Valid()
      invariant catchErrors || forall j :: 0 <= j < k ==> sends(j).None?
      invariant Booked(services[..k], sends, b) && Fresh(h.counters, errorKey, b)
    {
      var s := services[k];
      assert services[..k + 1] == services[..k] + [s];
      ghost var before := h.counters;
      var id := h.NextId(s, start(s));
      if sends(k).Some? {
        if !catchErrors { return None; }
        FailedIsBooked(services[..k], sends, b, Key(s, errorKey - 1), before, h.counters, errorKey);
        errorKey := errorKey - 1;
        b := AddFailed(b, Key(s, errorKey), sends(k).value);
      } else {
        SentIsBooked(services[..k], sends, b, Key(s, id), before, h.counters, errorKey);
        b := AddSent(b, Key(s, id));
      }
      k := k + 1;
    }
    assert services[..k] == services;
    return Some(b);
  }

  lemma NothingBooked(sends: Sends, counters: map<string, int>)
    ensures Booked([], sends, Book([], map[], map[])) && Fresh(counters, 0, Book([], map[], map[]))
  {
    NoIds();
  }

  lemma NoIds()
    ensures forall s :: Ids([], s) == {}
  {
  }
}
