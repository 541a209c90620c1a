/** The Redis list behind one queue name, and the two transport operations that push to it and pop from it. */
module Queue {
  import opened ByteText
  import opened Wire
  import opened Transfer

  class RedisQueue {
    var items: seq<Bytes>
    ghost var pushed: seq<Bytes>  // everything ever pushed, in order
    ghost var popped: seq<Bytes>  // everything ever popped, in order

    /** First in, first out: nothing is lost, repeated or reordered between the two ends. */
    ghost predicate Valid()
      reads this
    {
      pushed == popped + items
    }

    constructor ()
      ensures Valid() && items == [] && pushed == []
    {
      items, pushed, popped := [], [], [];
    }

    /** The push script: refuse at capacity, else append. */
    method Push(message: Bytes, capacity: int) returns (ok: bool)
      requires Valid()
      modifies this
      ensures Valid() && popped == old(popped)
      ensures ok <==> |old(items)| < capacity
      ensures items == old(items) + if ok then [message] else []
      ensures pushed == old(pushed) + if ok then [message] else []
    {
      ok := false;
      if |items| < capacity {
        items, pushed := items + [message], pushed + [message];
        ok := true;
      }
    }

    /** `blpop`; `None` is the timeout. */
    method Pop() returns (message: Option<Bytes>)
      requires Valid()
      modifies this
      ensures Valid() && pushed == old(pushed)
      ensures message == if old(items) == [] then None else Some(old(items)[0])
      ensures items == if old(items) == [] then [] else old(items)[1..]
    {
      message := None;
      if items != [] {
        message := Some(items[0]);
        items, popped := items[1..], popped + [items[0]];
      }
    }
  }

  /** Another party takes up to `n` messages. */
  method Drain(q: RedisQueue, n: nat)
    requires q.Valid()
    modifies q
    ensures q.Valid() && q.pushed == old(q.pushed) && |q.items| <= |old(q.items)|
    ensures |q.items| == Max(0, |old(q.items)| - n)
    ensures n == 0 ==> q.items == old(q.items)
  {
    for i := 0 to n
      invariant q.Valid() && q.pushed == old(q.pushed) && |q.items| <= |old(q.items)|
      invariant |q.items| == Max(0, |old(q.items)| - i)
      invariant i == 0 ==> q.items == old(q.items)
    {
      var _ := q.Pop();
    }
  }

  function Max(a: int, b: int): int { if a > b then a else b }

  /** What consumers take before the tries up to the i-th, the first of which is numbered -1. */
  function Taken(drained: int -> nat, i: int): nat
    decreases i + 1
  {
    if i < -1 then 0 else Taken(drained, i - 1) + drained(i)
  }

  lemma {:induction false} TakenGrows(drained: int -> nat, i: int, j: int)
    requires i <= j
    ensures Taken(drained, i) <= Taken(drained, j)
    decreases j - i
  {
    if i < j { TakenGrows(drained, i, j - 1); }
  }

  /** One piece, tried at least once and then once per retry; `drained(i)` is what consumers take before try `i`. */
  method PushWithRetries(q: RedisQueue, piece: Bytes, capacity: int, retries: int, drained: int -> nat)
    returns (placed: bool)
    requires q.Valid()
    modifies q
    ensures q.Valid()
    ensures q.pushed == old(q.pushed) + if placed then [piece] else []
    ensures |q.items| <= Max(|old(q.items)|, capacity)
    ensures placed <==> retries >= 0 && Max(0, |old(q.items)| - Taken(drained, retries - 1)) < capacity
    ensures (forall i :: drained(i) == 0) ==>
              && (placed <==> retries >= 0 && |old(q.items)| < capacity)
              && q.items == old(q.items) + if placed then [piece] else []
  {
    placed := false;
    var i := -1;
    while i < retries && !placed
      invariant q.Valid() && -1 <= i <= Max(-1, retries)
      invariant placed ==> i >= 0 && retries >= 0 && i - 1 < retries
      invariant if placed then Max(0, |old(q.items)| - Taken(drained, i - 1)) < capacity
                else |q.items| == Max(0, |old(q.items)| - Taken(drained, i - 1))
      invariant !placed && i >= 0 ==> Max(0, |old(q.items)| - Taken(drained, i - 1)) >= capacity
      invariant q.pushed == old(q.pushed) + if placed then [piece] else []
      invariant |q.items| <= Max(|old(q.items)|, capacity)
      invariant (forall i :: drained(i) == 0) ==>
                  && (placed ==> |old(q.items)| < capacity)
                  && (i >= 0 && |old(q.items)| < capacity ==> placed)
                  && q.items == old(q.items) + if placed then [piece] else []
      decreases retries - i, !placed
    {
      assert Taken(drained, i) == Taken(drained, i - 1) + drained(i);
      Drain(q, drained(i));
      placed := q.Push(piece, capacity);
      i := i + 1;
    }
    if placed { TakenGrows(drained, i - 1, retries - 1); }
  }

  /** `send_message` once the pieces are printed. A full queue may stop it part way; whatever was pushed is a prefix
      of the pieces, each once and in order, and the queue never grows past its capacity. With nobody consuming, it
      succeeds exactly when all the pieces fit. */
  method SendMessage(q: RedisQueue, pieces: seq<Bytes>, capacity: int, retries: int, drained: (nat, int) -> nat)
    returns (sent: nat)
    requires q.Valid()
    modifies q
    ensures q.Valid() && sent <= |pieces|
    ensures q.pushed == old(q.pushed) + pieces[..sent]
    ensures |q.items| <= Max(|old(q.items)|, capacity)
    ensures (forall k: nat, i :: drained(k, i) == 0) ==>
              && q.items == old(q.items) + pieces[..sent]
              && (sent == |pieces| <==> pieces == [] || (retries >= 0 && |old(q.items)| + |pieces| <= capacity))
  {
    sent := 0;
    while sent < |pieces|
      invariant q.Valid() && sent <= |pieces|
      invariant q.pushed == old(q.pushed) + pieces[..sent]
      invariant |q.items| <= Max(|old(q.items)|, capacity)
      invariant (forall k: nat, i :: drained(k, i) == 0) ==>
                  && q.items == old(q.items) + pieces[..sent]
                  && (sent > 0 ==> retries >= 0 && |old(q.items)| + sent <= capacity)
    {
      var placed := PushWithRetries(q, pieces[sent], capacity, retries, i => drained(sent, i));
      if !placed { return; }
      sent := sent + 1;
    }
    assert pieces[..sent] == pieces;
  }

  /** `receive_message`: the loop over reply chunks, against the queue as it stood. */
  method ReceiveMessage(r: Receiver, q: RedisQueue) returns (result: Result<Received, ReceiveError>)
    requires q.Valid()
    modifies q
    ensures q.Valid() && q.pushed == old(q.pushed)
    ensures Outcome(result, q.items) == Receive(r, old(q.items))
  {
    hide Parse, IntValue;
    var message := q.Pop();
    if message.None? { return Err(Timeout); }
    var first := Parse(message.value);
    if first.Err? { return Err(first.error); }
    var version, headers, payload := first.value.version, first.value.headers, first.value.payload;
    var mime := r.MimeFor(headers);
    if CHUNK_COUNT in headers {
      if r.isServer { return Err(ChunkedRequest); }
      if CHUNK_ID !in headers { return Err(MissingChunkId); }
      var idValue, countValue := IntValue(headers[CHUNK_ID]), IntValue(headers[CHUNK_COUNT]);
      if idValue.None? || countValue.None? { return Err(BadNumber); }
      var id, count := idValue.value, countValue.value;
      ghost var goal := Reassemble(id, count, Joined(version, payload), q.items);
      while id < count
        invariant q.Valid() && q.pushed == old(q.pushed)
        invariant Reassemble(id, count, Joined(version, payload), q.items) == goal
        decreases count - id
      {
        message := q.Pop();
        if message.None? { return Err(Timeout); }
        var next := Parse(message.value);
        if next.Err? { return Err(next.error); }
        headers := next.value.headers;
        version, payload := next.value.version, payload + next.value.payload;
        if CHUNK_COUNT !in headers || CHUNK_ID !in headers { return Err(MissingChunkHeaders); }
        countValue := IntValue(headers[CHUNK_COUNT]);
        if countValue.None? { return Err(BadNumber); }
        if countValue.value != count { return Err(WrongChunkCount); }
        idValue := IntValue(headers[CHUNK_ID]);
        if idValue.None? { return Err(BadNumber); }
        if idValue.value != id + 1 { return Err(WrongChunkId); }
        id := idValue.value;
      }
    }
    return Ok(Received(version, mime, payload));
  }
}
