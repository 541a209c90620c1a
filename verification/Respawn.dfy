/** The respawn limiter of the forking server: two bounded deques standing for the whole history of respawns. */
module Respawn {
  import opened ByteText

  const PER_MINUTE := 8
  const PER_FIFTEEN_SECONDS := 3

  /** The last `n` items, or all of them when there are fewer. */
  function Last<T>(s: seq<T>, n: nat): seq<T> { if |s| <= n then s else s[|s| - n..] }

  /** `append` on a deque with a maximum length: the oldest item makes room. */
  function Append<T>(d: seq<T>, x: T, maxlen: nat): seq<T> {
    if |d| < maxlen then d + [x] else if d == [] then [] else d[1..] + [x]
  }

  lemma AppendIsLast<T>(s: seq<T>, x: T, n: nat)
    requires n > 0
    ensures Append(Last(s, n), x, n) == Last(s + [x], n)
  {
  }

  lemma LastWhenFull<T>(s: seq<T>, n: nat)
    requires n > 0
    ensures |Last(s, n)| == n <==> |s| >= n
    ensures |s| >= n ==> Last(s, n)[0] == s[|s| - n]
  {
  }

  /** Respawns at positions `n` apart are at least `gap` apart in time. */
  predicate Spaced(h: seq<real>, n: nat, gap: real) {
    forall k :: 0 <= k && k + n < |h| ==> h[k + n] - h[k] >= gap
  }

  lemma SpacedSnoc(h: seq<real>, n: nat, gap: real, t: real)
    requires Spaced(h, n, gap) && (|h| >= n > 0 ==> t - h[|h| - n] >= gap)
    ensures n > 0 ==> Spaced(h + [t], n, gap)
  {
  }

  predicate Sorted(h: seq<real>) { forall i, j :: 0 <= i < j < |h| ==> h[i] <= h[j] }

  /** One turn of the monitor: the shutdown signal before and after the process has ended, and the time then. */
  datatype Turn = Turn(signaledBefore: bool, signaledAfter: bool, time: real)
  {
    predicate Signaled() { signaledBefore || signaledAfter }
  }

  datatype Verdict = StillRunning | Signaled | NoRespawn | TooManyPerMinute | TooManyPerFifteenSeconds

  class ProcessMonitor {
    const respawn: bool
    var oneMinuteRestartTimes: seq<real>
    var fifteenSecondRestartTimes: seq<real>
    var running: bool
    ghost var history: seq<real>  // every respawn time

    /** In every run the deques are the last 8 and the last 3 times of the full history, and respawns keep their
        distance. */
    ghost predicate Valid()
      reads this
    {
      && oneMinuteRestartTimes == Last(history, PER_MINUTE)
      && fifteenSecondRestartTimes == Last(history, PER_FIFTEEN_SECONDS)
      && Spaced(history, PER_MINUTE, 60.0) && Spaced(history, PER_FIFTEEN_SECONDS, 15.0)
    }

    constructor (respawn: bool)
      ensures Valid() && history == [] && this.respawn == respawn
    {
      this.respawn := respawn;
      oneMinuteRestartTimes, fifteenSecondRestartTimes, running, history := [], [], false, [];
    }

    /** What the limiter decides at time `t`, from the history alone. */
    ghost function Decide(t: real): Option<Verdict>
      reads this
    {
      var n := |history|;
      if n >= PER_MINUTE && t - history[n - PER_MINUTE] < 60.0 then Some(TooManyPerMinute)
      else if n >= PER_FIFTEEN_SECONDS && t - history[n - PER_FIFTEEN_SECONDS] < 15.0 then
        Some(TooManyPerFifteenSeconds)
      else None
    }

    /** In figures: eight respawns within a minute are too many, and three within fifteen seconds. */
    lemma DecideMeans(t: real)
      ensures
        var n := |history|;
        && (Decide(t) == Some(TooManyPerMinute) <==> n >= 8 && t - history[n - 8] < 60.0)
        && (Decide(t).None? <==> (n >= 8 ==> t - history[n - 8] >= 60.0) && (n >= 3 ==> t - history[n - 3] >= 15.0))
        && (Decide(t).Some? ==> Decide(t).value in {TooManyPerMinute, TooManyPerFifteenSeconds})
    {
    }

    /** What holds over every run, in figures. */
    lemma Distances(k: nat)
      requires Valid()
      ensures k + 8 < |history| ==> history[k + 8] - history[k] >= 60.0
      ensures k + 3 < |history| ==> history[k + 3] - history[k] >= 15.0
    {
    }

    /** Why the loop stops at a turn, `StillRunning` if it does not: the signal first, then the setting, then the
        limiter. */
    ghost function Stopping(x: Turn): Verdict
      reads this
    {
      if x.Signaled() then Signaled
      else if !respawn then NoRespawn
      else if Decide(x.time).Some? then Decide(x.time).value
      else StillRunning
    }

    /** Respawn a process that ended at time `t`, or refuse to. */
    method Exited(t: real) returns (refusal: Option<Verdict>)
      requires Valid()
      modifies this
      ensures Valid() && refusal == old(Decide(t))
      ensures history == old(history) + if refusal.None? then [t] else []
      ensures refusal.None? ==> running
    {
      hide Last, Append, Spaced;
      LastWhenFull(history, PER_MINUTE);
      LastWhenFull(history, PER_FIFTEEN_SECONDS);
      if |oneMinuteRestartTimes| == PER_MINUTE && t - oneMinuteRestartTimes[0] < 60.0 {
        return Some(TooManyPerMinute);
      } else if |fifteenSecondRestartTimes| == PER_FIFTEEN_SECONDS && t - fifteenSecondRestartTimes[0] < 15.0 {
        return Some(TooManyPerFifteenSeconds);
      }
      AppendIsLast(history, t, PER_MINUTE);
      AppendIsLast(history, t, PER_FIFTEEN_SECONDS);
      SpacedSnoc(history, PER_MINUTE, 60.0, t);
      SpacedSnoc(history, PER_FIFTEEN_SECONDS, 15.0, t);
      oneMinuteRestartTimes := Append(oneMinuteRestartTimes, t, PER_MINUTE);
      fifteenSecondRestartTimes := Append(fifteenSecondRestartTimes, t, PER_FIFTEEN_SECONDS);
      history := history + [t];
      running := true;
      return None;
    }

    /** `run`, for as long as processes end. The respawn times are a run of the exit times, from the first on; the loop
        stops at the first turn with a signal, or that finds respawning off, or that the limiter refuses. */
    method Run(turns: seq<Turn>) returns (verdict: Verdict)
      requires Valid() && history == []
      modifies this
      ensures Valid()
      ensures |history| <= |turns| && forall k :: 0 <= k < |history| ==> history[k] == turns[k].time
      ensures running <==> verdict.StillRunning?
      ensures verdict.StillRunning? ==> |history| == |turns|
      ensures !verdict.StillRunning? ==> |history| < |turns| && verdict == Stopping(turns[|history|])
      ensures (forall k :: 0 <= k < |history| ==> !turns[k].Signaled()) && (|history| > 0 ==> respawn)
    {
      hide Last, Spaced;
      running := true;
      var i := 0;
      while i < |turns|
        invariant Valid() && i <= |turns| && |history| == i && running
        invariant forall k :: 0 <= k < i ==> history[k] == turns[k].time && !turns[k].Signaled()
        invariant i > 0 ==> respawn
      {
        if turns[i].signaledBefore { running := false; return Signaled; }
        if turns[i].signaledAfter { running := false; return Signaled; }
        if !respawn { running := false; return NoRespawn; }
        var refusal := Exited(turns[i].time);
        if refusal.Some? { running := false; return refusal.value; }
        i := i + 1;
      }
      return StillRunning;
    }
  }

  lemma {:induction false} SetOfInterval(s: set<int>, lo: int, n: nat)
    requires forall i :: i in s ==> lo <= i < lo + n
    ensures |s| <= n
    decreases n
  {
    if n == 0 {
      assert s == {};
    } else {
      SetOfInterval(s - {lo}, lo + 1, n - 1);
    }
  }

  lemma FarApart(h: seq<real>, n: nat, gap: real)
    requires Spaced(h, n, gap) && Sorted(h)
    ensures forall a, b :: 0 <= a && a + n <= b < |h| ==> h[b] - h[a] >= gap
  {
    forall a, b | 0 <= a && a + n <= b < |h| ensures h[b] - h[a] >= gap {
      assert h[a + n] - h[a] >= gap && h[a + n] <= h[b];
    }
  }

  /** With a clock that does not go back, no half-open window as long as the gap holds more than `n` respawns. */
  lemma WindowBound(h: seq<real>, n: nat, gap: real, start: real)
    requires Spaced(h, n, gap) && Sorted(h) && n > 0
    ensures |set i | 0 <= i < |h| && start <= h[i] < start + gap| <= n
  {
    var s := set i | 0 <= i < |h| && start <= h[i] < start + gap;
    if s != {} {
      var lo := Least(h, start, gap);
      FarApart(h, n, gap);
      SetOfInterval(s, lo, n);
    }
  }

  lemma Least(h: seq<real>, start: real, gap: real) returns (lo: nat)
    requires exists i :: 0 <= i < |h| && start <= h[i] < start + gap
    ensures lo < |h| && start <= h[lo] < start + gap
    ensures forall i :: 0 <= i < |h| && start <= h[i] < start + gap ==> lo <= i
  {
    lo := 0;
    while !(start <= h[lo] < start + gap)
      invariant lo < |h|
      invariant forall i :: 0 <= i < |h| && start <= h[i] < start + gap ==> lo <= i
      decreases |h| - lo
    {
      lo := lo + 1;
    }
  }
}
