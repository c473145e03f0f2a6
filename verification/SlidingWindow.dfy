/**
  The sliding-window limiter shared in shape by the PV write gate, the Olog write gate and the
  read throttle: purge the old timestamps, compare the length with the limit, append.
 */
module SlidingWindow {

  const WINDOW_SECONDS: real := 60.0

  /** How many of the moments in `h` lie in the closed interval [lo, hi]. */
  function CountIn(h: seq<real>, lo: real, hi: real): nat {
    if h == [] then 0
    else CountIn(h[..|h| - 1], lo, hi) + (if lo <= h[|h| - 1] <= hi then 1 else 0)
  }

  /** It is the number of positions whose moment lies in the interval. */
  lemma {:induction false} CountIs(h: seq<real>, lo: real, hi: real)
    ensures CountIn(h, lo, hi) == |set i | 0 <= i < |h| && lo <= h[i] <= hi|
  {
    var all := set i | 0 <= i < |h| && lo <= h[i] <= hi;
    if h != [] {
      var n := |h| - 1;
      CountIs(h[..n], lo, hi);
      var before := set i | 0 <= i < |h[..n]| && lo <= h[..n][i] <= hi;
      assert all == before + if lo <= h[n] <= hi then {n} else {};
    } else {
      assert all == {};
    }
  }

  predicate Ascending(h: seq<real>) {
    forall i, j :: 0 <= i < j < |h| ==> h[i] <= h[j]
  }

  /** Every admission found fewer than `limit` admissions in the window that ends at it. */
  predicate WellAdmitted(h: seq<real>, limit: int) {
    h == [] || (
      var front, now := h[..|h| - 1], h[|h| - 1];
      WellAdmitted(front, limit) && CountIn(front, now - WINDOW_SECONDS, now) < limit)
  }

  lemma {:induction false} NarrowerCountsLess(h: seq<real>, lo: real, hi: real, lo': real, hi': real)
    requires lo' <= lo && (forall x :: x in h ==> x <= hi')
    ensures CountIn(h, lo, hi) <= CountIn(h, lo', hi')
  {
    if h != [] {
      var front := h[..|h| - 1];
      assert forall x :: x in front ==> x in h;
      assert h[|h| - 1] in h;
      NarrowerCountsLess(front, lo, hi, lo', hi');
    }
  }

  /** Over the whole history no closed window holds more than `limit` admissions. */
  lemma {:induction false} RateBound(h: seq<real>, limit: int, start: real)
    requires Ascending(h) && WellAdmitted(h, limit) && limit >= 0
    ensures CountIn(h, start, start + WINDOW_SECONDS) <= limit
  {
    if h != [] {
      var front, now := h[..|h| - 1], h[|h| - 1];
      RateBound(front, limit, start);
      if start <= now <= start + WINDOW_SECONDS {
        NarrowerCountsLess(front, start, start + WINDOW_SECONDS, now - WINDOW_SECONDS, now);
      }
    }
  }

  /** The recent part of an ascending history is as long as the count says. */
  lemma {:induction false} CountOfSuffix(h: seq<real>, d: nat, lo: real, hi: real)
    requires d <= |h|
    requires forall i :: 0 <= i < d ==> h[i] < lo
    requires forall i :: d <= i < |h| ==> lo <= h[i] <= hi
    ensures CountIn(h, lo, hi) == |h| - d
  {
    if h != [] {
      var front := h[..|h| - 1];
      if d == |h| {
        CountOfSuffix(front, d - 1, lo, hi);
      } else {
        CountOfSuffix(front, d, lo, hi);
      }
    }
  }

  /** Appending to a bounded deque: at capacity the oldest element is lost. */
  function Append(deque: seq<real>, maxlen: int, x: real): seq<real>
    requires maxlen >= 0
  {
    if |deque| < maxlen then deque + [x] else if maxlen == 0 then [] else deque[1..] + [x]
  }

  /** The deque is the tail of the whole history, and everything left out of it is too old. */
  ghost predicate IsRecentTail(deque: seq<real>, history: seq<real>, clock: real) {
    && |deque| <= |history|
    && deque == history[|history| - |deque|..]
    && (forall i :: 0 <= i < |history| - |deque| ==> history[i] < clock - WINDOW_SECONDS)
    && (forall i :: 0 <= i < |history| ==> history[i] <= clock)
  }

  ghost predicate Tracks(deque: seq<real>, history: seq<real>, clock: real, limit: int) {
    && 0 <= limit && |deque| <= limit
    && IsRecentTail(deque, history, clock)
    && Ascending(history) && WellAdmitted(history, limit)
  }

  lemma LaterKeepsTracking(deque: seq<real>, history: seq<real>, clock: real, later: real, limit: int)
    requires Tracks(deque, history, clock, limit) && clock <= later
    ensures Tracks(deque, history, later, limit)
  {
    hide Ascending, WellAdmitted;
  }

  lemma PopKeepsTracking(deque: seq<real>, history: seq<real>, now: real, limit: int)
    requires Tracks(deque, history, now, limit)
    requires deque != [] && deque[0] < now - WINDOW_SECONDS
    ensures Tracks(deque[1..], history, now, limit)
  {
    hide Ascending, WellAdmitted;
    assert history[|history| - |deque|] == deque[0];
  }

  /** After a purge the deque is exactly the recent admissions. */
  lemma PurgedLength(deque: seq<real>, history: seq<real>, now: real, limit: int)
    requires Tracks(deque, history, now, limit)
    requires deque == [] || deque[0] >= now - WINDOW_SECONDS
    ensures |deque| == CountIn(history, now - WINDOW_SECONDS, now)
  {
    hide CountIn, WellAdmitted;
    var d := |history| - |deque|;
    forall i | d <= i < |history|
      ensures now - WINDOW_SECONDS <= history[i] <= now
    {
      assert history[d] == deque[0] && history[d] <= history[i];
    }
    CountOfSuffix(history, d, now - WINDOW_SECONDS, now);
  }

  /** An admission goes to the end of a deque that is not full: nothing is evicted. */
  lemma AdmitKeepsTracking(deque: seq<real>, history: seq<real>, now: real, limit: int)
    requires Tracks(deque, history, now, limit)
    requires deque == [] || deque[0] >= now - WINDOW_SECONDS
    requires |deque| < limit
    ensures Append(deque, limit, now) == deque + [now]
    ensures Tracks(deque + [now], history + [now], now, limit)
  {
    PurgedLength(deque, history, now, limit);
    AdmitHistory(history, now, limit);
    AdmitTail(deque, history, now);
  }

  lemma AdmitHistory(history: seq<real>, now: real, limit: int)
    requires Ascending(history) && WellAdmitted(history, limit)
    requires forall i :: 0 <= i < |history| ==> history[i] <= now
    requires CountIn(history, now - WINDOW_SECONDS, now) < limit
    ensures Ascending(history + [now]) && WellAdmitted(history + [now], limit)
  {
    assert (history + [now])[..|history|] == history;
  }

  lemma AdmitTail(deque: seq<real>, history: seq<real>, now: real)
    requires IsRecentTail(deque, history, now)
    ensures IsRecentTail(deque + [now], history + [now], now)
  {
    assert (history + [now])[|history| - |deque|..] == history[|history| - |deque|..] + [now];
  }

  class RateWindow {
    const limit: int
    var timestamps: seq<real>
    ghost var admitted: seq<real>
    ghost var clock: real

    ghost predicate Valid()
      reads this
    {
      Tracks(timestamps, admitted, clock, limit)
    }

    constructor (limit: int, ghost start: real)
      requires limit >= 0
      ensures Valid() && this.limit == limit && admitted == [] && clock == start
    {
      this.limit := limit;
      timestamps, admitted, clock := [], [], start;
    }

    /** At any moment of the object's life, any closed window of the history is within the limit. */
    lemma Bounded(start: real)
      requires Valid()
      ensures CountIn(admitted, start, start + 60.0) <= limit
    {
      RateBound(admitted, limit, start);
    }

    method PurgeOld(now: real)
      requires Valid() && now >= clock
      modifies this
      ensures Valid() && clock == now && admitted == old(admitted)
      ensures timestamps == [] || timestamps[0] >= now - WINDOW_SECONDS
    {
      hide Tracks;
      LaterKeepsTracking(timestamps, admitted, clock, now, limit);
      clock := now;
      var cutoff := now - WINDOW_SECONDS;
      while timestamps != [] && timestamps[0] < cutoff
        invariant Valid() && clock == now && admitted == old(admitted)
        decreases |timestamps|
      {
        PopKeepsTracking(timestamps, admitted, now, limit);
        timestamps := timestamps[1..];
      }
    }

    /** Purge, length check and append as one atomic step; `now` is sampled inside it. A refusal
        happens exactly when the window ending now is full; it changes no history. */
    method Take(now: real) returns (overLimit: bool)
      requires Valid() && now >= clock
      modifies this
      ensures Valid() && clock == now
      ensures overLimit <==> CountIn(old(admitted), now - 60.0, now) >= limit
      ensures admitted == if overLimit then old(admitted) else old(admitted) + [now]
    {
      hide Tracks, CountIn, Append;
      PurgeOld(now);
      PurgedLength(timestamps, admitted, now, limit);
      overLimit := |timestamps| >= limit;
      if !overLimit {
        AdmitKeepsTracking(timestamps, admitted, now, limit);
        timestamps := Append(timestamps, limit, now);
        admitted := admitted + [now];
      }
    }
  }

  /** The read throttle: a limit of zero or less switches it off altogether. */
  class ReadThrottle {
    const limit: int
    const bucket: RateWindow

    ghost predicate Valid()
      reads this, bucket
    {
      limit > 0 ==> bucket.Valid() && bucket.limit == limit
    }

    constructor (limit: int, ghost start: real)
      ensures Valid() && this.limit == limit && bucket.admitted == [] && bucket.clock == start && fresh(bucket)
    {
      this.limit := limit;
      bucket := new RateWindow(if limit > 0 then limit else 0, start);
    }

    method Check(now: real) returns (refused: bool)
      requires Valid() && now >= bucket.clock
      modifies bucket
      ensures Valid()
      ensures refused <==> limit > 0 && CountIn(old(bucket.admitted), now - WINDOW_SECONDS, now) >= limit
      ensures bucket.admitted == if refused || limit <= 0 then old(bucket.admitted) else old(bucket.admitted) + [now]
    {
      if limit <= 0 {
        return false;
      }
      refused := bucket.Take(now);
    }
  }

  datatype PvVerdict = PvAllowed | PvDenied | PvRateLimited

  /** The PV write gate: environment switch, name pattern, then the rate token. */
  class SafetyLayer {
    const allowPvWrite: bool
    const matches: string -> bool
    const bucket: RateWindow
    var denials: seq<(string, string)>

    constructor (allowPvWrite: bool, matches: string -> bool, limit: int, ghost start: real)
      requires limit >= 0
      ensures bucket.Valid() && bucket.limit == limit && bucket.admitted == [] && bucket.clock == start
      ensures fresh(bucket)
      ensures this.allowPvWrite == allowPvWrite && this.matches == matches && denials == []
    {
      this.allowPvWrite := allowPvWrite;
      this.matches := matches;
      bucket := new RateWindow(limit, start);
      denials := [];
    }

    /** A denial writes one line and takes no token; an admission takes one token and writes none. */
    method CheckWriteAllowed(pv: string, now: real) returns (v: PvVerdict)
      requires bucket.Valid() && now >= bucket.clock
      modifies this`denials, bucket
      ensures bucket.Valid()
      ensures v == PvDenied <==> !(allowPvWrite && matches(pv))
      ensures v == PvRateLimited <==> (
                && allowPvWrite && matches(pv)
                && CountIn(old(bucket.admitted), now - WINDOW_SECONDS, now) >= bucket.limit)
      ensures bucket.admitted == if v == PvAllowed then old(bucket.admitted) + [now] else old(bucket.admitted)
      ensures v == PvAllowed ==> denials == old(denials)
      ensures v == PvDenied ==> denials == old(denials) + [(pv, "PV_WRITE_DENIED")]
      ensures v == PvRateLimited ==> denials == old(denials) + [(pv, "RATE_LIMIT_EXCEEDED")]
    {
      if !allowPvWrite {
        denials := denials + [(pv, "PV_WRITE_DENIED")];
        return PvDenied;
      }
      if !matches(pv) {
        denials := denials + [(pv, "PV_WRITE_DENIED")];
        return PvDenied;
      }
      var overLimit := bucket.Take(now);
      if overLimit {
        denials := denials + [(pv, "RATE_LIMIT_EXCEEDED")];
        return PvRateLimited;
      }
      return PvAllowed;
    }
  }
}
