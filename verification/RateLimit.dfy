// The sliding-window rate limiter of one key: a sorted set of request times, trimmed on every request
// and expiring as a whole, against a limiter that keeps the full history.

module RateLimit {

  /** A member of the sorted set; its score is the time in milliseconds. */
  datatype Request = Request(at: nat, nonce: nat)

  /** Whether the pipeline was executed, and whether its results came back. */
  datatype Pipeline = Replied | LostReply | NotExecuted

  datatype Decision = Decision(request: Request, pipeline: Pipeline, admitted: bool)

  // --- The limiter that forgets nothing. ---

  /** The number of executed requests, admitted or rejected, after now - window. */
  function Count(history: seq<Decision>, now: int, window: nat): (n: nat)
  {
    if history == [] then 0
    else
      var last := history[|history| - 1];
      Count(history[..|history| - 1], now, window)
      + if !last.pipeline.NotExecuted? && now < last.request.at + window then 1 else 0
  }

  /** Without results the request passes; otherwise iff with it the window holds no more than `limit` requests. */
  predicate Admits(history: seq<Decision>, now: nat, pipeline: Pipeline, limit: nat, window: nat)
  {
    !pipeline.Replied? || Count(history, now, window) + 1 <= limit
  }

  /** Every decision is that of the limiter that forgets nothing, and the clock never runs backwards. */
  ghost predicate Faithful(history: seq<Decision>, limit: nat, window: nat)
  {
    && (forall i, j :: 0 <= i < j < |history| ==> history[i].request.at <= history[j].request.at)
    && (forall i :: 0 <= i < |history| ==>
          (history[i].admitted <==>
           Admits(history[..i], history[i].request.at, history[i].pipeline, limit, window)))
  }

  // --- The limiter on a sorted set. ---

  /** The members that a trim at `now` leaves. */
  function Trimmed(entries: set<Request>, now: nat, window: nat): (left: set<Request>)
  {
    set e | e in entries && now < e.at + window
  }

  /** What was executed within the window that ends at `now`. */
  ghost function Recent(history: seq<Decision>, now: nat, window: nat): (rs: set<Request>)
  {
    set i | 0 <= i < |history| && !history[i].pipeline.NotExecuted? && now < history[i].request.at + window ::
      history[i].request
  }

  /** Everything executed so far was executed by this time. */
  ghost predicate ExecutedBy(history: seq<Decision>, time: nat)
  {
    forall i :: 0 <= i < |history| && !history[i].pipeline.NotExecuted? ==> history[i].request.at <= time
  }

  class RateLimiter {
    const limit: nat
    const window: nat
    var entries: set<Request>
    var expiry: nat
    ghost var history: seq<Decision>
    ghost var trimmed: nat

    /** The set holds what the last executed pipeline saw within its window; the key lives one window longer. */
    ghost predicate Valid()
      reads this
    {
      && Faithful(history, limit, window) && Distinct(history)
      && entries == Recent(history, trimmed, window) && expiry == trimmed + window && ExecutedBy(history, trimmed)
      && trimmed <= (if history == [] then 0 else history[|history| - 1].request.at)
    }

    constructor (limit: nat, window: nat)
      ensures Valid() && this.limit == limit && this.window == window && history == []
    {
      this.limit, this.window := limit, window;
      entries, expiry, history, trimmed := {}, window, [], 0;
    }

    /**
     * The commands of the pipeline: trim, add, count, expire. An expired key is gone before the first of
     * them, and a key that is to expire after no time is gone at once.
     */
    method Execute(now: nat, nonce: nat) returns (count: nat)
      requires trimmed <= now && entries == Recent(history, trimmed, window) && expiry == trimmed + window
      requires ExecutedBy(history, trimmed) && Distinct(history) && Request(now, nonce) !in Recent(history, now, window)
      modifies this`entries, this`expiry, this`trimmed
      ensures entries == Recent(history, now, window) + if now < now + window then {Request(now, nonce)} else {}
      ensures count == Count(history, now, window) + 1 && expiry == now + window && trimmed == now
    {
      TrimKeepsRecent(history, trimmed, now, window);
      if expiry < now {
        ExpiredDoesNotCount(history, trimmed, now, window);
        entries := {};
      }
      entries := Trimmed(entries, now, window);
      RecentCount(history, now, window);
      entries := entries + {Request(now, nonce)};
      count := |entries|;
      expiry := now + window;
      if window == 0 { entries := {}; }
      trimmed := now;
    }

    /** Trimming and expiry lose nothing: the decision is the one that the full history gives. */
    method CanActivate(now: nat, nonce: nat, pipeline: Pipeline) returns (allowed: bool)
      requires Valid()
      requires forall i :: 0 <= i < |history| ==>
        history[i].request.at <= now && history[i].request != Request(now, nonce)
      modifies this
      ensures Valid() && history == old(history) + [Decision(Request(now, nonce), pipeline, allowed)]
      ensures allowed <==> Admits(old(history), now, pipeline, limit, window)
    {
      var count := 0;
      if !pipeline.NotExecuted? { count := Execute(now, nonce); }
      allowed := !pipeline.Replied? || count <= limit;
      ghost var d := Decision(Request(now, nonce), pipeline, allowed);
      RecentNext(history, d, trimmed, window);
      FaithfulNext(history, d, limit, window);
      DistinctNext(history, d, trimmed);
      history := history + [d];
    }
  }

  ghost predicate Distinct(history: seq<Decision>)
  {
    forall i, j :: 0 <= i < j < |history| ==> history[i].request != history[j].request
  }

  // --- Trimming and expiry. ---

  lemma TrimKeepsRecent(history: seq<Decision>, before: nat, now: nat, window: nat)
    requires before <= now
    ensures Trimmed(Recent(history, before, window), now, window) == Recent(history, now, window)
  {
  }

  /** By the time the key expires, none of its members counts any more. */
  lemma ExpiredDoesNotCount(history: seq<Decision>, last: nat, now: nat, window: nat)
    requires last + window < now
    requires forall i :: 0 <= i < |history| && !history[i].pipeline.NotExecuted? ==> history[i].request.at <= last
    ensures Recent(history, now, window) == {}
  {
  }

  /** With distinct members, the cardinality of the set is the number of requests. */
  lemma {:induction false} RecentCount(history: seq<Decision>, now: nat, window: nat)
    requires Distinct(history)
    ensures |Recent(history, now, window)| == Count(history, now, window)
  {
    if history != [] {
      var h, d := history[..|history| - 1], history[|history| - 1];
      RecentCount(h, now, window);
      assert history == h + [d];
      RecentNext(h, d, now, window);
      assert d.request !in Recent(h, now, window);
    }
  }

  lemma RecentNext(history: seq<Decision>, d: Decision, now: nat, window: nat)
    ensures Recent(history + [d], now, window)
         == Recent(history, now, window)
          + if !d.pipeline.NotExecuted? && now < d.request.at + window then {d.request} else {}
  {
    var more := history + [d];
    forall r | r in Recent(history, now, window) ensures r in Recent(more, now, window)
    {
      var i :| 0 <= i < |history| && !history[i].pipeline.NotExecuted? && now < history[i].request.at + window
               && history[i].request == r;
      assert more[i] == history[i];
    }
    assert more[|history|] == d;
  }

  lemma DistinctNext(history: seq<Decision>, d: Decision, time: nat)
    requires Distinct(history) && forall i :: 0 <= i < |history| ==> history[i].request != d.request
    requires ExecutedBy(history, time) && (!d.pipeline.NotExecuted? ==> d.request.at <= time)
    ensures Distinct(history + [d]) && ExecutedBy(history + [d], time)
  {
  }

  lemma FaithfulNext(history: seq<Decision>, d: Decision, limit: nat, window: nat)
    requires Faithful(history, limit, window)
    requires forall i :: 0 <= i < |history| ==> history[i].request.at <= d.request.at
    requires d.admitted <==> Admits(history, d.request.at, d.pipeline, limit, window)
    ensures Faithful(history + [d], limit, window)
  {
    var more := history + [d];
    forall i | 0 <= i < |more|
      ensures more[i].admitted <==> Admits(more[..i], more[i].request.at, more[i].pipeline, limit, window)
    {
      assert more[..i] == if i < |history| then history[..i] else history;
    }
  }

  // --- The bound. ---

  function AdmittedIn(history: seq<Decision>, t: nat, window: nat): (n: nat)
  {
    if history == [] then 0
    else
      var last := history[|history| - 1];
      AdmittedIn(history[..|history| - 1], t, window)
      + if last.admitted && last.request.at <= t < last.request.at + window then 1 else 0
  }

  /** The requests of the window whose results did not come back. */
  function UnansweredIn(history: seq<Decision>, t: nat, window: nat): (n: nat)
  {
    if history == [] then 0
    else
      var last := history[|history| - 1];
      UnansweredIn(history[..|history| - 1], t, window)
      + if !last.pipeline.Replied? && last.request.at <= t < last.request.at + window then 1 else 0
  }

  lemma {:induction false} AdmittedAreCounted(history: seq<Decision>, now: nat, t: nat, window: nat)
    requires now <= t
    ensures AdmittedIn(history, t, window) <= Count(history, now, window) + UnansweredIn(history, t, window)
  {
    if history != [] { AdmittedAreCounted(history[..|history| - 1], now, t, window); }
  }

  /** In every window of every run, at most `limit` requests are admitted besides the unanswered ones. */
  lemma {:induction false} WindowBound(history: seq<Decision>, t: nat, limit: nat, window: nat)
    requires Faithful(history, limit, window)
    ensures AdmittedIn(history, t, window) <= limit + UnansweredIn(history, t, window)
  {
    if history != [] {
      var n := |history| - 1;
      var h, d := history[..n], history[n];
      FaithfulPrefix(history, limit, window);
      WindowBound(h, t, limit, window);
      assert h == history[..n] && (d.admitted <==> Admits(h, d.request.at, d.pipeline, limit, window));
      LastInWindow(h, d, t, limit, window);
    }
  }

  lemma LastInWindow(h: seq<Decision>, d: Decision, t: nat, limit: nat, window: nat)
    requires AdmittedIn(h, t, window) <= limit + UnansweredIn(h, t, window)
    requires d.admitted <==> Admits(h, d.request.at, d.pipeline, limit, window)
    ensures AdmittedIn(h, t, window) + (if d.admitted && d.request.at <= t < d.request.at + window then 1 else 0)
         <= limit + UnansweredIn(h, t, window)
          + if !d.pipeline.Replied? && d.request.at <= t < d.request.at + window then 1 else 0
  {
    if d.request.at <= t { AdmittedAreCounted(h, d.request.at, t, window); }
  }

  lemma FaithfulPrefix(history: seq<Decision>, limit: nat, window: nat)
    requires Faithful(history, limit, window) && history != []
    ensures Faithful(history[..|history| - 1], limit, window)
  {
    var h := history[..|history| - 1];
    forall i | 0 <= i < |h| ensures h[i].admitted <==> Admits(h[..i], h[i].request.at, h[i].pipeline, limit, window)
    {
      assert h[..i] == history[..i];
    }
  }

  /** A request that is answered is rejected only if the window already holds `limit` requests. */
  lemma RejectedOnlyWhenFull(history: seq<Decision>, i: nat, limit: nat, window: nat)
    requires Faithful(history, limit, window) && i < |history| && !history[i].admitted
    ensures history[i].pipeline.Replied? && Count(history[..i], history[i].request.at, window) >= limit
  {
  }

  /** The executed requests of the history that are less than one window old, by position. */
  function InWindow(history: seq<Decision>, now: int, window: nat): (places: set<nat>)
  {
    set j | 0 <= j < |history| && !history[j].pipeline.NotExecuted? && now - window < history[j].request.at
  }

  lemma {:induction false} CountIs(history: seq<Decision>, now: int, window: nat)
    ensures Count(history, now, window) == |InWindow(history, now, window)|
  {
    if history != [] {
      var n := |history| - 1;
      var h, d := history[..n], history[n];
      CountIs(h, now, window);
      assert InWindow(history, now, window)
          == if !d.pipeline.NotExecuted? && now - window < d.request.at then InWindow(h, now, window) + {n}
             else InWindow(h, now, window);
    }
  }

  /** A request passes iff it gets no answer, or fewer than `limit` executed ones are less than one window old. */
  lemma AdmittedIff(history: seq<Decision>, i: nat, limit: nat, window: nat)
    requires Faithful(history, limit, window) && i < |history|
    ensures history[i].admitted
      <==> !history[i].pipeline.Replied? || |InWindow(history[..i], history[i].request.at, window)| < limit
  {
    CountIs(history[..i], history[i].request.at, window);
  }

  // --- Which pipelines keep the limit. ---

  /** A run of the limiter over these pipelines, whatever the times. */
  ghost predicate IsRun(history: seq<Decision>, ps: seq<Pipeline>, limit: nat, window: nat)
  {
    && Faithful(history, limit, window) && Distinct(history) && |history| == |ps|
    && forall i :: 0 <= i < |ps| ==> history[i].pipeline == ps[i]
  }

  ghost predicate KeepsLimit(ps: seq<Pipeline>, limit: nat, window: nat)
  {
    forall history, t: nat :: IsRun(history, ps, limit, window) ==> AdmittedIn(history, t, window) <= limit
  }

  /** Every pipeline was executed, and lost its reply only among the first `limit`. */
  predicate OnlyEarlyLosses(ps: seq<Pipeline>, limit: nat)
  {
    forall i :: 0 <= i < |ps| && !ps[i].Replied? ==> ps[i].LostReply? && i < limit
  }

  lemma {:induction false} AdmittedAtMostAll(history: seq<Decision>, t: nat, window: nat)
    ensures AdmittedIn(history, t, window) <= |history|
    ensures window == 0 ==> AdmittedIn(history, t, window) == 0
  {
    if history != [] { AdmittedAtMostAll(history[..|history| - 1], t, window); }
  }

  lemma {:induction false} ExecutedAreCounted(history: seq<Decision>, now: nat, t: nat, window: nat)
    requires now <= t && forall i :: 0 <= i < |history| ==> !history[i].pipeline.NotExecuted?
    ensures AdmittedIn(history, t, window) <= Count(history, now, window)
  {
    if history != [] { ExecutedAreCounted(history[..|history| - 1], now, t, window); }
  }

  lemma {:induction false} EarlyLossesKeep(history: seq<Decision>, t: nat, limit: nat, window: nat)
    requires Faithful(history, limit, window)
    requires forall i :: 0 <= i < |history| && !history[i].pipeline.Replied? ==>
      history[i].pipeline.LostReply? && i < limit
    ensures AdmittedIn(history, t, window) <= limit
  {
    if history != [] {
      var n := |history| - 1;
      var h, d := history[..n], history[n];
      FaithfulPrefix(history, limit, window);
      EarlyLossesKeep(h, t, limit, window);
      AdmittedAtMostAll(h, t, window);
      if d.admitted && d.pipeline.Replied? && d.request.at <= t < d.request.at + window {
        ExecutedAreCounted(h, d.request.at, t, window);
        assert Admits(h, d.request.at, d.pipeline, limit, window);
      }
    }
  }

  /** All requests at time 0. */
  function Burst(ps: seq<Pipeline>, limit: nat, window: nat): (history: seq<Decision>)
    ensures |history| == |ps|
    ensures forall i :: 0 <= i < |ps| ==> history[i].pipeline == ps[i] && history[i].request == Request(0, i)
  {
    if ps == [] then []
    else
      var n := |ps| - 1;
      var h := Burst(ps[..n], limit, window);
      h + [Decision(Request(0, n), ps[n], Admits(h, 0, ps[n], limit, window))]
  }

  lemma {:induction false} BurstIsRun(ps: seq<Pipeline>, limit: nat, window: nat)
    ensures IsRun(Burst(ps, limit, window), ps, limit, window)
  {
    if ps != [] {
      var n := |ps| - 1;
      BurstIsRun(ps[..n], limit, window);
      var h, burst := Burst(ps[..n], limit, window), Burst(ps, limit, window);
      FaithfulNext(h, burst[n], limit, window);
      assert burst == h + [burst[n]];
    }
  }

  function Executed(ps: seq<Pipeline>): (n: nat)
    ensures n <= |ps|
    ensures n == |ps| <==> forall i :: 0 <= i < |ps| ==> !ps[i].NotExecuted?
  {
    if ps == [] then 0
    else Executed(ps[..|ps| - 1]) + if ps[|ps| - 1].NotExecuted? then 0 else 1
  }

  /** What a burst admits beyond its first `limit` executed requests. */
  function Extra(ps: seq<Pipeline>, limit: nat): (n: nat)
  {
    if ps == [] then 0
    else
      var before, last := ps[..|ps| - 1], ps[|ps| - 1];
      Extra(before, limit)
      + if last.NotExecuted? || (last.LostReply? && Executed(before) >= limit) then 1 else 0
  }

  function Min(a: nat, b: nat): (m: nat)
  {
    if a <= b then a else b
  }

  /** Of these requests at time 0, e were executed; of those, the first `limit` were admitted, and x others. */
  ghost predicate AtOnce(h: seq<Decision>, e: nat, x: nat, limit: nat, window: nat)
  {
    Count(h, 0, window) == e && AdmittedIn(h, 0, window) == Min(e, limit) + x
  }

  lemma {:induction false} BurstAdmits(ps: seq<Pipeline>, limit: nat, window: nat)
    requires window > 0
    ensures AtOnce(Burst(ps, limit, window), Executed(ps), Extra(ps, limit), limit, window)
  {
    if ps != [] {
      var n := |ps| - 1;
      BurstAdmits(ps[..n], limit, window);
      var h := Burst(ps[..n], limit, window);
      AtOnceNext(h, ps[n], Executed(ps[..n]), Extra(ps[..n], limit), limit, window);
    }
  }

  lemma AtOnceNext(h: seq<Decision>, p: Pipeline, e: nat, x: nat, limit: nat, window: nat)
    requires window > 0 && AtOnce(h, e, x, limit, window)
    ensures var next := h + [Decision(Request(0, |h|), p, Admits(h, 0, p, limit, window))];
      var extra := p.NotExecuted? || (p.LostReply? && e >= limit);
      AtOnce(next, if p.NotExecuted? then e else e + 1, if extra then x + 1 else x, limit, window)
  {
    LastAtOnce(h, Decision(Request(0, |h|), p, Admits(h, 0, p, limit, window)), window);
  }

  lemma LastAtOnce(h: seq<Decision>, d: Decision, window: nat)
    requires window > 0 && d.request.at == 0
    ensures Count(h + [d], 0, window) == Count(h, 0, window) + if d.pipeline.NotExecuted? then 0 else 1
    ensures AdmittedIn(h + [d], 0, window) == AdmittedIn(h, 0, window) + if d.admitted then 1 else 0
  {
    assert (h + [d])[..|h|] == h;
  }

  lemma {:induction false} NotExecutedIsExtra(ps: seq<Pipeline>, limit: nat)
    ensures Extra(ps, limit) >= |ps| - Executed(ps)
  {
    if ps != [] { NotExecutedIsExtra(ps[..|ps| - 1], limit); }
  }

  lemma {:induction false} LateLossIsExtra(ps: seq<Pipeline>, limit: nat, i: nat)
    requires limit <= i < |ps| && ps[i].LostReply? && Executed(ps) == |ps|
    ensures Extra(ps, limit) > 0
  {
    if i < |ps| - 1 { LateLossIsExtra(ps[..|ps| - 1], limit, i); }
  }

  /** More requests than the limit at once, with a pipeline that is not executed or loses its reply late. */
  lemma BurstExceeds(ps: seq<Pipeline>, limit: nat, window: nat)
    requires window > 0 && |ps| > limit && !OnlyEarlyLosses(ps, limit)
    ensures IsRun(Burst(ps, limit, window), ps, limit, window)
    ensures AdmittedIn(Burst(ps, limit, window), 0, window) > limit
  {
    BurstIsRun(ps, limit, window);
    BurstAdmits(ps, limit, window);
    TooMany(ps, Executed(ps), Extra(ps, limit), limit);
  }

  lemma TooMany(ps: seq<Pipeline>, e: nat, x: nat, limit: nat)
    requires |ps| > limit && !OnlyEarlyLosses(ps, limit) && e == Executed(ps) && x == Extra(ps, limit)
    ensures Min(e, limit) + x > limit
  {
    NotExecutedIsExtra(ps, limit);
    if e == |ps| {
      var i :| 0 <= i < |ps| && !ps[i].Replied? && !(ps[i].LostReply? && i < limit);
      LateLossIsExtra(ps, limit, i);
    }
  }

  /**
   * The limit holds in every window of every run over these pipelines iff every one of them is executed
   * and loses its reply only among the first `limit`, or there are no more than `limit` of them at all.
   */
  lemma LimitKeptIff(ps: seq<Pipeline>, limit: nat, window: nat)
    ensures KeepsLimit(ps, limit, window) <==> window == 0 || |ps| <= limit || OnlyEarlyLosses(ps, limit)
  {
    if window == 0 || |ps| <= limit || OnlyEarlyLosses(ps, limit) {
      forall history, t: nat | IsRun(history, ps, limit, window) ensures AdmittedIn(history, t, window) <= limit
      {
        AdmittedAtMostAll(history, t, window);
        if OnlyEarlyLosses(ps, limit) { EarlyLossesKeep(history, t, limit, window); }
      }
    } else {
      BurstExceeds(ps, limit, window);
    }
  }
}
